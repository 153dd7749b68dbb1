/** The per-sample pass: for every gene, in annotation order, the across mean,
    the promoter statistics and the gated pausing index of one signal track.
    The index is suppressed (missing) when the across mean is below the binding
    threshold, which is 500 for the SPT5 antibody and 0 for every other one. */
module Sample {
  import opened Common
  import opened Annotation
  import opened Windows
  import opened Signal
  import opened Pausing

  /** One record of a sample's table; the sample name is attached to the four
      statistic columns when the table is built. */
  datatype Row = Row(
    geneId: string, chrom: string, start: int, end: int, length: int, strand: string,
    meanRpkm: real, promoterMean: real, bodyMean: real, index: Option<real>)

  /** The binding threshold below which the pausing index is suppressed. */
  function Threshold(antibody: string): (t: real)
    ensures t == 500.0 <==> antibody == "SPT5"
    ensures t == 0.0 <==> antibody != "SPT5"
  {
    if antibody == "SPT5" then 500.0 else 0.0
  }

  /** The loop body of the sample pass for one gene.  Gating replaces only the
      pausing index; every other field is the ungated statistic. */
  function GeneRow(g: Gene, track: Track, threshold: real): (r: Result<Row>)
    ensures r.Ok? <==>
      MeanAcross(g.chrom, g.start, g.end, g.strand, track).Ok? &&
      PromoterAndBody(g.chrom, g.start, g.end, g.strand, track).Ok?
    ensures r.Ok? ==>
      var row, stats := r.value, PromoterAndBody(g.chrom, g.start, g.end, g.strand, track).value;
      && row.geneId == g.id && row.chrom == g.chrom && row.strand == g.strand
      && row.start == g.start && row.end == g.end && row.length == g.end - g.start
      && row.meanRpkm == MeanAcross(g.chrom, g.start, g.end, g.strand, track).value
      && row.promoterMean == stats.promoterMean && row.bodyMean == stats.bodyMean
      && (row.index.None? <==> row.meanRpkm < threshold)
      && (row.index.Some? ==> row.index.value == stats.index)
  {
    match MeanAcross(g.chrom, g.start, g.end, g.strand, track)
    case Err(e) => Err(e)
    case Ok(meanRpkm) =>
      match PromoterAndBody(g.chrom, g.start, g.end, g.strand, track)
      case Err(e) => Err(e)
      case Ok(s) =>
        var index := if meanRpkm < threshold then None else Some(s.index);
        Ok(Row(g.id, g.chrom, g.start, g.end, g.end - g.start, g.strand,
               meanRpkm, s.promoterMean, s.bodyMean, index))
  }

  /** A gene of at least 10 bp is processed without error exactly when its
      strand is "+" or "-"; otherwise the run stops with InvalidStrand.  The
      track is a total function, so a window that the bigWig reader would
      refuse (one starting below 0, ending past the chromosome, or on a
      chromosome the file lacks) is read like any other here. */
  lemma GeneRowOfParsedGene(g: Gene, track: Track, threshold: real)
    requires g.end - g.start >= MinSpan
    ensures GeneRow(g, track, threshold).Ok? <==> ValidStrand(g.strand)
    ensures GeneRow(g, track, threshold).Err? ==> GeneRow(g, track, threshold).error == InvalidStrand(g.strand)
  {
  }

  /** The two "no index" states of a short gene: the index is 0 when the gene is
      bound well enough, and missing when it is not. */
  lemma ShortGeneStates(g: Gene, track: Track, threshold: real)
    requires g.end - g.start <= ShortGeneCutoff
    requires GeneRow(g, track, threshold).Ok?
    ensures var row := GeneRow(g, track, threshold).value;
      && row.promoterMean == 0.0 && row.bodyMean == 0.0
      && row.index == if row.meanRpkm < threshold then None else Some(0.0)
  {
  }

  /** With the threshold of any antibody other than SPT5, a track without
      negative values never has its index suppressed. */
  lemma NonNegativeTrackNeverGated(g: Gene, track: Track, antibody: string)
    requires antibody != "SPT5"
    requires g.end - g.start >= MinSpan && ValidStrand(g.strand)
    requires forall p: int :: 0.0 <= OrZero(track(g.chrom, p))
    ensures GeneRow(g, track, Threshold(antibody)).Ok?
    ensures GeneRow(g, track, Threshold(antibody)).value.index.Some?
  {
    var w := AcrossWindow(g.start, g.end, g.strand).value;
    AcrossWindowOfGene(g.start, g.end, g.strand);
    SumAtLeast(track, g.chrom, w.start, w.end, 0.0);
  }

  /** The loop body of the sample pass, as a function of the gene. */
  function GeneRowOf(track: Track, threshold: real): Gene -> Result<Row> {
    (g: Gene) => GeneRow(g, track, threshold)
  }

  /** The table of one sample: one row per gene, in gene order; the first gene
      that fails aborts the pass. */
  function SampleRows(genes: seq<Gene>, track: Track, threshold: real): (r: Result<seq<Row>>)
    ensures r.Ok? <==> forall k | 0 <= k < |genes| :: GeneRow(genes[k], track, threshold).Ok?
    ensures r.Ok? ==>
      && |r.value| == |genes|
      && forall k | 0 <= k < |genes| :: GeneRow(genes[k], track, threshold) == Ok(r.value[k])
    ensures r.Err? ==> exists k | 0 <= k < |genes| ::
      && GeneRow(genes[k], track, threshold) == Err(r.error)
      && forall j | 0 <= j < k :: GeneRow(genes[j], track, threshold).Ok?
  {
    MapResults(genes, GeneRowOf(track, threshold))
  }

  /** Every gene list produced by the annotation filter is processed without
      error when all its strands are "+" or "-", given a reader that accepts
      every window (the track is a total function). */
  lemma ParsedGenesLoad(lines: seq<string>, track: Track, threshold: real)
    requires ParseLines(lines).Ok?
    requires forall g | g in ParseLines(lines).value :: ValidStrand(g.strand)
    ensures SampleRows(ParseLines(lines).value, track, threshold).Ok?
  {
    var genes := ParseLines(lines).value;
    var _ := ParseLinesProvenance(lines, genes);
    forall k | 0 <= k < |genes|
      ensures GeneRow(genes[k], track, threshold).Ok?
    {
      assert ValidGene(genes[k]);
      GeneRowOfParsedGene(genes[k], track, threshold);
    }
  }

  /** load_bw_data: one pass over the genes, appending one record per gene. */
  method LoadSample(track: Track, genes: seq<Gene>, threshold: real) returns (r: Result<seq<Row>>)
    ensures r == SampleRows(genes, track, threshold)
  {
    var rows: seq<Row> := [];
    for i := 0 to |genes|
      invariant MapResults(genes[..i], GeneRowOf(track, threshold)) == Ok(rows)
    {
      var g := genes[i];
      var meanRpkm: real;
      match MeanAcross(g.chrom, g.start, g.end, g.strand, track)
      case Err(e) =>
        FirstErrorAborts(genes, GeneRowOf(track, threshold), i);
        return Err(e);
      case Ok(m) => meanRpkm := m;
      var promoterAndBody := PromoterAndBody(g.chrom, g.start, g.end, g.strand, track);
      // The strand check of the promoter statistics cannot fire: the across
      // mean has already rejected every strand other than "+" and "-".
      assert promoterAndBody.Ok?;
      var stats := promoterAndBody.value;
      var index := Some(stats.index);
      if meanRpkm < threshold {
        index := None;
      }
      var row := Row(g.id, g.chrom, g.start, g.end, g.end - g.start, g.strand,
                     meanRpkm, stats.promoterMean, stats.bodyMean, index);
      assert GeneRow(g, track, threshold) == Ok(row);
      MapResultsStep(genes, GeneRowOf(track, threshold), i, rows);
      rows := rows + [row];
    }
    assert genes[..|genes|] == genes;
    return Ok(rows);
  }
}
