/** Per-gene statistics of one signal track: the mean over the across window,
    the promoter and gene-body means, and the pausing index (promoter mean over
    gene-body mean, with a 1e-9 stand-in for a zero denominator).  Genes of at
    most 800 bp get the "too short" state: all three promoter statistics are 0. */
module Pausing {
  import opened Common
  import opened Windows
  import opened Signal

  /** Denominator used instead of a zero gene-body mean (1e-9). */
  const ZeroDenominator: real := 0.000000001

  /** Promoter mean, gene-body mean and pausing index of one gene. */
  datatype PromoterStats = PromoterStats(promoterMean: real, bodyMean: real, index: real)

  /** Mean signal over the across window of a gene. */
  function MeanAcross(chrom: string, start: int, end: int, strand: string, track: Track): (r: Result<real>)
    ensures r.Err? <==> !ValidStrand(strand) || (strand == "+" && end == start - PromoterExt)
                                             || (strand == "-" && end + PromoterExt == start)
    ensures r.Err? && !ValidStrand(strand) ==> r.error == InvalidStrand(strand)
    ensures r.Ok? && start <= end ==>
      r.value * (end - start + PromoterExt) as real ==
        if strand == "+" then SignalSum(track, chrom, start - PromoterExt, end)
        else SignalSum(track, chrom, start, end + PromoterExt)
  {
    match AcrossWindow(start, end, strand)
    case Err(e) => Err(e)
    case Ok(w) => WindowMean(track, chrom, w)
  }

  /** The pausing index of a promoter mean and a gene-body mean. */
  function PausingRatio(promoterMean: real, bodyMean: real): (r: real)
    ensures bodyMean != 0.0 ==> r * bodyMean == promoterMean
    ensures bodyMean == 0.0 ==> r == promoterMean * 1000000000.0
  {
    if bodyMean != 0.0 then promoterMean / bodyMean else promoterMean / ZeroDenominator
  }

  /** Promoter mean, gene-body mean and pausing index of a gene.  A gene of at most
      800 bp gets zeros whatever its strand and whatever the track holds. */
  function PromoterAndBody(chrom: string, start: int, end: int, strand: string, track: Track): (r: Result<PromoterStats>)
    ensures end - start <= ShortGeneCutoff ==> r == Ok(PromoterStats(0.0, 0.0, 0.0))
    ensures end - start > ShortGeneCutoff ==> (r.Ok? <==> ValidStrand(strand))
    ensures r.Err? ==> r.error == InvalidStrand(strand)
    ensures r.Ok? && end - start > ShortGeneCutoff ==>
      var s := r.value;
      var bodyLength := (end - start - PromoterExt) as real;
      && s.index == PausingRatio(s.promoterMean, s.bodyMean)
      && (strand == "+" ==>
            && s.promoterMean * 500.0 == SignalSum(track, chrom, start - PromoterExt, start + PromoterExt)
            && s.bodyMean * bodyLength == SignalSum(track, chrom, start + PromoterExt, end))
      && (strand == "-" ==>
            && s.promoterMean * 500.0 == SignalSum(track, chrom, end - PromoterExt, end + PromoterExt)
            && s.bodyMean * bodyLength == SignalSum(track, chrom, start, end - PromoterExt))
  {
    match PromoterBodyWindows(start, end, strand)
    case Err(e) => Err(e)
    case Ok(Short) => Ok(PromoterStats(0.0, 0.0, 0.0))
    case Ok(Split(promoter, body)) =>
      match WindowMean(track, chrom, promoter)
      case Err(e) => Err(e)
      case Ok(promoterMean) =>
        match WindowMean(track, chrom, body)
        case Err(e) => Err(e)
        case Ok(bodyMean) => Ok(PromoterStats(promoterMean, bodyMean, PausingRatio(promoterMean, bodyMean)))
  }

  /** A zero gene-body mean gives promoter_mean / 1e-9, not a failure. */
  lemma ZeroBodyMeanIndex(chrom: string, start: int, end: int, strand: string, track: Track)
    requires end - start > ShortGeneCutoff && ValidStrand(strand)
    requires PromoterAndBody(chrom, start, end, strand, track).value.bodyMean == 0.0
    ensures var s := PromoterAndBody(chrom, start, end, strand, track).value;
      s.index == s.promoterMean / ZeroDenominator
  {
  }

  /** The across mean is the length-weighted average of the promoter and
      gene-body means, because the two windows tile the across window. */
  lemma {:induction false} AcrossIsWeightedMean(chrom: string, start: int, end: int, strand: string, track: Track)
    requires end - start > ShortGeneCutoff && ValidStrand(strand)
    ensures var across := MeanAcross(chrom, start, end, strand, track);
      var s := PromoterAndBody(chrom, start, end, strand, track);
      && across.Ok? && s.Ok?
      && across.value * (end - start + PromoterExt) as real ==
           500.0 * s.value.promoterMean + (end - start - PromoterExt) as real * s.value.bodyMean
  {
    if strand == "+" {
      SumSplit(track, chrom, start - PromoterExt, start + PromoterExt, end);
    } else {
      SumSplit(track, chrom, start, end - PromoterExt, end + PromoterExt);
    }
  }

  /** On a track that is constantly c around a long gene, promoter and gene-body
      means are both c and the index is 1 (0 when c is 0), on either strand. */
  lemma ConstantTrackStats(chrom: string, start: int, end: int, strand: string, track: Track, c: real)
    requires end - start > ShortGeneCutoff && ValidStrand(strand)
    requires forall p | start - PromoterExt <= p < end + PromoterExt :: track(chrom, p) == Some(c)
    ensures MeanAcross(chrom, start, end, strand, track) == Ok(c)
    ensures PromoterAndBody(chrom, start, end, strand, track) ==
      Ok(PromoterStats(c, c, if c == 0.0 then 0.0 else 1.0))
  {
    var across := AcrossWindow(start, end, strand).value;
    MeanOfConstant(track, chrom, across, c);
    var split := PromoterBodyWindows(start, end, strand).value;
    MeanOfConstant(track, chrom, split.promoter, c);
    MeanOfConstant(track, chrom, split.body, c);
  }

  /** Under a uniform signal the statistics do not depend on the strand. */
  lemma StrandSymmetryUnderUniformSignal(chrom: string, start: int, end: int, track: Track, c: real)
    requires end - start > ShortGeneCutoff
    requires forall p | start - PromoterExt <= p < end + PromoterExt :: track(chrom, p) == Some(c)
    ensures PromoterAndBody(chrom, start, end, "+", track) == PromoterAndBody(chrom, start, end, "-", track)
    ensures MeanAcross(chrom, start, end, "+", track) == MeanAcross(chrom, start, end, "-", track)
  {
    ConstantTrackStats(chrom, start, end, "+", track, c);
    ConstantTrackStats(chrom, start, end, "-", track, c);
  }

  /** A 2000 bp gene at 1000..3000 on a track that is 2.0 everywhere: both means
      are 2.0 and the index is 1.0 on both strands. */
  lemma UniformTrackExample()
    ensures var track: Track := (chrom: string, pos: int) => Some(2.0);
      && PromoterAndBody("chr2L", 1000, 3000, "+", track) == Ok(PromoterStats(2.0, 2.0, 1.0))
      && PromoterAndBody("chr2L", 1000, 3000, "-", track) == Ok(PromoterStats(2.0, 2.0, 1.0))
  {
    var track: Track := (chrom: string, pos: int) => Some(2.0);
    ConstantTrackStats("chr2L", 1000, 3000, "+", track, 2.0);
    ConstantTrackStats("chr2L", 1000, 3000, "-", track, 2.0);
  }
}
