/** Strand-aware window construction.  The "across" window is the gene extended
    250 bp upstream of its transcription start site (TSS); genes longer than
    800 bp also get a 500 bp promoter window centred on the TSS and a gene-body
    window from TSS+250 to the transcription end site (TES).  On the "+" strand
    the TSS is `start`, on the "-" strand it is `end`.  Raw bounds computed by
    strand arithmetic are put in order with min/max where the source does so. */
module Windows {
  import opened Common

  /** Upstream extension of the across window and half-width of the promoter. */
  const PromoterExt: int := 250

  /** Genes of at most this span get no promoter or gene-body window. */
  const ShortGeneCutoff: int := 800

  /** A half-open range [start, end) of positions on one chromosome. */
  datatype Window = Window(start: int, end: int) {
    function Length(): int { end - start }
  }

  /** Two raw bounds in either order, returned as (min, max). */
  function Ordered(a: int, b: int): (w: Window)
    ensures w.start <= w.end
    ensures (w.start == a && w.end == b) || (w.start == b && w.end == a)
  {
    if a <= b then Window(a, b) else Window(b, a)
  }

  predicate ValidStrand(strand: string) { strand == "+" || strand == "-" }

  /** The across window: the gene plus 250 bp upstream of the TSS, ordered;
      any strand other than "+" or "-" raises. */
  function AcrossWindow(start: int, end: int, strand: string): (r: Result<Window>)
    ensures r.Ok? <==> ValidStrand(strand)
    ensures r.Err? ==> r.error == InvalidStrand(strand)
    ensures r.Ok? ==> r.value.start <= r.value.end
  {
    if strand == "+" then Ok(Ordered(start - PromoterExt, end))
    else if strand == "-" then Ok(Ordered(start, end + PromoterExt))
    else Err(InvalidStrand(strand))
  }

  /** For a gene with start <= end the min/max never swaps: the across window
      starts 250 bp before the TSS on "+" and ends 250 bp after it on "-", it
      covers the whole gene, and it is never empty. */
  lemma AcrossWindowOfGene(start: int, end: int, strand: string)
    requires start <= end && ValidStrand(strand)
    ensures var w := AcrossWindow(start, end, strand).value;
      && w.start <= start && end <= w.end
      && w.Length() == end - start + PromoterExt
      && (strand == "+" ==> w == Window(start - PromoterExt, end))
      && (strand == "-" ==> w == Window(start, end + PromoterExt))
  {
  }

  /** The two windows of a long gene, or Short when the gene spans at most 800 bp. */
  datatype Split = Short | Split(promoter: Window, body: Window)

  /** Promoter and gene-body windows.  The strand is only examined for long genes,
      so a short gene with an invalid strand is not an error here. */
  function PromoterBodyWindows(start: int, end: int, strand: string): (r: Result<Split>)
    ensures end - start <= ShortGeneCutoff ==> r == Ok(Short)
    ensures end - start > ShortGeneCutoff ==> (r.Ok? <==> ValidStrand(strand)) && (r.Ok? ==> r.value.Split?)
    ensures r.Err? ==> r.error == InvalidStrand(strand)
    ensures r.Ok? && r.value.Split? ==>
      var p, b := r.value.promoter, r.value.body;
      && p.Length() == 2 * PromoterExt
      && b.start < b.end
      && (strand == "+" ==> p.start + PromoterExt == start && p.end == b.start && b.end == end)
      && (strand == "-" ==> p.start + PromoterExt == end && b.end == p.start && b.start == start)
  {
    if end - start > ShortGeneCutoff then
      if strand == "+" then
        Ok(Split(Window(start - PromoterExt, start + PromoterExt), Window(start + PromoterExt, end)))
      else if strand == "-" then
        Ok(Split(Ordered(end + PromoterExt, end - PromoterExt), Ordered(start, end - PromoterExt)))
      else Err(InvalidStrand(strand))
    else Ok(Short)
  }

  /** `lo` and `hi` are adjacent and together cover `whole` exactly. */
  predicate Tiles(lo: Window, hi: Window, whole: Window) {
    whole.start == lo.start && lo.end == hi.start && hi.end == whole.end
  }

  /** For a long gene the promoter and gene body partition the across window:
      promoter then body on "+", body then promoter on "-". */
  lemma PromoterAndBodyTileAcross(start: int, end: int, strand: string)
    requires end - start > ShortGeneCutoff && ValidStrand(strand)
    ensures var across := AcrossWindow(start, end, strand).value;
      var split := PromoterBodyWindows(start, end, strand).value;
      && (strand == "+" ==> Tiles(split.promoter, split.body, across))
      && (strand == "-" ==> Tiles(split.body, split.promoter, across))
  {
  }
}
