/** The annotation filter: the lines of a GFF3 file become an ordered
    list of gene records.  A line is skipped when it is a comment, has fewer than
    nine fields, lies on a chromosome outside the allow-list, spans fewer than
    10 bp, is not a `gene` feature or carries no `ID=gene:<id>` attribute.  A line
    with more than nine fields, or a start/end field that is not an integer, raises
    and aborts the whole parse. */
module Annotation {
  import opened Common

  /** Chromosomes whose genes are kept. */
  const ChromList: seq<string> := ["X", "Y", "2L", "2R", "3L", "3R", "4"]

  /** Shortest gene span kept: the signal tracks have a 10 bp resolution. */
  const MinSpan: int := 10

  /** Fixed part of the pattern `ID=gene:([^;]+)` that carries the gene id. */
  const GeneIdTag: string := "ID=gene:"

  /** A gene record, as appended to the result list. */
  datatype Gene = Gene(id: string, strand: string, chrom: string, start: int, end: int)

  /** What every record produced by the filter satisfies. */
  predicate ValidGene(g: Gene) {
    && |g.id| > 0
    && (forall k | 0 <= k < |g.id| :: g.id[k] != ';')
    && |g.chrom| >= 3 && g.chrom[..3] == "chr" && g.chrom[3..] in ChromList
    && g.end - g.start >= MinSpan
  }

  // ------------------------------------------------------------------
  // int() on a start or end field
  // ------------------------------------------------------------------

  predicate IsDigit(c: char) { '0' <= c <= '9' }

  predicate AllDigits(s: string) { forall i | 0 <= i < |s| :: IsDigit(s[i]) }

  /** Value of a string of decimal digits, most significant first. */
  function DigitsValue(s: string): nat
    requires AllDigits(s)
  {
    if s == [] then 0 else DigitsValue(s[..|s| - 1]) * 10 + (s[|s| - 1] as int - '0' as int)
  }

  /** The decimal text of `int(start)` / `int(end)`: an optional sign followed by
      one or more ASCII digits; anything else is not an integer. */
  function ParseInt(s: string): Option<int> {
    if |s| > 0 && (s[0] == '-' || s[0] == '+') then
      var digits := s[1..];
      if |digits| > 0 && AllDigits(digits) then
        Some(if s[0] == '-' then -(DigitsValue(digits) as int) else DigitsValue(digits))
      else None
    else if |s| > 0 && AllDigits(s) then Some(DigitsValue(s))
    else None
  }

  /** Shortest decimal text of a natural number (the reference for ParseInt). */
  function Decimal(n: nat): (s: string)
    ensures |s| > 0 && AllDigits(s)
  {
    var last := [('0' as int + n % 10) as char];
    if n < 10 then last else Decimal(n / 10) + last
  }

  /** Decimal text of an integer, with a leading '-' when negative. */
  function IntText(n: int): string {
    if n < 0 then "-" + Decimal(-n) else Decimal(n)
  }

  lemma {:induction false} DecimalValue(n: nat)
    ensures DigitsValue(Decimal(n)) == n
  {
    var s := Decimal(n);
    if n >= 10 {
      DecimalValue(n / 10);
      assert s[..|s| - 1] == Decimal(n / 10);
    }
  }

  /** Every integer written in decimal is read back by ParseInt. */
  lemma ParseIntRoundTrip(n: int)
    ensures ParseInt(IntText(n)) == Some(n)
  {
    if n < 0 {
      DecimalValue(-n);
      assert IntText(n)[1..] == Decimal(-n);
    } else {
      DecimalValue(n);
      assert IsDigit(IntText(n)[0]);
    }
  }

  // ------------------------------------------------------------------
  // re.search(r'ID=gene:([^;]+)', attributes)
  // ------------------------------------------------------------------

  /** The pattern matches at position i: the tag, then at least one non-';'. */
  predicate MatchesAt(s: string, i: nat) {
    i + |GeneIdTag| < |s| && s[i..i + |GeneIdTag|] == GeneIdTag && s[i + |GeneIdTag|] != ';'
  }

  /** Length of the run of non-';' characters starting at i (greedy `[^;]+`). */
  function RunLength(s: string, i: nat): (n: nat)
    requires i <= |s|
    ensures i + n <= |s|
    ensures forall k | i <= k < i + n :: s[k] != ';'
    ensures i + n == |s| || s[i + n] == ';'
    decreases |s| - i
  {
    if i == |s| || s[i] == ';' then 0 else 1 + RunLength(s, i + 1)
  }

  /** The captured group of a match at position i: the longest run of
      non-';' characters after the tag, never empty. */
  function Capture(s: string, i: nat): (c: string)
    requires MatchesAt(s, i)
    ensures |c| > 0 && forall k | 0 <= k < |c| :: c[k] != ';'
    ensures i + |GeneIdTag| + |c| <= |s| && c == s[i + |GeneIdTag|..i + |GeneIdTag| + |c|]
    ensures i + |GeneIdTag| + |c| == |s| || s[i + |GeneIdTag| + |c|] == ';'
  {
    var from := i + |GeneIdTag|;
    var c := s[from..from + RunLength(s, from)];
    assert c[0] == s[from];
    assert forall k | 0 <= k < |c| :: c[k] == s[from + k];
    c
  }

  /** Leftmost position at or after `from` where the pattern matches. */
  function FirstMatch(s: string, from: nat): (r: Option<nat>)
    ensures r.None? ==> forall j: nat :: from <= j ==> !MatchesAt(s, j)
    ensures r.Some? ==> from <= r.value && MatchesAt(s, r.value)
    ensures r.Some? ==> forall j: nat :: from <= j < r.value ==> !MatchesAt(s, j)
    decreases |s| - from
  {
    if from + |GeneIdTag| >= |s| then None
    else if MatchesAt(s, from) then Some(from)
    else FirstMatch(s, from + 1)
  }

  /** The gene id of an attributes field, or None when the pattern does not
      match: the capture of the leftmost match. */
  function GeneIdOf(attributes: string): (r: Option<string>)
    ensures r.None? <==> forall i: nat :: !MatchesAt(attributes, i)
    ensures r.Some? ==> exists i: nat ::
      && MatchesAt(attributes, i)
      && (forall j: nat :: j < i ==> !MatchesAt(attributes, j))
      && r.value == Capture(attributes, i)
  {
    match FirstMatch(attributes, 0)
    case None => None
    case Some(i) => Some(Capture(attributes, i))
  }

  // ------------------------------------------------------------------
  // line.strip().split('\t')
  // ------------------------------------------------------------------

  /** Characters removed by strip(): the ASCII and Latin-1 whitespace. */
  predicate IsSpace(c: char) {
    9 <= c as int <= 13 || 28 <= c as int <= 32 || c as int == 0x85 || c as int == 0xA0
  }

  /** Number of whitespace characters the text starts with. */
  function LeadingSpace(s: string): (n: nat)
    ensures n <= |s|
    ensures forall k | 0 <= k < n :: IsSpace(s[k])
    ensures n < |s| ==> !IsSpace(s[n])
  {
    if s != [] && IsSpace(s[0]) then
      assert forall k | 1 <= k < |s| :: s[k] == s[1..][k - 1];
      1 + LeadingSpace(s[1..])
    else 0
  }

  /** Number of whitespace characters the text ends with. */
  function TrailingSpace(s: string): (n: nat)
    ensures n <= |s|
    ensures forall k | |s| - n <= k < |s| :: IsSpace(s[k])
    ensures n < |s| ==> !IsSpace(s[|s| - 1 - n])
  {
    if s != [] && IsSpace(s[|s| - 1]) then
      assert forall k | 0 <= k < |s| - 1 :: s[k] == s[..|s| - 1][k];
      1 + TrailingSpace(s[..|s| - 1])
    else 0
  }

  /** strip(): the text between its leading and trailing whitespace; a text
      made only of whitespace becomes empty. */
  function Strip(s: string): (r: string)
    ensures r == [] <==> forall k | 0 <= k < |s| :: IsSpace(s[k])
    ensures LeadingSpace(s) + |r| <= |s|
    ensures r == s[LeadingSpace(s)..LeadingSpace(s) + |r|]
    ensures forall k | LeadingSpace(s) + |r| <= k < |s| :: IsSpace(s[k])
    ensures r == [] || (!IsSpace(r[0]) && !IsSpace(r[|r| - 1]))
  {
    var i := LeadingSpace(s);
    if i == |s| then []
    else
      var j := |s| - TrailingSpace(s);
      assert i < j;
      s[i..j]
  }

  predicate NoTab(f: string) { forall c | 0 <= c < |f| :: f[c] != '\t' }

  /** split('\t'): the pieces between tabs; empty pieces are kept, and the
      empty text is one empty piece. */
  function SplitTabs(s: string): (fields: seq<string>)
    ensures |fields| >= 1
    ensures forall k | 0 <= k < |fields| :: NoTab(fields[k])
  {
    if s == [] then [""]
    else if s[0] == '\t' then [""] + SplitTabs(s[1..])
    else
      var rest := SplitTabs(s[1..]);
      [[s[0]] + rest[0]] + rest[1..]
  }

  /** '\t'.join(fields): the reference for SplitTabs. */
  function JoinTabs(fields: seq<string>): string
    requires |fields| >= 1
  {
    if |fields| == 1 then fields[0] else fields[0] + "\t" + JoinTabs(fields[1..])
  }

  /** Splitting loses nothing: joining the pieces gives the text back. */
  lemma {:induction false} JoinSplitTabs(s: string)
    ensures JoinTabs(SplitTabs(s)) == s
  {
    if s != [] {
      JoinSplitTabs(s[1..]);
      var rest := SplitTabs(s[1..]);
      if s[0] != '\t' && |rest| > 1 {
        assert JoinTabs(SplitTabs(s)) == [s[0]] + (rest[0] + "\t" + JoinTabs(rest[1..]));
      }
    }
  }

  /** A tab-free piece followed by a tab splits off as one field. */
  lemma {:induction false} SplitTabsPrefix(f: string, rest: string)
    requires NoTab(f)
    ensures SplitTabs(f + "\t" + rest) == [f] + SplitTabs(rest)
    ensures SplitTabs(f) == [f]
  {
    if f != [] {
      SplitTabsPrefix(f[1..], rest);
      assert (f + "\t" + rest)[1..] == f[1..] + "\t" + rest;
      assert f[0] != '\t' && [f[0]] + f[1..] == f;
    } else {
      assert f + "\t" + rest == "\t" + rest;
    }
  }

  /** Joining tab-free fields and splitting again gives the same fields. */
  lemma {:induction false} SplitJoinTabs(fields: seq<string>)
    requires |fields| >= 1 && forall k | 0 <= k < |fields| :: NoTab(fields[k])
    ensures SplitTabs(JoinTabs(fields)) == fields
  {
    SplitTabsPrefix(fields[0], if |fields| > 1 then JoinTabs(fields[1..]) else "");
    if |fields| > 1 {
      SplitJoinTabs(fields[1..]);
    }
  }

  // ------------------------------------------------------------------
  // One line, and the whole file
  // ------------------------------------------------------------------

  /** What the loop body does with one line. */
  datatype LineOutcome = Skip | Keep(gene: Gene) | Reject(fault: LineFault)

  /** A header or comment line: the raw line starts with '#'. */
  predicate IsComment(line: string) {
    |line| > 0 && line[0] == '#'
  }

  /** The fields of a line: stripped, then split on tabs. */
  function Fields(line: string): seq<string> {
    SplitTabs(Strip(line))
  }

  /** The loop body of the annotation filter after the comment test, on the
      fields (chrom, source, type, start, end, score, strand, phase, attributes). */
  function ParseFields(fields: seq<string>): (r: LineOutcome)
    ensures r.Keep? <==>
      && |fields| == 9
      && fields[0] in ChromList
      && ParseInt(fields[3]).Some? && ParseInt(fields[4]).Some?
      && ParseInt(fields[4]).value - ParseInt(fields[3]).value >= MinSpan
      && fields[2] == "gene"
      && exists i: nat :: MatchesAt(fields[8], i)
    ensures r.Reject? <==>
      || |fields| > 9
      || (|fields| == 9 && fields[0] in ChromList &&
          (ParseInt(fields[3]).None? || ParseInt(fields[4]).None?))
    ensures r.Reject? ==>
      r.fault == if |fields| > 9 then TooManyFields else NotAnInteger
    ensures r.Keep? ==>
      && ValidGene(r.gene)
      && r.gene.chrom == "chr" + fields[0]
      && r.gene.start == ParseInt(fields[3]).value
      && r.gene.end == ParseInt(fields[4]).value
      && r.gene.strand == fields[6]
      && Some(r.gene.id) == GeneIdOf(fields[8])
  {
    if |fields| < 9 then Skip
    else if |fields| > 9 then Reject(TooManyFields)
    else
      var chrom, featureType, strand, attributes := fields[0], fields[2], fields[6], fields[8];
      if chrom !in ChromList then Skip
      else
        match (ParseInt(fields[4]), ParseInt(fields[3]))
        case (Some(end), Some(start)) =>
          if end - start >= MinSpan && featureType == "gene" then
            match GeneIdOf(attributes)
            case Some(id) =>
              var chr := "chr" + chrom;
              assert chr[..3] == "chr" && chr[3..] == chrom;
              Keep(Gene(id, strand, chr, start, end))
            case None => Skip
          else Skip
        case _ => Reject(NotAnInteger)
  }

  /** The loop body for one raw line: comments are skipped before the line is
      split, so a line with whitespace before its '#' is split like any other. */
  function ParseLine(line: string): (r: LineOutcome)
    ensures IsComment(line) ==> r == Skip
    ensures !IsComment(line) ==> r == ParseFields(Fields(line))
  {
    if IsComment(line) then Skip else ParseFields(Fields(line))
  }

  /** The outcome of every line, in file order. */
  function Outcomes(lines: seq<string>): (o: seq<LineOutcome>)
    ensures |o| == |lines|
    ensures forall i | 0 <= i < |lines| :: o[i] == ParseLine(lines[i])
  {
    seq(|lines|, i requires 0 <= i < |lines| => ParseLine(lines[i]))
  }

  /** The loop over line outcomes: kept genes are appended in order, and the
      first rejected line (numbered from 0) aborts. */
  function Collect(outcomes: seq<LineOutcome>): (r: Result<seq<Gene>>)
    ensures r.Ok? <==> forall i | 0 <= i < |outcomes| :: !outcomes[i].Reject?
    ensures r.Ok? ==> |r.value| <= |outcomes|
    ensures r.Err? ==>
      && r.error.BadLine? && r.error.line < |outcomes|
      && outcomes[r.error.line] == Reject(r.error.fault)
      && forall i | 0 <= i < r.error.line :: !outcomes[i].Reject?
  {
    if outcomes == [] then Ok([])
    else
      var n := |outcomes| - 1;
      assert forall i | 0 <= i < n :: outcomes[..n][i] == outcomes[i];
      match Collect(outcomes[..n])
      case Err(e) => Err(e)
      case Ok(genes) =>
        match outcomes[n]
        case Skip => Ok(genes)
        case Keep(g) => Ok(genes + [g])
        case Reject(fault) => Err(BadLine(n, fault))
  }

  /** Every collected gene comes from a Keep outcome, in order, and every Keep
      outcome is collected. */
  lemma {:induction false} CollectProvenance(outcomes: seq<LineOutcome>, genes: seq<Gene>)
    returns (idx: seq<nat>)
    requires Collect(outcomes) == Ok(genes)
    ensures |idx| == |genes|
    ensures forall j, k | 0 <= j < k < |idx| :: idx[j] < idx[k]
    ensures forall k | 0 <= k < |idx| :: idx[k] < |outcomes| && outcomes[idx[k]] == Keep(genes[k])
    ensures forall i | 0 <= i < |outcomes| :: outcomes[i].Keep? ==> i in idx
  {
    if outcomes == [] {
      idx := [];
    } else {
      var n := |outcomes| - 1;
      var prefix := outcomes[..n];
      assert forall i | 0 <= i < n :: prefix[i] == outcomes[i];
      var before := Collect(prefix).value;
      var idx' := CollectProvenance(prefix, before);
      match outcomes[n]
      case Keep(g) =>
        assert genes == before + [g];
        idx := idx' + [n];
      case Skip =>
        assert genes == before;
        idx := idx';
    }
  }

  /** The first rejected outcome decides the error. */
  lemma FirstRejectAborts(outcomes: seq<LineOutcome>, i: nat)
    requires i < |outcomes|
    requires Collect(outcomes[..i]).Ok?
    requires outcomes[i].Reject?
    ensures Collect(outcomes) == Err(BadLine(i, outcomes[i].fault))
  {
    assert forall j | 0 <= j < i :: outcomes[..i][j] == outcomes[j];
    var e := Collect(outcomes).error;
    assert e.line == i;
  }

  /** The genes of a whole annotation, lines processed in order; the first
      rejected line (numbered from 0) aborts the parse. */
  function ParseLines(lines: seq<string>): (r: Result<seq<Gene>>)
    ensures r.Ok? <==> forall i | 0 <= i < |lines| :: !ParseLine(lines[i]).Reject?
    ensures r.Ok? ==> |r.value| <= |lines|
    ensures r.Err? ==>
      && r.error.BadLine? && r.error.line < |lines|
      && ParseLine(lines[r.error.line]) == Reject(r.error.fault)
      && forall i | 0 <= i < r.error.line :: !ParseLine(lines[i]).Reject?
  {
    Collect(Outcomes(lines))
  }

  /** The records keep the order of their lines: record k comes from line idx[k],
      the idx are strictly increasing, every other line was skipped, and every
      record is a valid gene. */
  lemma ParseLinesProvenance(lines: seq<string>, genes: seq<Gene>)
    returns (idx: seq<nat>)
    requires ParseLines(lines) == Ok(genes)
    ensures |idx| == |genes|
    ensures forall j, k | 0 <= j < k < |idx| :: idx[j] < idx[k]
    ensures forall k | 0 <= k < |idx| :: idx[k] < |lines| && ParseLine(lines[idx[k]]) == Keep(genes[k])
    ensures forall i | 0 <= i < |lines| :: ParseLine(lines[i]).Keep? ==> i in idx
    ensures forall k | 0 <= k < |genes| :: ValidGene(genes[k])
  {
    idx := CollectProvenance(Outcomes(lines), genes);
  }

  /** One more line that does not raise extends the records by its gene, if any. */
  lemma CollectStep(outcomes: seq<LineOutcome>, i: nat, genes: seq<Gene>)
    requires i < |outcomes|
    requires Collect(outcomes[..i]) == Ok(genes)
    requires !outcomes[i].Reject?
    ensures Collect(outcomes[..i + 1]) == Ok(if outcomes[i].Keep? then genes + [outcomes[i].gene] else genes)
  {
    assert outcomes[..i + 1][..i] == outcomes[..i];
  }

  /** parse_gff: one pass over the lines, appending each kept gene. */
  method ParseGff(lines: seq<string>) returns (r: Result<seq<Gene>>)
    ensures r == ParseLines(lines)
  {
    ghost var outcomes := Outcomes(lines);
    var genes: seq<Gene> := [];
    for i := 0 to |lines|
      invariant Collect(outcomes[..i]) == Ok(genes)
    {
      var outcome := ParseLine(lines[i]);
      assert outcome == outcomes[i];
      if outcome.Reject? {
        FirstRejectAborts(outcomes, i);
        return Err(BadLine(i, outcome.fault));
      }
      CollectStep(outcomes, i, genes);
      if outcome.Keep? {
        genes := genes + [outcome.gene];
      }
    }
    assert outcomes[..|lines|] == outcomes;
    return Ok(genes);
  }
}
