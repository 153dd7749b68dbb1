/** Building one table per sample and merging them.  A sample's table has the
    six gene columns followed by four statistic columns named after the sample.
    The tables are concatenated side by side with an inner join on the row
    position (all of them have one row per gene, in the same order), and every
    column whose name already occurred further left is dropped. */
module Merge {
  import opened Common
  import opened Annotation
  import opened Signal
  import opened Sample

  /** One cell of a table; NA is the missing marker of a suppressed index. */
  datatype Cell = Text(text: string) | Int(n: int) | Num(x: real) | NA

  datatype Column = Column(name: string, cells: seq<Cell>)

  /** A data frame: rows 0 .. height-1 and a sequence of named columns. */
  datatype Table = Table(height: nat, columns: seq<Column>)

  /** Every column has one cell per row. */
  predicate WellFormed(t: Table) {
    forall i | 0 <= i < |t.columns| :: |t.columns[i].cells| == t.height
  }

  function Names(cols: seq<Column>): (names: seq<string>)
    ensures |names| == |cols|
    ensures forall i | 0 <= i < |cols| :: names[i] == cols[i].name
  {
    seq(|cols|, i requires 0 <= i < |cols| => cols[i].name)
  }

  predicate Distinct(names: seq<string>) {
    forall i, j | 0 <= i < j < |names| :: names[i] != names[j]
  }

  /** The gene columns every sample table starts with. */
  const MetadataNames: seq<string> := ["gene_ID", "chrom", "start", "end", "length", "strand"]

  /** Suffixes of the four statistic columns of a sample. */
  const StatSuffixes: seq<string> := ["_mean_rpkm", "_promoter_mean", "_gene_body_mean", "_promoter_index"]

  function StatNames(sample: string): (names: seq<string>)
    ensures |names| == |StatSuffixes|
    ensures forall i | 0 <= i < |StatSuffixes| :: names[i] == sample + StatSuffixes[i]
  {
    seq(|StatSuffixes|, i requires 0 <= i < |StatSuffixes| => sample + StatSuffixes[i])
  }

  /** The cells of one record, in the key order of the record: the six gene
      fields, then the four statistics; a suppressed index is NA. */
  function RowCells(row: Row): (cells: seq<Cell>)
    ensures |cells| == |MetadataNames| + |StatSuffixes|
    ensures cells[|cells| - 1] == NA <==> row.index.None?
  {
    [Text(row.geneId), Text(row.chrom), Int(row.start), Int(row.end), Int(row.length), Text(row.strand),
     Num(row.meanRpkm), Num(row.promoterMean), Num(row.bodyMean),
     match row.index case Some(x) => Num(x) case None => NA]
  }

  /** A record's cells determine the record: nothing is lost when a record
      becomes a table row. */
  lemma RowCellsInjective(a: Row, b: Row)
    requires RowCells(a) == RowCells(b)
    ensures a == b
  {
    assert RowCells(a)[9] == RowCells(b)[9];
  }

  /** Row k of a table, read across its columns. */
  function RowAt(t: Table, k: nat): seq<Cell>
    requires WellFormed(t) && k < t.height
  {
    seq(|t.columns|, i requires 0 <= i < |t.columns| => t.columns[i].cells[k])
  }

  // ------------------------------------------------------------------
  // One sample's table
  // ------------------------------------------------------------------

  /** The data frame of a sample's records: one column per record key, row k
      holding record k.  With no records there are no columns at all. */
  function SampleTable(sample: string, rows: seq<Row>): (t: Table)
    ensures WellFormed(t) && t.height == |rows|
    ensures rows == [] ==> t.columns == []
    ensures rows != [] ==> Names(t.columns) == MetadataNames + StatNames(sample)
  {
    if rows == [] then Table(0, [])
    else
      var names := MetadataNames + StatNames(sample);
      Table(|rows|, seq(|names|, i requires 0 <= i < |names| =>
        Column(names[i], seq(|rows|, k requires 0 <= k < |rows| => RowCells(rows[k])[i]))))
  }

  /** Row k of a sample's table holds record k. */
  lemma SampleTableRows(sample: string, rows: seq<Row>, k: nat)
    requires k < |rows|
    ensures RowAt(SampleTable(sample, rows), k) == RowCells(rows[k])
  {
  }

  // ------------------------------------------------------------------
  // Side-by-side concatenation with an inner join on the row index
  // ------------------------------------------------------------------

  /** The number of columns of all the tables together. */
  function Width(tables: seq<Table>): nat {
    if tables == [] then 0 else Width(tables[..|tables| - 1]) + |tables[|tables| - 1].columns|
  }

  /** All columns of the tables, left to right. */
  function AllColumns(tables: seq<Table>): (cols: seq<Column>)
    ensures |cols| == Width(tables)
  {
    if tables == [] then [] else AllColumns(tables[..|tables| - 1]) + tables[|tables| - 1].columns
  }

  /** The columns of two groups of tables are those of the first group, then
      those of the second. */
  lemma {:induction false} AllColumnsAppend(a: seq<Table>, b: seq<Table>)
    ensures AllColumns(a + b) == AllColumns(a) + AllColumns(b)
    decreases |b|
  {
    if b == [] {
      assert a + b == a;
    } else {
      var n := |b| - 1;
      var ab := a + b;
      assert ab[..|ab| - 1] == a + b[..n];
      assert ab[|ab| - 1] == b[n];
      calc {
        AllColumns(ab);
        AllColumns(a + b[..n]) + b[n].columns;
        { AllColumnsAppend(a, b[..n]); }
        (AllColumns(a) + AllColumns(b[..n])) + b[n].columns;
        { SeqAssoc(AllColumns(a), AllColumns(b[..n]), b[n].columns); }
        AllColumns(a) + (AllColumns(b[..n]) + b[n].columns);
      }
    }
  }

  /** The rows every table has: the intersection of the row indexes. */
  function MinHeight(tables: seq<Table>): (h: nat)
    requires tables != []
    ensures forall i | 0 <= i < |tables| :: h <= tables[i].height
    ensures exists i | 0 <= i < |tables| :: h == tables[i].height
  {
    var n := |tables| - 1;
    if n == 0 then tables[0].height
    else
      var h := MinHeight(tables[..n]);
      assert forall i | 0 <= i < n :: tables[..n][i] == tables[i];
      if tables[n].height < h then tables[n].height else h
  }

  /** Every column of the tables, left to right, cut to its first h cells. */
  function JoinColumns(tables: seq<Table>, h: nat): (cols: seq<Column>)
    requires forall i | 0 <= i < |tables| :: WellFormed(tables[i]) && h <= tables[i].height
    ensures |cols| == |AllColumns(tables)|
    ensures forall j | 0 <= j < |cols| ::
      && cols[j].name == AllColumns(tables)[j].name
      && h <= |AllColumns(tables)[j].cells| && cols[j].cells == AllColumns(tables)[j].cells[..h]
  {
    if tables == [] then []
    else
      var n := |tables| - 1;
      var last := tables[n].columns;
      assert forall i | 0 <= i < n :: tables[..n][i] == tables[i];
      assert WellFormed(tables[n]) && h <= tables[n].height;
      assert forall i | 0 <= i < |last| :: h <= |last[i].cells|;
      JoinColumns(tables[..n], h) +
        seq(|last|, i requires 0 <= i < |last| => Column(last[i].name, last[i].cells[..h]))
  }

  /** The tables side by side, keeping the rows that all of them have;
      concatenating no tables at all is an error. */
  function ConcatInner(tables: seq<Table>): (r: Result<Table>)
    requires forall i | 0 <= i < |tables| :: WellFormed(tables[i])
    ensures r.Err? <==> tables == []
    ensures r.Err? ==> r.error == NoSamples
    ensures r.Ok? ==> WellFormed(r.value) && Names(r.value.columns) == Names(AllColumns(tables))
    ensures r.Ok? ==> forall i | 0 <= i < |tables| :: r.value.height <= tables[i].height
    ensures r.Ok? ==> exists i | 0 <= i < |tables| :: r.value.height == tables[i].height
    ensures r.Ok? ==> |r.value.columns| == |AllColumns(tables)| && forall j | 0 <= j < |r.value.columns| ::
      r.value.height <= |AllColumns(tables)[j].cells| && r.value.columns[j].cells == AllColumns(tables)[j].cells[..r.value.height]
    ensures r.Ok? && (forall i | 0 <= i < |tables| :: tables[i].height == tables[0].height) ==>
      r.value == Table(tables[0].height, AllColumns(tables))
  {
    if tables == [] then Err(NoSamples)
    else
      var h := MinHeight(tables);
      JoinEqualHeights(tables);
      Ok(Table(h, JoinColumns(tables, h)))
  }

  /** When all tables have the same height, the join keeps every column whole. */
  lemma JoinEqualHeights(tables: seq<Table>)
    requires tables != [] && forall i | 0 <= i < |tables| :: WellFormed(tables[i])
    ensures (forall i | 0 <= i < |tables| :: tables[i].height == tables[0].height) ==>
      JoinColumns(tables, MinHeight(tables)) == AllColumns(tables)
  {
    if forall i | 0 <= i < |tables| :: tables[i].height == tables[0].height {
      JoinAllRows(tables, tables[0].height);
    }
  }

  /** Cutting the columns of tables of height h to h rows changes nothing. */
  lemma {:induction false} JoinAllRows(tables: seq<Table>, h: nat)
    requires forall i | 0 <= i < |tables| :: WellFormed(tables[i]) && tables[i].height == h
    ensures JoinColumns(tables, h) == AllColumns(tables)
  {
    if tables != [] {
      var n := |tables| - 1;
      assert forall i | 0 <= i < n :: tables[..n][i] == tables[i];
      JoinAllRows(tables[..n], h);
      var last := tables[n].columns;
      assert WellFormed(tables[n]);
      assert seq(|last|, i requires 0 <= i < |last| => Column(last[i].name, last[i].cells[..h])) == last by {
        forall i | 0 <= i < |last|
          ensures last[i].cells[..h] == last[i].cells
        {
          assert |last[i].cells| == h;
        }
      }
    }
  }

  /** Columns of tables that all have height h have h cells. */
  lemma {:induction false} AllColumnsHeight(tables: seq<Table>, h: nat)
    requires forall i | 0 <= i < |tables| :: WellFormed(tables[i]) && tables[i].height == h
    ensures forall j | 0 <= j < |AllColumns(tables)| :: |AllColumns(tables)[j].cells| == h
  {
    if tables != [] {
      var n := |tables| - 1;
      assert forall i | 0 <= i < n :: tables[..n][i] == tables[i];
      AllColumnsHeight(tables[..n], h);
    }
  }

  // ------------------------------------------------------------------
  // Dropping duplicate column names, keeping the first
  // ------------------------------------------------------------------

  /** The columns whose name does not occur further left. */
  function DropDuplicateColumns(cols: seq<Column>): (r: seq<Column>)
    ensures |r| <= |cols|
    ensures forall k | 0 <= k < |r| :: r[k] in cols
  {
    if cols == [] then []
    else
      var n := |cols| - 1;
      var kept := DropDuplicateColumns(cols[..n]);
      if cols[n].name in Names(cols[..n]) then kept else kept + [cols[n]]
  }

  /** Column i is the first column of its name. */
  predicate FirstOfName(cols: seq<Column>, i: nat)
    requires i < |cols|
  {
    forall j | 0 <= j < i :: cols[j].name != cols[i].name
  }

  /** Dropping duplicates leaves pairwise distinct names and loses no name. */
  lemma {:induction false} DropDuplicateColumnsDistinct(cols: seq<Column>)
    ensures var r := DropDuplicateColumns(cols);
      && Distinct(Names(r))
      && forall name :: name in Names(r) <==> name in Names(cols)
  {
    if cols != [] {
      var n := |cols| - 1;
      DropDuplicateColumnsDistinct(cols[..n]);
      var kept := DropDuplicateColumns(cols[..n]);
      assert Names(cols) == Names(cols[..n]) + [cols[n].name];
      if cols[n].name !in Names(cols[..n]) {
        assert Names(kept + [cols[n]]) == Names(kept) + [cols[n].name];
      }
    }
  }

  /** The kept columns are exactly the first columns of their names, in their
      left-to-right order: kept column k is column idx[k], the idx are strictly
      increasing, and every first column of a name is among them. */
  lemma {:induction false} DropDuplicateColumnsKeepsFirst(cols: seq<Column>) returns (idx: seq<nat>)
    ensures var r := DropDuplicateColumns(cols);
      && |idx| == |r|
      && (forall k | 0 <= k < |idx| :: idx[k] < |cols| && r[k] == cols[idx[k]] && FirstOfName(cols, idx[k]))
      && (forall k1, k2 | 0 <= k1 < k2 < |idx| :: idx[k1] < idx[k2])
      && (forall i | 0 <= i < |cols| && FirstOfName(cols, i) :: i in idx)
  {
    if cols == [] {
      return [];
    }
    var n := |cols| - 1;
    var init := cols[..n];
    var prev := DropDuplicateColumnsKeepsFirst(init);
    var kept := DropDuplicateColumns(init);
    assert forall i | 0 <= i < n :: init[i] == cols[i];
    assert forall i | 0 <= i < n :: FirstOfName(init, i) == FirstOfName(cols, i);
    if cols[n].name in Names(init) {
      var j :| 0 <= j < n && Names(init)[j] == cols[n].name;
      assert !FirstOfName(cols, n) by {
        assert cols[j].name == cols[n].name;
      }
      idx := prev;
    } else {
      assert FirstOfName(cols, n) by {
        forall j | 0 <= j < n
          ensures cols[j].name != cols[n].name
        {
          assert Names(init)[j] == cols[j].name;
        }
      }
      idx := prev + [n];
    }
  }

  lemma NamesAppend(a: seq<Column>, b: seq<Column>)
    ensures Names(a + b) == Names(a) + Names(b)
  {
  }

  /** Appending columns whose names all occur already changes nothing. */
  lemma {:induction false} DropSeenColumns(a: seq<Column>, b: seq<Column>)
    requires forall i | 0 <= i < |b| :: b[i].name in Names(a)
    ensures DropDuplicateColumns(a + b) == DropDuplicateColumns(a)
    decreases |b|
  {
    if b == [] {
      assert a + b == a;
    } else {
      var n := |b| - 1;
      DropSeenColumns(a, b[..n]);
      assert (a + b)[..|a + b| - 1] == a + b[..n];
      NamesAppend(a, b[..n]);
      assert b[n].name in Names(a + b[..n]);
    }
  }

  /** A column with a new name is kept. */
  lemma AppendFreshColumn(cols: seq<Column>, c: Column)
    requires c.name !in Names(cols)
    ensures DropDuplicateColumns(cols + [c]) == DropDuplicateColumns(cols) + [c]
  {
    assert (cols + [c])[..|cols|] == cols;
  }

  /** Appending columns with new, pairwise distinct names keeps all of them. */
  lemma {:induction false} KeepFreshColumns(a: seq<Column>, b: seq<Column>)
    requires Distinct(Names(b))
    requires forall i | 0 <= i < |b| :: b[i].name !in Names(a)
    ensures DropDuplicateColumns(a + b) == DropDuplicateColumns(a) + b
    decreases |b|
  {
    if b == [] {
      assert a + b == a;
    } else {
      var n := |b| - 1;
      var init, last := b[..n], b[n];
      assert forall i | 0 <= i < n :: init[i] == b[i] && Names(init)[i] == Names(b)[i];
      KeepFreshColumns(a, init);
      assert b == init + [last];
      assert a + b == (a + init) + [last];
      NamesAppend(a, init);
      assert last.name !in Names(init);
      AppendFreshColumn(a + init, last);
      calc {
        DropDuplicateColumns(a + b);
        DropDuplicateColumns((a + init) + [last]);
        DropDuplicateColumns(a + init) + [last];
        (DropDuplicateColumns(a) + init) + [last];
        { SeqAssoc(DropDuplicateColumns(a), init, [last]); }
        DropDuplicateColumns(a) + (init + [last]);
        { assert init + [last] == b; }
        DropDuplicateColumns(a) + b;
      }
    }
  }

  // ------------------------------------------------------------------
  // Column names of sample tables never clash across samples
  // ------------------------------------------------------------------

  /** Two strings that are equal agree on their k-th character from the end. */
  lemma SameEnding(x: string, s: string, y: string, t: string, k: nat)
    requires x + s == y + t && 1 <= k <= |s| && k <= |t|
    ensures s[|s| - k] == t[|t| - k]
  {
    assert (x + s)[|x + s| - k] == s[|s| - k];
    assert (y + t)[|y + t| - k] == t[|t| - k];
  }

  /** A statistic column name determines both the sample and the statistic. */
  lemma StatNameInjective(x: string, a: nat, y: string, b: nat)
    requires a < |StatSuffixes| && b < |StatSuffixes|
    requires x + StatSuffixes[a] == y + StatSuffixes[b]
    ensures a == b && x == y
  {
    var s, t := StatSuffixes[a], StatSuffixes[b];
    if a != b {
      if {a, b} == {1, 2} {
        SameEnding(x, s, y, t, 6);
      } else {
        SameEnding(x, s, y, t, 1);
      }
    }
    assert |x| == |y|;
    assert x == (x + s)[..|x|];
    assert y == (y + t)[..|y|];
  }

  /** A statistic column name is never one of the gene column names. */
  lemma StatNameNotMetadata(x: string, a: nat)
    requires a < |StatSuffixes|
    ensures x + StatSuffixes[a] !in MetadataNames
  {
    assert |x + StatSuffixes[a]| >= 10;
  }

  /** The column names of one sample table are pairwise distinct. */
  lemma SampleTableNamesDistinct(sample: string)
    ensures Distinct(MetadataNames + StatNames(sample))
  {
    var names := MetadataNames + StatNames(sample);
    forall i, j | 0 <= i < j < |names|
      ensures names[i] != names[j]
    {
      if j >= |MetadataNames| {
        var b := j - |MetadataNames|;
        if i < |MetadataNames| {
          StatNameNotMetadata(sample, b);
        } else {
          var a := i - |MetadataNames|;
          if names[i] == names[j] {
            StatNameInjective(sample, a, sample, b);
          }
        }
      }
    }
  }

  /** Tables shaped like the sample tables of the given, distinct sample names. */
  predicate SampleShaped(frames: seq<Table>, samples: seq<string>) {
    && |frames| == |samples|
    && (forall i | 0 <= i < |frames| :: Names(frames[i].columns) == MetadataNames + StatNames(samples[i]))
    && (forall i, j | 0 <= i < j < |samples| :: samples[i] != samples[j])
  }

  /** Every name among the columns of sample-shaped tables is a gene column or a
      statistic column of one of the samples; the gene columns are all there. */
  lemma {:induction false} AllColumnsNames(frames: seq<Table>, samples: seq<string>)
    requires SampleShaped(frames, samples)
    ensures forall name | name in Names(AllColumns(frames)) ::
      name in MetadataNames || exists j, a | 0 <= j < |samples| && 0 <= a < |StatSuffixes| ::
        name == samples[j] + StatSuffixes[a]
    ensures frames != [] ==> forall name | name in MetadataNames :: name in Names(AllColumns(frames))
  {
    if frames != [] {
      var n := |frames| - 1;
      assert SampleShaped(frames[..n], samples[..n]);
      AllColumnsNames(frames[..n], samples[..n]);
      NamesAppend(AllColumns(frames[..n]), frames[n].columns);
      var last := Names(frames[n].columns);
      forall name | name in Names(AllColumns(frames))
        ensures name in MetadataNames || exists j, a | 0 <= j < |samples| && 0 <= a < |StatSuffixes| ::
          name == samples[j] + StatSuffixes[a]
      {
        if name in last && name !in MetadataNames {
          var i :| 0 <= i < |last| && last[i] == name;
          assert name == samples[n] + StatSuffixes[i - |MetadataNames|];
        } else if name !in last {
          assert name in Names(AllColumns(frames[..n]));
        }
      }
    }
  }

  /** Drop the leading gene columns of a sample table. */
  function StatPart(cols: seq<Column>): seq<Column> {
    if |cols| <= |MetadataNames| then [] else cols[|MetadataNames|..]
  }

  /** The columns left after merging: the first table whole, then the statistic
      columns of every further table, in sample order. */
  function MergedLayout(frames: seq<Table>): seq<Column> {
    if |frames| <= 1 then AllColumns(frames)
    else MergedLayout(frames[..|frames| - 1]) + StatPart(frames[|frames| - 1].columns)
  }

  /** Merging sample tables of distinct samples keeps the first table's gene
      columns once and every sample's statistic columns, in order. */
  lemma {:induction false} MergeKeepsLayout(frames: seq<Table>, samples: seq<string>)
    requires frames != [] && SampleShaped(frames, samples)
    ensures DropDuplicateColumns(AllColumns(frames)) == MergedLayout(frames)
  {
    var n := |frames| - 1;
    var cols := frames[n].columns;
    if n == 0 {
      assert AllColumns(frames) == cols;
      SampleTableNamesDistinct(samples[0]);
      KeepFreshColumns([], cols);
      assert [] + cols == cols;
    } else {
      var prefix := AllColumns(frames[..n]);
      assert SampleShaped(frames[..n], samples[..n]);
      MergeKeepsLayout(frames[..n], samples[..n]);
      AllColumnsNames(frames[..n], samples[..n]);
      MergeOneMoreSample(prefix, cols, samples[..n], samples[n]);
      assert AllColumns(frames) == prefix + cols;
    }
  }

  /** Merging one more sample table adds exactly its statistic columns. */
  lemma MergeOneMoreSample(prefix: seq<Column>, cols: seq<Column>, earlier: seq<string>, sample: string)
    requires forall name | name in Names(prefix) ::
      name in MetadataNames || exists j, a | 0 <= j < |earlier| && 0 <= a < |StatSuffixes| ::
        name == earlier[j] + StatSuffixes[a]
    requires forall name | name in MetadataNames :: name in Names(prefix)
    requires sample !in earlier
    requires Names(cols) == MetadataNames + StatNames(sample)
    ensures DropDuplicateColumns(prefix + cols) == DropDuplicateColumns(prefix) + StatPart(cols)
  {
    SampleColumnsSplit(cols, sample);
    var meta, stats := cols[..|MetadataNames|], StatPart(cols);
    assert prefix + cols == (prefix + meta) + stats;
    DropSeenColumns(prefix, meta);
    StatColumnsFresh(prefix, meta, stats, earlier, sample);
    KeepFreshColumns(prefix + meta, stats);
  }

  /** A sample table's columns are its gene columns followed by its statistic
      columns, whose names are distinct. */
  lemma SampleColumnsSplit(cols: seq<Column>, sample: string)
    requires Names(cols) == MetadataNames + StatNames(sample)
    ensures |MetadataNames| <= |cols| && cols == cols[..|MetadataNames|] + StatPart(cols)
    ensures Names(cols[..|MetadataNames|]) == MetadataNames
    ensures Names(StatPart(cols)) == StatNames(sample)
    ensures Distinct(Names(StatPart(cols)))
  {
    assert |cols| == |MetadataNames| + |StatSuffixes|;
    assert cols == cols[..|MetadataNames|] + StatPart(cols);
    StatPartNames(cols, sample);
    assert Distinct(StatNames(sample)) by {
      SampleTableNamesDistinct(sample);
      assert forall i | 0 <= i < |StatSuffixes| :: StatNames(sample)[i] == (MetadataNames + StatNames(sample))[|MetadataNames| + i];
    }
  }

  /** The statistic columns of a new sample clash with no earlier column: not
      with a gene column, and not with another sample's statistic column. */
  lemma StatColumnsFresh(prefix: seq<Column>, meta: seq<Column>, stats: seq<Column>, earlier: seq<string>, sample: string)
    requires forall name | name in Names(prefix) ::
      name in MetadataNames || exists j, a | 0 <= j < |earlier| && 0 <= a < |StatSuffixes| ::
        name == earlier[j] + StatSuffixes[a]
    requires sample !in earlier
    requires Names(meta) == MetadataNames
    requires Names(stats) == StatNames(sample)
    ensures forall i | 0 <= i < |stats| :: stats[i].name !in Names(prefix + meta)
  {
    NamesAppend(prefix, meta);
    forall i | 0 <= i < |stats|
      ensures stats[i].name !in Names(prefix + meta)
    {
      var name := stats[i].name;
      assert name == Names(stats)[i] == sample + StatSuffixes[i];
      StatNameNotMetadata(sample, i);
      if name in Names(prefix) {
        var j, a :| 0 <= j < |earlier| && 0 <= a < |StatSuffixes| && name == earlier[j] + StatSuffixes[a];
        StatNameInjective(sample, i, earlier[j], a);
      }
    }
  }

  /** The statistic column names of the samples, in sample order. */
  function AllStatNames(samples: seq<string>): seq<string> {
    if samples == [] then [] else AllStatNames(samples[..|samples| - 1]) + StatNames(samples[|samples| - 1])
  }

  /** The names of the merged layout: the gene columns, then the statistic
      columns of every sample in order. */
  lemma {:induction false} MergedLayoutNames(frames: seq<Table>, samples: seq<string>)
    requires frames != [] && SampleShaped(frames, samples)
    ensures Names(MergedLayout(frames)) == MetadataNames + AllStatNames(samples)
  {
    var n := |frames| - 1;
    if n == 0 {
      assert MergedLayout(frames) == AllColumns(frames) == AllColumns([]) + frames[0].columns;
      assert AllStatNames(samples) == AllStatNames([]) + StatNames(samples[0]);
    } else {
      assert SampleShaped(frames[..n], samples[..n]);
      MergedLayoutNames(frames[..n], samples[..n]);
      var cols := frames[n].columns;
      StatPartNames(cols, samples[n]);
      assert MergedLayout(frames) == MergedLayout(frames[..n]) + StatPart(cols);
      NamesAppend(MergedLayout(frames[..n]), StatPart(cols));
      assert AllStatNames(samples) == AllStatNames(samples[..n]) + StatNames(samples[n]);
      calc {
        Names(MergedLayout(frames));
        Names(MergedLayout(frames[..n])) + Names(StatPart(cols));
        (MetadataNames + AllStatNames(samples[..n])) + StatNames(samples[n]);
        { SeqAssoc(MetadataNames, AllStatNames(samples[..n]), StatNames(samples[n])); }
        MetadataNames + (AllStatNames(samples[..n]) + StatNames(samples[n]));
      }
    }
  }

  lemma SeqAssoc<T>(a: seq<T>, b: seq<T>, c: seq<T>)
    ensures (a + b) + c == a + (b + c)
  {
  }

  lemma StatPartNames(cols: seq<Column>, sample: string)
    requires Names(cols) == MetadataNames + StatNames(sample)
    ensures Names(StatPart(cols)) == StatNames(sample)
  {
    assert |cols| == |MetadataNames| + |StatSuffixes|;
    assert forall i | 0 <= i < |StatSuffixes| :: StatPart(cols)[i].name == Names(cols)[|MetadataNames| + i];
  }

  /** The merged layout starts with the whole first table. */
  lemma {:induction false} MergedLayoutStartsWithFirst(frames: seq<Table>)
    requires frames != []
    ensures |frames[0].columns| <= |MergedLayout(frames)|
    ensures MergedLayout(frames)[..|frames[0].columns|] == frames[0].columns
  {
    var n := |frames| - 1;
    if n == 0 {
      assert MergedLayout(frames) == AllColumns(frames) == AllColumns([]) + frames[0].columns;
    } else {
      MergedLayoutStartsWithFirst(frames[..n]);
      assert frames[..n][0] == frames[0];
      assert MergedLayout(frames) == MergedLayout(frames[..n]) + StatPart(frames[n].columns);
    }
  }

  // ------------------------------------------------------------------
  // All samples: load, concatenate, drop duplicate columns
  // ------------------------------------------------------------------

  /** A named signal track: one entry of the sample name to track mapping. */
  datatype SampleSource = SampleSource(name: string, track: Track)

  /** The names of the samples, in order. */
  function SampleNames(samples: seq<SampleSource>): seq<string> {
    seq(|samples|, i requires 0 <= i < |samples| => samples[i].name)
  }

  /** The sample pass of one sample, as a function of the sample. */
  function SampleRowsOf(genes: seq<Gene>, threshold: real): SampleSource -> Result<seq<Row>> {
    (s: SampleSource) => SampleRows(genes, s.track, threshold)
  }

  /** The records of every sample, in order; the first sample that fails aborts. */
  function SampleResults(samples: seq<SampleSource>, genes: seq<Gene>, threshold: real): (r: Result<seq<seq<Row>>>)
    ensures r.Ok? <==> forall i | 0 <= i < |samples| :: SampleRows(genes, samples[i].track, threshold).Ok?
    ensures r.Ok? ==> |r.value| == |samples| && forall i | 0 <= i < |samples| ::
      SampleRows(genes, samples[i].track, threshold) == Ok(r.value[i])
    ensures r.Err? ==> exists i | 0 <= i < |samples| ::
      && SampleRows(genes, samples[i].track, threshold) == Err(r.error)
      && forall j | 0 <= j < i :: SampleRows(genes, samples[j].track, threshold).Ok?
  {
    MapResults(samples, SampleRowsOf(genes, threshold))
  }

  /** The data frame of every sample, in order. */
  function Frames(samples: seq<SampleSource>, results: seq<seq<Row>>): (frames: seq<Table>)
    requires |results| == |samples|
    ensures |frames| == |samples|
    ensures forall i | 0 <= i < |samples| :: frames[i] == SampleTable(samples[i].name, results[i])
  {
    seq(|samples|, i requires 0 <= i < |samples| => SampleTable(samples[i].name, results[i]))
  }

  /** The merged table of all samples for one antibody. */
  function MergedTable(samples: seq<SampleSource>, genes: seq<Gene>, antibody: string): (r: Result<Table>)
    ensures samples == [] ==> r == Err(NoSamples)
    ensures r.Ok? <==> (samples != [] &&
      forall i | 0 <= i < |samples| :: SampleRows(genes, samples[i].track, Threshold(antibody)).Ok?)
    ensures r.Err? && samples != [] ==> exists i | 0 <= i < |samples| ::
      && SampleRows(genes, samples[i].track, Threshold(antibody)) == Err(r.error)
      && forall j | 0 <= j < i :: SampleRows(genes, samples[j].track, Threshold(antibody)).Ok?
    ensures r.Ok? ==> WellFormed(r.value) && r.value.height == |genes|
    ensures r.Ok? && genes == [] ==> r.value.columns == []
  {
    match SampleResults(samples, genes, Threshold(antibody))
    case Err(e) => Err(e)
    case Ok(results) =>
      var frames := Frames(samples, results);
      assert forall i | 0 <= i < |frames| :: frames[i].height == |genes| && WellFormed(frames[i]);
      match ConcatInner(frames)
      case Err(e) => Err(e)
      case Ok(joined) =>
        assert joined == Table(|genes|, AllColumns(frames));
        assert genes == [] ==> AllColumns(frames) == [] by {
          if genes == [] { AllColumnsOfEmptyTables(frames); }
        }
        Ok(Table(joined.height, DropDuplicateColumns(joined.columns)))
  }

  lemma {:induction false} AllColumnsOfEmptyTables(frames: seq<Table>)
    requires forall i | 0 <= i < |frames| :: frames[i].columns == []
    ensures AllColumns(frames) == []
  {
    if frames != [] {
      var n := |frames| - 1;
      assert forall i | 0 <= i < n :: frames[..n][i] == frames[i];
      AllColumnsOfEmptyTables(frames[..n]);
    }
  }

  /** The merged table is the sample tables side by side, all rows kept, with
      duplicate column names dropped. */
  lemma MergedTableOfFrames(samples: seq<SampleSource>, genes: seq<Gene>, antibody: string)
    requires MergedTable(samples, genes, antibody).Ok?
    ensures SampleResults(samples, genes, Threshold(antibody)).Ok?
    ensures var frames := Frames(samples, SampleResults(samples, genes, Threshold(antibody)).value);
      MergedTable(samples, genes, antibody).value == Table(|genes|, DropDuplicateColumns(AllColumns(frames)))
  {
    var frames := Frames(samples, SampleResults(samples, genes, Threshold(antibody)).value);
    assert forall i | 0 <= i < |frames| :: frames[i].height == |genes|;
  }

  /** With at least one gene and distinct sample names, the merged table has each
      gene column exactly once (taken from the first sample), then the four
      statistic columns of every sample, in sample order. */
  lemma MergedTableColumns(samples: seq<SampleSource>, genes: seq<Gene>, antibody: string)
    requires genes != []
    requires forall i, j | 0 <= i < j < |samples| :: samples[i].name != samples[j].name
    requires MergedTable(samples, genes, antibody).Ok?
    ensures var t := MergedTable(samples, genes, antibody).value;
      var frames := Frames(samples, SampleResults(samples, genes, Threshold(antibody)).value);
      && t.columns == MergedLayout(frames)
      && Names(t.columns) == MetadataNames + AllStatNames(SampleNames(samples))
      && Distinct(Names(t.columns))
  {
    var threshold := Threshold(antibody);
    MergedTableOfFrames(samples, genes, antibody);
    var results := SampleResults(samples, genes, threshold).value;
    var frames := Frames(samples, results);
    var names := SampleNames(samples);
    forall i | 0 <= i < |frames|
      ensures Names(frames[i].columns) == MetadataNames + StatNames(names[i])
    {
      assert frames[i] == SampleTable(samples[i].name, results[i]);
    }
    assert SampleShaped(frames, names);
    MergeKeepsLayout(frames, names);
    MergedLayoutNames(frames, names);
    DropDuplicateColumnsDistinct(AllColumns(frames));
  }

  /** The gene columns of a gene's row. */
  function GeneCells(g: Gene): seq<Cell> {
    [Text(g.id), Text(g.chrom), Int(g.start), Int(g.end), Int(g.end - g.start), Text(g.strand)]
  }

  /** Row k of the merged table starts with the gene columns of gene k: the
      rows of every sample are aligned by position, in annotation order. */
  lemma MergedRowsFollowGenes(samples: seq<SampleSource>, genes: seq<Gene>, antibody: string, k: nat)
    requires k < |genes|
    requires forall i, j | 0 <= i < j < |samples| :: samples[i].name != samples[j].name
    requires MergedTable(samples, genes, antibody).Ok?
    ensures var t := MergedTable(samples, genes, antibody).value;
      |MetadataNames| <= |t.columns| && RowAt(t, k)[..|MetadataNames|] == GeneCells(genes[k])
  {
    var threshold := Threshold(antibody);
    var t := MergedTable(samples, genes, antibody).value;
    MergedTableColumns(samples, genes, antibody);
    var results := SampleResults(samples, genes, threshold).value;
    var frames := Frames(samples, results);
    MergedLayoutStartsWithFirst(frames);
    assert samples != [];
    var rows := results[0];
    assert frames[0] == SampleTable(samples[0].name, rows);
    LeadingColumnsRows(t, frames[0], k);
    SampleTableRows(samples[0].name, rows, k);
    assert GeneRow(genes[k], samples[0].track, threshold) == Ok(rows[k]);
    RowOfGene(RowAt(t, k), rows[k], genes[k]);
  }

  /** Cells that start with a record of gene g start with g's gene columns. */
  lemma RowOfGene(cells: seq<Cell>, row: Row, g: Gene)
    requires |RowCells(row)| <= |cells| && cells[..|RowCells(row)|] == RowCells(row)
    requires row.geneId == g.id && row.chrom == g.chrom && row.strand == g.strand
    requires row.start == g.start && row.end == g.end && row.length == g.end - g.start
    ensures |MetadataNames| <= |cells| && cells[..|MetadataNames|] == GeneCells(g)
  {
    assert cells[..|MetadataNames|] == cells[..|RowCells(row)|][..|MetadataNames|];
  }

  /** A table whose columns start with those of another table of the same
      height starts every row with that table's row. */
  lemma LeadingColumnsRows(t: Table, f: Table, k: nat)
    requires WellFormed(t) && WellFormed(f) && k < t.height == f.height
    requires |f.columns| <= |t.columns| && t.columns[..|f.columns|] == f.columns
    ensures RowAt(t, k)[..|f.columns|] == RowAt(f, k)
  {
    forall i | 0 <= i < |f.columns|
      ensures RowAt(t, k)[i] == RowAt(f, k)[i]
    {
      assert t.columns[i] == f.columns[i];
    }
  }

  /** load_and_merge_bw_data without the file output: pick the threshold, load
      every sample's table in order, concatenate and drop duplicate columns.
      The samples come from a mapping, so their names are distinct. */
  method LoadAndMerge(samples: seq<SampleSource>, genes: seq<Gene>, antibody: string) returns (r: Result<Table>)
    requires forall i, j | 0 <= i < j < |samples| :: samples[i].name != samples[j].name
    ensures r == MergedTable(samples, genes, antibody)
  {
    var threshold := Threshold(antibody);
    var results: seq<seq<Row>> := [];
    var frames: seq<Table> := [];
    for i := 0 to |samples|
      invariant MapResults(samples[..i], SampleRowsOf(genes, threshold)) == Ok(results)
      invariant frames == Frames(samples[..i], results)
    {
      var rows := LoadSample(samples[i].track, genes, threshold);
      if rows.Err? {
        FirstErrorAborts(samples, SampleRowsOf(genes, threshold), i);
        return Err(rows.error);
      }
      MapResultsStep(samples, SampleRowsOf(genes, threshold), i, results);
      FramesStep(samples, i, results, rows.value);
      results := results + [rows.value];
      frames := frames + [SampleTable(samples[i].name, rows.value)];
    }
    assert samples[..|samples|] == samples;
    assert SampleResults(samples, genes, threshold) == Ok(results);
    assert forall k | 0 <= k < |frames| :: WellFormed(frames[k]) && frames[k].height == |genes|;
    var joined := ConcatInner(frames);
    if joined.Err? {
      return Err(joined.error);
    }
    r := Ok(Table(joined.value.height, DropDuplicateColumns(joined.value.columns)));
  }

  /** Loading one more sample appends its data frame. */
  lemma FramesStep(samples: seq<SampleSource>, i: nat, results: seq<seq<Row>>, rows: seq<Row>)
    requires i < |samples| && |results| == i
    ensures Frames(samples[..i + 1], results + [rows]) ==
      Frames(samples[..i], results) + [SampleTable(samples[i].name, rows)]
  {
    var lhs := Frames(samples[..i + 1], results + [rows]);
    var rhs := Frames(samples[..i], results) + [SampleTable(samples[i].name, rows)];
    assert forall k | 0 <= k < i :: samples[..i + 1][k] == samples[..i][k] && (results + [rows])[k] == results[k];
    assert lhs[i] == rhs[i];
  }
}
