# Pausing index of RNA polymerase II, modelled in Dafny

This project models the computation core of `calculate_pausing_index.py`. The
script reads a GFF3 annotation of *Drosophila melanogaster* and keeps the genes
that meet all of these conditions:

- the gene lies on a major chromosome;
- it spans at least 10 bp;
- it carries an `ID=gene:` attribute.

For every gene, and for every sample's signal track (a bigWig file), it then
computes:

- the mean signal over the *across* window, which is the gene extended 250 bp
  upstream of its transcription start site (TSS);
- for genes longer than 800 bp, the mean over a 500 bp promoter window centred
  on the TSS and the mean over the gene body, from TSS+250 to the transcription
  end site;
- the *pausing index*, which is the promoter mean divided by the gene-body
  mean. A zero body mean is replaced by 1e-9.

The index is suppressed (NaN) when the across mean is below a binding
threshold: 500 for the SPT5 antibody, 0 otherwise. Each sample gives one
table. The per-sample tables are concatenated side by side, and every column
whose name already appeared further left is dropped.

Modules, one per stage:

- `Common` holds `Option`, `Result` and the error kinds. Each error kind is an
  exception that aborts the run.
- `Annotation` models `parse_gff`:
  - `line.startswith("#")`;
  - `strip()` and `split('\t')`;
  - the nine-field unpacking;
  - `int()`;
  - the regular expression `ID=gene:([^;]+)`;
  - the loop that appends records.
- `Windows` holds the strand arithmetic of the across, promoter and gene-body
  windows, including the `min`/`max` re-ordering.
- `Signal` models a track as a total function from (chromosome, position) to an
  optional value. A missing value is a NaN, which `nan_to_num` turns into 0. It
  also holds window sums and means.
- `Pausing` models `get_rpkm_between_tss_tes` and `get_rpkm_promoter_and_body`.
- `Sample` models `load_bw_data` and the threshold choice.
- `Merge` holds the data frames, `pd.concat(..., axis=1, join="inner")`,
  `columns.duplicated()`, and `load_and_merge_bw_data` without its file output.

Each loop of the source is a method (`ParseGff`, `LoadSample`, `LoadAndMerge`).
Each method is proved equal to a pure function that describes it (`ParseLines`,
`SampleRows`, `MergedTable`). Those functions are built on two recursive folds:
`Annotation.Collect` over the line outcomes and `Common.MapResults` over the
genes and the samples. The properties are proved about these functions.

Three facts about the code are worth stating, because a reader of
`load_and_merge_bw_data` or `parse_gff` might expect otherwise:

- **Merge:** the data frames are joined on row position, not on `gene_ID`
  (src/calculate_pausing_index.py:157-160). `pd.DataFrame` gives each table
  the default positional row index, and `pd.concat(..., axis=1, join="inner")`
  aligns on that index. Every sample is computed from the same gene list in the
  same order, so row k of every table is gene k (`Merge.MergedRowsFollowGenes`).
- **Malformed lines:** only lines with fewer than nine fields are skipped
  (src/calculate_pausing_index.py:19-26). A line with more than nine fields
  makes the tuple unpacking raise, and so does a start or end field that
  `int()` rejects on an allowed chromosome. Either aborts the parse
  (`Annotation.ParseFields`, `Annotation.ParseLines`).
- **Short genes:** a gene of at most 800 bp gets promoter statistics of 0, but
  the threshold gate still applies to it (src/calculate_pausing_index.py:110-127).
  So its index is NaN when its across mean is below the threshold
  (`Sample.ShortGeneStates`).

## Model

| member | source | states |
|---|---|---|
| Common.MapResults | src/calculate_pausing_index.py:121-139 | the loop that appends one result per element succeeds exactly when every element succeeds, and then holds each element's result in order; otherwise it fails with the error of the first failing element |
| Common.FirstErrorAborts | src/calculate_pausing_index.py:121-123 | the first element that fails decides the error of the loop |
| Common.MapResultsStep | src/calculate_pausing_index.py:129-139 | an element that succeeds appends its result |
| Annotation.ParseInt | src/calculate_pausing_index.py:26 | `int()` of a field: an optional sign and decimal digits give their value; anything else is not an integer (see `Annotation.ParseIntRoundTrip`) |
| Annotation.ParseIntRoundTrip | src/calculate_pausing_index.py:35-36 | every integer written in decimal is read back as the same integer |
| Annotation.Strip | src/calculate_pausing_index.py:18 | `strip()` is empty exactly when the line is all whitespace; otherwise it is the slice after the leading whitespace, followed in the line only by whitespace, with no whitespace at either end |
| Annotation.LeadingSpace | src/calculate_pausing_index.py:18 | counts the whitespace the line starts with: every counted character is whitespace and the next one is not |
| Annotation.TrailingSpace | src/calculate_pausing_index.py:18 | counts the whitespace the line ends with: every counted character is whitespace and the one before is not |
| Annotation.SplitTabs | src/calculate_pausing_index.py:18 | `split('\t')` yields at least one field and no field contains a tab |
| Annotation.JoinSplitTabs | src/calculate_pausing_index.py:18 | joining the fields of a split with tabs gives the text back |
| Annotation.SplitJoinTabs | src/calculate_pausing_index.py:18 | splitting tab-joined, tab-free fields gives the same fields |
| Annotation.SplitTabsPrefix | src/calculate_pausing_index.py:18 | a tab-free piece before a tab becomes exactly one field |
| Annotation.RunLength | src/calculate_pausing_index.py:27 | the greedy `[^;]+` run is maximal: it contains no `;` and stops at a `;` or at the end |
| Annotation.FirstMatch | src/calculate_pausing_index.py:27 | `re.search` finds the leftmost position where `ID=gene:` is followed by a non-`;` character, or reports that there is none |
| Annotation.Capture | src/calculate_pausing_index.py:27-29 | `group(1)` is the text right after `ID=gene:`; it is non-empty, free of `;`, and followed by `;` or the end of the field |
| Annotation.GeneIdOf | src/calculate_pausing_index.py:27-29 | the id is absent exactly when the pattern matches nowhere; otherwise it is the capture of the leftmost match |
| Annotation.ParseFields | src/calculate_pausing_index.py:19-38 | the record is kept exactly when there are 9 fields, the chromosome is allowed, both ints parse, end-start >= 10, the type is `gene` and the id pattern matches; fewer than 9 fields are skipped; more than 9 fields, or a bad int on an allowed chromosome, raise; the kept record has `chr`+chrom, the parsed start/end, the strand and the captured id, and satisfies ValidGene |
| Annotation.ParseLine | src/calculate_pausing_index.py:15-18 | a line starting with `#` is skipped before it is split; any other line is stripped, split on tabs and handled as its fields |
| Annotation.Collect | src/calculate_pausing_index.py:13-38 | the loop over lines succeeds exactly when no line raises; otherwise the error names the first raising line and its fault |
| Annotation.CollectProvenance | src/calculate_pausing_index.py:13-38 | the records are the kept lines' genes, in line order, and every kept line contributes one record |
| Annotation.FirstRejectAborts | src/calculate_pausing_index.py:22-26 | the first line that raises decides the error of the whole parse |
| Annotation.CollectStep | src/calculate_pausing_index.py:13-38 | a line that does not raise appends its gene if it is kept, and nothing otherwise |
| Annotation.ParseLines | src/calculate_pausing_index.py:10-41 | `parse_gff` succeeds exactly when no line raises, returns at most one record per line, and otherwise reports the first raising line |
| Annotation.ParseLinesProvenance | src/calculate_pausing_index.py:13-38 | record k comes from line idx[k]; the idx are strictly increasing; every kept line is among them; every record is a valid gene |
| Annotation.ParseGff | src/calculate_pausing_index.py:10-41 | the loop returns what `ParseLines` specifies |
| Windows.Ordered | src/calculate_pausing_index.py:66 | `min`/`max` yield the same two bounds, in order |
| Windows.AcrossWindow | src/calculate_pausing_index.py:55-66 | "+" and "-" give an ordered window; any other strand raises InvalidStrand |
| Windows.AcrossWindowOfGene | src/calculate_pausing_index.py:55-66 | for start <= end: no swap happens, the window starts 250 bp before the TSS on "+" and ends 250 bp after it on "-", it covers the gene, and its length is the span plus 250 |
| Windows.PromoterBodyWindows | src/calculate_pausing_index.py:78-96 | a gene of at most 800 bp gets no windows whatever its strand; a longer gene gets a 500 bp promoter centred on the TSS and a non-empty body adjacent to it toward the TES; any other strand raises |
| Windows.PromoterAndBodyTileAcross | src/calculate_pausing_index.py:55-94 | the promoter and body windows partition the across window: promoter then body on "+", body then promoter on "-" |
| Signal.WindowMean | src/calculate_pausing_index.py:67-70 | the mean exists exactly when the window is non-empty, and then mean × length = the zero-filled sum |
| Signal.SignalSumOfValues | src/calculate_pausing_index.py:67-70 | the window sum (`SignalSum`, summed position by position) equals `sum(np.nan_to_num(data))` of the list the reader returns for the window, one value per position and each NaN counted as 0 |
| Signal.SumSplit | src/calculate_pausing_index.py:67-70 | sums over adjacent ranges add up |
| Signal.SumOfConstant | src/calculate_pausing_index.py:67-70 | over a constant range, the sum is the constant times the length |
| Signal.MeanOfConstant | src/calculate_pausing_index.py:67-70 | the mean of a window where the track is constantly c is c |
| Signal.SumAtLeast | src/calculate_pausing_index.py:67-70 | a lower bound on every value bounds the sum from below |
| Signal.SumAtMost | src/calculate_pausing_index.py:67-70 | an upper bound on every value bounds the sum from above |
| Signal.MeanBetween | src/calculate_pausing_index.py:67-70 | the mean lies between any lower and upper bound of the window's values |
| Pausing.MeanAcross | src/calculate_pausing_index.py:53-72 | an invalid strand raises InvalidStrand; otherwise, for start <= end, mean × (span+250) is the sum over [start-250, end) on "+" and [start, end+250) on "-" |
| Pausing.PausingRatio | src/calculate_pausing_index.py:106-109 | with a non-zero body mean, index × body mean = promoter mean; with a zero body mean, index = promoter mean × 1e9 |
| Pausing.PromoterAndBody | src/calculate_pausing_index.py:75-116 | a gene of at most 800 bp gets (0, 0, 0); a longer gene succeeds exactly when its strand is valid, and then its promoter and body means are the sums over the strand's windows divided by 500 and by span-250, and its index is their ratio |
| Pausing.ZeroBodyMeanIndex | src/calculate_pausing_index.py:106-109 | a zero body mean gives promoter mean / 1e-9, not a failure |
| Pausing.AcrossIsWeightedMean | src/calculate_pausing_index.py:67-104 | for a long gene, the across mean is the length-weighted average of the promoter and body means |
| Pausing.ConstantTrackStats | src/calculate_pausing_index.py:53-116 | on a track constantly c around a long gene, all three means are c and the index is 1 (0 when c is 0) |
| Pausing.StrandSymmetryUnderUniformSignal | src/calculate_pausing_index.py:55-94 | under a uniform signal, "+" and "-" give the same statistics |
| Pausing.UniformTrackExample | src/calculate_pausing_index.py:75-116 | gene 1000..3000 on a track of 2.0 everywhere gives promoter mean = body mean = 2.0 and index 1.0, on both strands |
| Sample.Threshold | src/calculate_pausing_index.py:153 | the threshold is 500 exactly for SPT5 and 0 for every other antibody |
| Sample.GeneRow | src/calculate_pausing_index.py:121-139 | the record carries the gene's fields, length = end-start, and the ungated means; the index is missing exactly when the across mean is below the threshold, and is the computed index otherwise |
| Sample.GeneRowOfParsedGene | src/calculate_pausing_index.py:55-96 | with a reader that accepts every window, a gene of at least 10 bp is processed without error exactly when its strand is "+" or "-"; otherwise the error is InvalidStrand |
| Sample.ShortGeneStates | src/calculate_pausing_index.py:110-127 | a gene of at most 800 bp has promoter and body means 0, and its index is 0 or missing according to the gate |
| Sample.NonNegativeTrackNeverGated | src/calculate_pausing_index.py:125-127 | with the threshold of any antibody other than SPT5, a non-negative track never has an index suppressed |
| Sample.SampleRows | src/calculate_pausing_index.py:118-141 | one record per gene, in gene order, each being that gene's record; the first failing gene aborts with its error |
| Sample.ParsedGenesLoad | src/calculate_pausing_index.py:45-123 | with a reader that accepts every window, every parsed gene list whose strands are all "+" or "-" is processed without error |
| Sample.LoadSample | src/calculate_pausing_index.py:118-141 | the loop returns what `SampleRows` specifies |
| Merge.RowCells | src/calculate_pausing_index.py:129-139 | a record has ten cells in the key order of the dict, and the last (the index) is NA exactly when the index was suppressed |
| Merge.RowCellsInjective | src/calculate_pausing_index.py:129-139 | two records with the same cells are the same record: a record loses nothing when it becomes a table row |
| Merge.SampleTable | src/calculate_pausing_index.py:157 | the data frame of the records is well formed with one row per record; no records give no columns; otherwise the columns are the six gene columns then the four statistic columns named after the sample |
| Merge.SampleTableRows | src/calculate_pausing_index.py:157 | row k of a sample's data frame holds record k, with NA for a suppressed index |
| Merge.AllColumns | src/calculate_pausing_index.py:160 | the concatenation has as many columns as all the tables together |
| Merge.AllColumnsAppend | src/calculate_pausing_index.py:160 | the columns of two groups of tables are those of the first group followed by those of the second |
| Merge.MinHeight | src/calculate_pausing_index.py:160 | the inner join keeps the rows common to all tables: the smallest height |
| Merge.JoinColumns | src/calculate_pausing_index.py:160 | every column of every table, left to right, cut to the common rows |
| Merge.ConcatInner | src/calculate_pausing_index.py:160 | concatenating no tables raises; otherwise the height is the smallest input height (the rows every table has), and column j is column j of the side-by-side tables, with the same name, cut to those rows; when all heights agree the result is the side-by-side tables |
| Merge.JoinEqualHeights | src/calculate_pausing_index.py:160 | when all tables have the same height, the join keeps every column whole |
| Merge.JoinAllRows | src/calculate_pausing_index.py:160 | cutting the columns of tables of height h to h rows changes nothing |
| Merge.AllColumnsHeight | src/calculate_pausing_index.py:160 | columns of tables that all have height h have h cells |
| Merge.DropDuplicateColumns | src/calculate_pausing_index.py:161 | `.loc[:, ~columns.duplicated()]` keeps no more columns than it is given, and each kept column is one of them |
| Merge.DropDuplicateColumnsDistinct | src/calculate_pausing_index.py:161 | after dropping duplicates, the names are pairwise distinct and no name is lost |
| Merge.DropDuplicateColumnsKeepsFirst | src/calculate_pausing_index.py:161 | the kept columns are exactly the first columns of their names, in their left-to-right order: kept column k is column idx[k], the idx strictly increase, and every first column of a name is among them |
| Merge.DropSeenColumns | src/calculate_pausing_index.py:161 | appended columns whose names already occur are all dropped |
| Merge.AppendFreshColumn | src/calculate_pausing_index.py:161 | a column whose name has not occurred is kept |
| Merge.KeepFreshColumns | src/calculate_pausing_index.py:161 | appended columns with new, distinct names are all kept |
| Merge.StatNameInjective | src/calculate_pausing_index.py:135-138 | a statistic column name determines both the sample and the statistic |
| Merge.StatNameNotMetadata | src/calculate_pausing_index.py:129-138 | a statistic column name is never a gene column name |
| Merge.SampleTableNamesDistinct | src/calculate_pausing_index.py:129-138 | the ten column names of a sample table are pairwise distinct |
| Merge.AllColumnsNames | src/calculate_pausing_index.py:160 | every concatenated column name is a gene column or a statistic column of some sample, and all gene columns are present |
| Merge.MergeKeepsLayout | src/calculate_pausing_index.py:160-161 | for distinct sample names, deduplication leaves the first table whole followed by the statistic columns of every further sample |
| Merge.MergeOneMoreSample | src/calculate_pausing_index.py:160-161 | merging one more sample table, whose name is new, adds exactly its four statistic columns |
| Merge.SampleColumnsSplit | src/calculate_pausing_index.py:129-138 | a sample table's columns are its gene columns followed by its statistic columns, whose names are distinct |
| Merge.StatColumnsFresh | src/calculate_pausing_index.py:129-161 | the statistic columns of a new sample clash with neither a gene column nor another sample's statistic column |
| Merge.MergedLayoutNames | src/calculate_pausing_index.py:160-161 | the merged column names are the six gene columns followed by the four statistic columns of each sample, in sample order |
| Merge.MergedLayoutStartsWithFirst | src/calculate_pausing_index.py:160-161 | the merged columns start with the whole first sample table |
| Merge.SampleResults | src/calculate_pausing_index.py:155-157 | one record list per sample, in order, each being that sample's pass over the genes; the first failing sample aborts with its error |
| Merge.Frames | src/calculate_pausing_index.py:157 | one data frame per sample, in order, each built from that sample's records |
| Merge.FramesStep | src/calculate_pausing_index.py:155-157 | loading one more sample appends its data frame |
| Merge.MergedTable | src/calculate_pausing_index.py:145-161 | the merge succeeds exactly when there is at least one sample and every sample's pass succeeds; no samples raise; otherwise the error is that of the first failing sample; a success is well formed with one row per gene, and has no columns when there are no genes |
| Merge.MergedTableOfFrames | src/calculate_pausing_index.py:160-161 | the merged table is the sample tables side by side, all rows kept, duplicate names dropped |
| Merge.MergedTableColumns | src/calculate_pausing_index.py:155-161 | with at least one gene, the merged columns are the gene columns once, then the four statistic columns of each sample in order, all names distinct |
| Merge.MergedRowsFollowGenes | src/calculate_pausing_index.py:121-161 | row k of the merged table starts with the gene columns of gene k |
| Merge.RowOfGene | src/calculate_pausing_index.py:129-134 | the first six cells of a gene's record are its id, chromosome, start, end, length and strand |
| Merge.LeadingColumnsRows | src/calculate_pausing_index.py:160 | a table whose columns begin with another table's columns begins each row with that table's row |
| Merge.LoadAndMerge | src/calculate_pausing_index.py:145-161 | the loop over samples returns what `MergedTable` specifies |

## Left out

- File input: reading the GFF3 file is not modelled, so the parse takes the file's lines. Opening and closing the bigWig reader is not modelled either, so each sample takes its track as a function. A track that cannot be opened is not modelled.
- The out-of-range error of the bigWig reader is not modelled. The track is a total function, so a window that starts below 0, reaches past a chromosome end, or lies on a chromosome the file lacks reads whatever values the track function gives there; `bw.values` would raise instead.
- Sample.GeneRowOfParsedGene: states success for every "+"/"-" gene only under the total reader; with the real reader, a gene whose windows fall outside its chromosome (a "+" gene starting within 250 bp of position 0, say) raises.
- Sample.ParsedGenesLoad: states that parsed genes load without error only under the total reader, for the same reason.
- An empty window is reported as `EmptyWindow`; Python would instead divide by zero. No gene that passes the annotation filter ever produces an empty window.
- Floating point: the means and the index are exact reals, not IEEE doubles. NaN appears only as a missing track value and as a suppressed index (`NA`). The constant `1e-9` is the exact decimal.
- Annotation.ParseInt: does not accept what `int()` also allows: surrounding whitespace, underscores between digits, or non-ASCII digits.
- Annotation.Strip: removes only the ASCII and Latin-1 whitespace characters, not the other Unicode spaces that `str.strip()` also removes.
- `to_csv`, the progress messages and the module-level driver are not modelled. The driver covers the path constants, the antibody loop and the sample mappings (src/calculate_pausing_index.py:44-45, 171-223). The written table is the `Merge.Table` value.
- src/spikeIn_correction.py is not part of this model; it only calls external tools.
- The mapping from sample name to bigWig path becomes a sequence of sample sources with distinct names. That is the mapping's own iteration order and key uniqueness.
