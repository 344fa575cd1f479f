# Splice-junction alignment (splice_logo) in Dafny

This project models the core of `splice_logo` in `donor_acceptor_logo.py`:
the steps that turn a gene annotation table and a genome sequence file into
the padded alignment from which a sequence logo is drawn.

- **Coordinate derivation** (`get_features`, module `Features`): the rows
  whose feature is `exon` are kept in table order, reduced to the columns
  name, strand, feature, start and end. A loop then fills in, row by row and
  in place, a donor and an acceptor index: on `+` the donor is end + 1 and the
  acceptor start - 1; on `-` the donor is start - 1 and the acceptor end + 1.
  All four assignments test the END coordinate for a missing value and then
  use 0 for both indices; a missing START with a present end leaves a missing
  index (NaN arithmetic). A row whose strand is neither `+` nor `-` gets no
  indices at all. The loop is `Features.GetFeatures`, over an array that
  stands for the exon table; one iteration is the function
  `Features.WithIndices`.
- **Sequence map** (`make_seqdict`, module `SequenceIndex`): the records of
  the sequence file are inserted into a map one after another, so a later
  record with an identifier already present overwrites the earlier one.
- **Region extraction** (`parse_fasta`, modules `Slicing` and `Extraction`):
  for each exon row in order, the row's name is looked up (an absent name
  aborts the run) and the sequence is sliced from the donor index to the
  acceptor index with Python's slice rules: a negative bound has the length
  added, bounds are clamped to the sequence, and the slice is empty when the
  normalised start is not before the normalised stop. On the `+` strand the
  donor (end + 1) is usually beyond the acceptor (start - 1), so the region is
  usually empty; a start of 0 gives an acceptor of -1, which counts from the
  end of the sequence. Both behaviours are kept and proved.
- **Padding** (`parse_fasta`, module `Padding`): the maximum region length
  is taken (an empty list aborts the run), and every region is right-padded
  with `N` to that length, as `str.ljust` does.
- **Pipeline** (module `SpliceLogo`): the three calls that precede drawing
  the logo.

Failures are values of `Records.Result`: `UnknownName` for the dictionary
lookup error, `MissingIndex` for a row without a donor or acceptor index
(Python's `int()` of a missing cell, or a lookup of an index column that was
never created), `EmptyAlignment` for `max` of an empty list.

## Model

| member | source | states |
|---|---|---|
| `Features.Select` | donor_acceptor_logo.py:16 | the exon-table row keeps name, strand, feature, start and end of the annotation row and has no indices yet |
| `Features.ExonTable` | donor_acceptor_logo.py:16 | only rows with feature `exon` are selected, every such row is selected, none is added, and the indices are unset |
| `Features.ExonTableAppend` | donor_acceptor_logo.py:16 | selection distributes over concatenation of tables, so selected rows keep their table order |
| `Features.ExonTableFromTable` | donor_acceptor_logo.py:16 | every selected row is the selection of an exon row of the table |
| `Features.WithIndices` | donor_acceptor_logo.py:22-32 | `+`: donor end + 1, acceptor start - 1; `-`: donor start - 1, acceptor end + 1; both 0 when the end is missing (also for the values computed from the start); other strands and non-exon rows unchanged; name, strand, feature and coordinates never change |
| `Features.StrandSwapsIndices` | donor_acceptor_logo.py:24-32 | switching an exon from `+` to `-` exchanges its donor and acceptor indices |
| `Features.IndicesFlankExon` | donor_acceptor_logo.py:18-32 | with both coordinates present, the two indices are exactly start - 1 and end + 1 on either strand |
| `Features.PlusStrandWindowDescends` | donor_acceptor_logo.py:24-27 | on `+` with start <= end the acceptor index is below the donor index |
| `Features.GetFeatures` | donor_acceptor_logo.py:21-34 | the loop yields one row per selected exon row, in order, each with its indices as `WithIndices` assigns them |
| `SequenceIndex.SeqMap` | donor_acceptor_logo.py:37-39 | the last record inserted is bound to its sequence |
| `SequenceIndex.SeqMapKeys` | donor_acceptor_logo.py:37-39 | the map's keys are exactly the identifiers of the records |
| `SequenceIndex.SeqMapLastWins` | donor_acceptor_logo.py:38-39 | each identifier maps to the sequence of its last record: later duplicates overwrite earlier ones |
| `SequenceIndex.LastOccurrence` | donor_acceptor_logo.py:38-39 | every identifier that occurs has a last occurrence |
| `SequenceIndex.MakeSeqDict` | donor_acceptor_logo.py:36-41 | the insertion loop builds exactly `SeqMap` of the records |
| `Slicing.SliceBound` | donor_acceptor_logo.py:54 | a slice bound is taken as is inside [0, len], has len added when negative, and is clamped to [0, len] |
| `Slicing.Slice` | donor_acceptor_logo.py:54 | the slice has length max(0, hi - lo) of the normalised bounds and its k-th character is the sequence's character lo + k |
| `Slicing.SliceInBounds` | donor_acceptor_logo.py:54 | with 0 <= start <= stop <= len the slice is the ordinary subsequence of length stop - start |
| `Slicing.SliceDescendingIsEmpty` | donor_acceptor_logo.py:54 | non-negative bounds with start >= stop give the empty string, not an error |
| `Slicing.SliceStopMinusOne` | donor_acceptor_logo.py:54 | a stop of -1 ends the slice before the last character |
| `Slicing.SliceIsInfix` | donor_acceptor_logo.py:54 | a slice is the contiguous piece of the sequence that starts at the normalised start |
| `Extraction.Region` | donor_acceptor_logo.py:54 | an absent name fails with `UnknownName` (checked first), a missing index with `MissingIndex`; otherwise the region is the slice from donor to acceptor and no longer than the sequence |
| `Extraction.Regions` | donor_acceptor_logo.py:52-54 | success iff every row's region succeeds, then one region per row in row order; otherwise the error of the first failing row |
| `Extraction.ParseFasta` | donor_acceptor_logo.py:43-60 | the append loop with its abort on the first failure, followed by padding, returns the padded regions or the first error |
| `Extraction.PaddedRegionsShape` | donor_acceptor_logo.py:52-58 | on success, one output string per exon row, all of one length, each beginning with its row's region |
| `Extraction.PlusStrandRegionIsEmpty` | donor_acceptor_logo.py:54 | a `+` exon with 1 <= start <= end + 2 yields the empty region for any sequence |
| `Extraction.MinusStrandRegion` | donor_acceptor_logo.py:54 | a `-` exon whose window lies inside the sequence yields the text from start - 1 up to end + 1 |
| `Extraction.PlusStrandZeroStartWraps` | donor_acceptor_logo.py:54 | a `+` exon starting at 0 has acceptor -1, so its region runs from end + 1 up to the last character |
| `Extraction.UnstrandedExonFails` | donor_acceptor_logo.py:54 | an exon on neither strand has no indices and its extraction fails with `MissingIndex` |
| `Padding.MaxLength` | donor_acceptor_logo.py:57 | the result bounds every length and is attained by some string |
| `Padding.LJust` | donor_acceptor_logo.py:58 | length max(width, len), the original as prefix, only the filler after it |
| `Padding.Pad` | donor_acceptor_logo.py:57-58 | fails exactly on the empty list; otherwise same count, every string of the maximum length, original as prefix, only `N` after it |
| `Padding.PadEqualLengths` | donor_acceptor_logo.py:57-58 | any two padded strings have the same length |
| `Padding.PadKeepsLongest` | donor_acceptor_logo.py:57-58 | a string already of the maximum length is unchanged |
| `Padding.PadUniformIsIdentity` | donor_acceptor_logo.py:57-58 | padding strings of one common length returns them unchanged |
| `Padding.PadIdempotent` | donor_acceptor_logo.py:57-58 | padding the padded list gives the padded list again |
| `Padding.PadTwoRegions` | donor_acceptor_logo.py:57-58 | regions of lengths 5 and 8 become `ACGTANNN` and `TTGCAGCT` |
| `SpliceLogo.SpliceAlignment` | donor_acceptor_logo.py:71-73 | get_features, make_seqdict and parse_fasta in sequence compute `Alignment` of the table and the records |
| `SpliceLogo.EmptyAlignmentIffNoExons` | donor_acceptor_logo.py:57 | the run fails for lack of a maximum exactly when the table has no exon rows |
| `SpliceLogo.NoExonsFails` | donor_acceptor_logo.py:57 | a table without exon rows aborts with `EmptyAlignment` |
| `SpliceLogo.PlusStrandExample` | donor_acceptor_logo.py:24-27 | a `+` exon at 100..200 gets donor 201 and acceptor 99 and an empty region, so the alignment is one empty string |
| `SpliceLogo.UnknownNameExample` | donor_acceptor_logo.py:54 | an exon whose name is not in the sequence file aborts with `UnknownName` of that name |

## Left out

- Reading the annotation table (`pd.read_csv` and the column names, lines 14-15): the model starts from parsed rows; a missing coordinate cell is `None`.
- Parsing the sequence file (`SeqIO.parse`, line 38): the model takes the parsed `(id, sequence)` records in file order.
- Drawing the logo (`make_logo`, lines 62-68: count matrix, logo, plot window): external library code and a display side effect.
- The path constants and the top-level call (lines 83-87): configuration.
- pandas number types: indices are integers; the float columns that `.at` creates, `int()` of floats and NaN are not modelled beyond "present" or "missing".
- `MissingIndex` stands for two Python errors: `int()` of a NaN cell (ValueError) and, when no row got indices at all, a lookup of a column that was never created (KeyError).
- The list of names and the list `rec_list` built in `parse_fasta` (lines 45, 48, 53) and its unused `fasta_file` parameter: they do not affect the result.
- pandas row labels: `iterrows` and `.at` address rows by label; the model addresses them by position, which agrees for the fresh table that `read_csv` returns.
