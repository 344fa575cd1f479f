/** Region extraction (the first half of parse_fasta): for every exon row,
    in order, look its name up in the sequence map and slice out the text
    between its donor and acceptor indices; then pad the regions. */
module Extraction {
  import opened Records
  import opened Slicing
  import opened Padding
  import Features

  /** The region of one exon row. The name lookup comes first, so an unknown
      name is reported even when the indices are missing too. */
  function Region(row: ExonRow, d: map<string, string>): (r: Result<string>)
    ensures row.name !in d ==> r == Err(UnknownName(row.name))
    ensures row.name in d && (row.donorIndex.None? || row.acceptorIndex.None?) ==>
      r == Err(MissingIndex(row.name))
    ensures r.Ok? <==> row.name in d && row.donorIndex.Some? && row.acceptorIndex.Some?
    ensures r.Ok? ==> r.value == Slice(d[row.name], row.donorIndex.value, row.acceptorIndex.value)
    ensures r.Ok? ==> |r.value| <= |d[row.name]|
  {
    if row.name !in d then Err(UnknownName(row.name))
    else if row.donorIndex.None? || row.acceptorIndex.None? then Err(MissingIndex(row.name))
    else Ok(Slice(d[row.name], row.donorIndex.value, row.acceptorIndex.value))
  }

  /** The regions of all rows, in row order, or the error of the FIRST row
      whose extraction fails (the run aborts there). */
  function Regions(rows: seq<ExonRow>, d: map<string, string>): (r: Result<seq<string>>)
    ensures r.Ok? <==> forall i :: 0 <= i < |rows| ==> Region(rows[i], d).Ok?
    ensures r.Ok? ==> (|r.value| == |rows| &&
                       forall i :: 0 <= i < |rows| ==> r.value[i] == Region(rows[i], d).value)
    ensures r.Err? ==> (exists i :: 0 <= i < |rows| && Region(rows[i], d) == Err(r.error) &&
                                    forall j :: 0 <= j < i ==> Region(rows[j], d).Ok?)
  {
    if rows == [] then Ok([])
    else
      var n := |rows| - 1;
      var front := rows[..n];
      assert forall i :: 0 <= i < n ==> rows[i] == front[i];
      match Regions(front, d)
      case Err(e) => Err(e)
      case Ok(done) =>
        match Region(rows[n], d)
        case Err(e) => Err(e)
        case Ok(region) => Ok(done + [region])
  }

  /** What parse_fasta returns: the padded regions, or the first error. */
  function PaddedRegions(rows: seq<ExonRow>, d: map<string, string>): Result<seq<string>>
  {
    match Regions(rows, d)
    case Err(e) => Err(e)
    case Ok(regions) => Pad(regions)
  }

  /** parse_fasta: append the region of each row to a list, aborting on the
      first failing row, then pad the list. */
  method ParseFasta(rows: seq<ExonRow>, d: map<string, string>) returns (r: Result<seq<string>>)
    ensures r == PaddedRegions(rows, d)
  {
    var regions: seq<string> := [];
    var index := 0;
    while index < |rows|
      invariant 0 <= index <= |rows|
      invariant |regions| == index
      invariant forall i :: 0 <= i < index ==> Region(rows[i], d).Ok? && regions[i] == Region(rows[i], d).value
    {
      var region := Region(rows[index], d);
      if region.Err? {
        r := Err(region.error);
        return;
      }
      regions := regions + [region.value];
      index := index + 1;
    }
    assert Regions(rows, d).value == regions;
    r := Pad(regions);
  }

  /** The padded output has one string per exon row, each of the longest
      region's length, beginning with that row's region. */
  lemma PaddedRegionsShape(rows: seq<ExonRow>, d: map<string, string>, i: nat)
    requires PaddedRegions(rows, d).Ok? && i < |rows|
    ensures |PaddedRegions(rows, d).value| == |rows|
    ensures Region(rows[i], d).Ok?
    ensures var out := PaddedRegions(rows, d).value;
      |Region(rows[i], d).value| <= |out[i]| &&
      out[i][..|Region(rows[i], d).value|] == Region(rows[i], d).value &&
      |out[i]| == |out[0]|
  {
  }

  /** On the '+' strand an exon with 1 <= start <= end + 2 yields the empty
      region, whatever the sequence: the donor index end + 1 is at or after
      the acceptor index start - 1. */
  lemma PlusStrandRegionIsEmpty(row: ExonRow, d: map<string, string>, start: int, end: int)
    requires row.feature == Exon && row.strand == Plus && row.name in d
    requires row.fStart == Some(start) && row.fEnd == Some(end) && 1 <= start <= end + 2
    ensures Region(Features.WithIndices(row), d) == Ok([])
  {
  }

  /** On the '-' strand, an exon whose window lies inside the sequence
      yields the text from start - 1 up to, not including, end + 1. */
  lemma MinusStrandRegion(row: ExonRow, d: map<string, string>, start: int, end: int)
    requires row.feature == Exon && row.strand == Minus && row.name in d
    requires row.fStart == Some(start) && row.fEnd == Some(end)
    requires 1 <= start <= end + 2 && end + 1 <= |d[row.name]|
    ensures Region(Features.WithIndices(row), d) == Ok(d[row.name][start - 1..end + 1])
  {
    SliceInBounds(d[row.name], start - 1, end + 1);
  }

  /** A '+' exon that starts at 0 has acceptor index -1, which wraps to the
      last character: the region runs from end + 1 up to, not including, the
      last character. */
  lemma PlusStrandZeroStartWraps(row: ExonRow, d: map<string, string>, end: int)
    requires row.feature == Exon && row.strand == Plus && row.name in d
    requires row.fStart == Some(0) && row.fEnd == Some(end)
    requires 0 <= end && end + 1 < |d[row.name]| - 1
    ensures Region(Features.WithIndices(row), d) == Ok(d[row.name][end + 1..|d[row.name]| - 1])
  {
  }

  /** An exon on neither strand never gets indices, so its extraction fails. */
  lemma UnstrandedExonFails(row: ExonRow, d: map<string, string>)
    requires row.feature == Exon && row.strand != Plus && row.strand != Minus
    requires row.donorIndex.None? && row.name in d
    ensures Region(Features.WithIndices(row), d) == Err(MissingIndex(row.name))
  {
  }
}
