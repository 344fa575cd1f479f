/** Coordinate derivation: select the exon rows of the annotation table and
    compute, per strand, the donor and acceptor indices that bound the
    window used for extraction. */
module Features {
  import opened Records

  /** The exon-table view of one annotation row: the five selected columns,
      with the index columns not yet assigned. */
  function Select(row: AnnotationRow): (e: ExonRow)
    ensures e.name == row.name && e.strand == row.strand && e.feature == row.feature
    ensures e.fStart == row.fStart && e.fEnd == row.fEnd
    ensures e.donorIndex.None? && e.acceptorIndex.None?
  {
    ExonRow(row.name, row.strand, row.feature, row.fStart, row.fEnd, None, None)
  }

  /** The rows whose feature is "exon", in table order, reduced to the
      selected columns. */
  function ExonTable(table: seq<AnnotationRow>): (exons: seq<ExonRow>)
    ensures |exons| <= |table|
    ensures forall k :: 0 <= k < |exons| ==>
      exons[k].feature == Exon && exons[k].donorIndex.None? && exons[k].acceptorIndex.None?
    ensures forall i :: 0 <= i < |table| && table[i].feature == Exon ==> Select(table[i]) in exons
  {
    if table == [] then []
    else
      var rest := ExonTable(table[1..]);
      assert forall i :: 1 <= i < |table| ==> table[i] == table[1..][i - 1];
      if table[0].feature == Exon then [Select(table[0])] + rest else rest
  }

  /** Selecting exon rows commutes with concatenating tables, so the
      selection keeps the rows in their original order. */
  lemma {:induction false} ExonTableAppend(a: seq<AnnotationRow>, b: seq<AnnotationRow>)
    ensures ExonTable(a + b) == ExonTable(a) + ExonTable(b)
  {
    if a == [] {
      assert a + b == b;
    } else {
      assert (a + b)[1..] == a[1..] + b;
      ExonTableAppend(a[1..], b);
    }
  }

  /** Every selected row comes from a row of the table. */
  lemma {:induction false} ExonTableFromTable(table: seq<AnnotationRow>, k: nat)
    requires k < |ExonTable(table)|
    ensures exists i :: 0 <= i < |table| && table[i].feature == Exon && ExonTable(table)[k] == Select(table[i])
  {
    var rest := ExonTable(table[1..]);
    if table[0].feature == Exon && k == 0 {
      assert ExonTable(table)[k] == Select(table[0]);
    } else {
      var j := if table[0].feature == Exon then k - 1 else k;
      assert ExonTable(table)[k] == rest[j];
      ExonTableFromTable(table[1..], j);
      var i :| 0 <= i < |table[1..]| && table[1..][i].feature == Exon && rest[j] == Select(table[1..][i]);
      assert table[i + 1] == table[1..][i];
    }
  }

  /** `x - 1` (resp. `x + 1`) of a possibly missing coordinate; a missing
      value stays missing, as NaN arithmetic does. */
  function Shift(x: Option<int>, delta: int): (r: Option<int>)
    ensures r.Some? <==> x.Some?
    ensures r.Some? ==> r.value - delta == x.value
  {
    match x
    case None => None
    case Some(v) => Some(v + delta)
  }

  /** One iteration of the coordinate loop: the row with its donor and
      acceptor indices assigned according to its strand. Every branch tests
      the END coordinate for a missing value, including the two indices
      computed from the start coordinate. A row whose strand is neither '+'
      nor '-' is left as it was. */
  function WithIndices(row: ExonRow): (r: ExonRow)
    ensures r.name == row.name && r.strand == row.strand && r.feature == row.feature
    ensures r.fStart == row.fStart && r.fEnd == row.fEnd
    ensures row.feature == Exon && row.strand == Plus && row.fEnd.Some? ==>
      r.donorIndex == Some(row.fEnd.value + 1) && r.acceptorIndex == Shift(row.fStart, -1)
    ensures row.feature == Exon && row.strand == Minus && row.fEnd.Some? ==>
      r.donorIndex == Shift(row.fStart, -1) && r.acceptorIndex == Some(row.fEnd.value + 1)
    ensures row.feature == Exon && (row.strand == Plus || row.strand == Minus) && row.fEnd.None? ==>
      r.donorIndex == Some(0) && r.acceptorIndex == Some(0)
    ensures row.feature != Exon || (row.strand != Plus && row.strand != Minus) ==> r == row
  {
    if row.feature != Exon then row
    else if row.strand == Plus then
      row.(donorIndex := if row.fEnd.Some? then Some(row.fEnd.value + 1) else Some(0),
           acceptorIndex := if row.fEnd.Some? then Shift(row.fStart, -1) else Some(0))
    else if row.strand == Minus then
      row.(donorIndex := if row.fEnd.Some? then Shift(row.fStart, -1) else Some(0),
           acceptorIndex := if row.fEnd.Some? then Some(row.fEnd.value + 1) else Some(0))
    else row
  }

  /** Exchanging the strand of an exon exchanges its donor and acceptor
      indices: both strands bound the same window, start - 1 and end + 1,
      from opposite sides. */
  lemma StrandSwapsIndices(row: ExonRow)
    requires row.feature == Exon && row.strand == Plus
    ensures WithIndices(row.(strand := Minus)).donorIndex == WithIndices(row).acceptorIndex
    ensures WithIndices(row.(strand := Minus)).acceptorIndex == WithIndices(row).donorIndex
  {
  }

  /** With both coordinates present, the indices lie just outside the exon:
      one is start - 1 and the other end + 1, on either strand. */
  lemma IndicesFlankExon(row: ExonRow)
    requires row.feature == Exon && (row.strand == Plus || row.strand == Minus)
    requires row.fStart.Some? && row.fEnd.Some?
    ensures var r := WithIndices(row);
      r.donorIndex.Some? && r.acceptorIndex.Some? &&
      {r.donorIndex.value, r.acceptorIndex.value} == {row.fStart.value - 1, row.fEnd.value + 1}
  {
  }

  /** On the '+' strand of an ordinary exon (start <= end) the donor index
      exceeds the acceptor index: the window is descending. */
  lemma PlusStrandWindowDescends(row: ExonRow)
    requires row.feature == Exon && row.strand == Plus
    requires row.fStart.Some? && row.fEnd.Some? && row.fStart.value <= row.fEnd.value
    ensures WithIndices(row).acceptorIndex.value < WithIndices(row).donorIndex.value
  {
  }

  /** The exon table after the coordinate loop: every row with its indices. */
  function Annotate(exons: seq<ExonRow>): seq<ExonRow>
  {
    seq(|exons|, k requires 0 <= k < |exons| => WithIndices(exons[k]))
  }

  /** get_features: select the exon rows, then fill in the donor and
      acceptor indices of each row in place, one row per iteration. */
  method GetFeatures(table: seq<AnnotationRow>) returns (exons: seq<ExonRow>)
    ensures |exons| == |ExonTable(table)|
    ensures forall k :: 0 <= k < |exons| ==> exons[k] == WithIndices(ExonTable(table)[k])
  {
    var selected := ExonTable(table);
    var frame := new ExonRow[|selected|](i requires 0 <= i < |selected| => selected[i]);
    var index := 0;
    while index < frame.Length
      invariant 0 <= index <= frame.Length
      invariant forall k :: 0 <= k < index ==> frame[k] == WithIndices(selected[k])
      invariant forall k :: index <= k < frame.Length ==> frame[k] == selected[k]
    {
      frame[index] := WithIndices(frame[index]);
      index := index + 1;
    }
    exons := frame[..];
  }
}
