/** Alignment padding: right-pad every extracted region with the filler
    symbol up to the length of the longest one. */
module Padding {
  import opened Records

  /** The largest length among a non-empty list of strings, scanned left to
      right like Python's `max` over a generator. */
  function MaxLength(seqs: seq<string>): (m: nat)
    requires seqs != []
    ensures forall i :: 0 <= i < |seqs| ==> |seqs[i]| <= m
    ensures exists i :: 0 <= i < |seqs| && |seqs[i]| == m
  {
    if |seqs| == 1 then |seqs[0]|
    else
      var rest := MaxLength(seqs[1..]);
      assert forall i :: 1 <= i < |seqs| ==> seqs[i] == seqs[1..][i - 1];
      if |seqs[0]| >= rest then |seqs[0]| else rest
  }

  /** Python's `str.ljust(width, fill)`: the string itself when it is at
      least `width` long, otherwise the string followed by enough copies of
      `fill` to reach `width`. */
  function LJust(s: string, width: int, fill: char): (r: string)
    ensures |r| == if width > |s| then width else |s|
    ensures r[..|s|] == s
    ensures forall k :: |s| <= k < |r| ==> r[k] == fill
  {
    if width <= |s| then s else s + seq(width - |s|, _ => fill)
  }

  /** Padding of the extracted regions: fails on an empty list (no maximum
      exists); otherwise keeps count and order, brings every string to the
      longest length, keeps each original as a prefix and fills the rest
      with 'N'. */
  function Pad(seqs: seq<string>): (r: Result<seq<string>>)
    ensures r.Err? <==> seqs == []
    ensures r.Err? ==> r.error == EmptyAlignment
    ensures r.Ok? ==> |r.value| == |seqs|
    ensures r.Ok? ==> forall i :: 0 <= i < |seqs| ==>
      |r.value[i]| == MaxLength(seqs) && r.value[i][..|seqs[i]|] == seqs[i] &&
      forall k :: |seqs[i]| <= k < |r.value[i]| ==> r.value[i][k] == Filler
  {
    if seqs == [] then Err(EmptyAlignment)
    else
      var width := MaxLength(seqs);
      Ok(seq(|seqs|, i requires 0 <= i < |seqs| => LJust(seqs[i], width, Filler)))
  }

  /** All padded strings have the same length. */
  lemma PadEqualLengths(seqs: seq<string>, i: nat, j: nat)
    requires i < |seqs| && j < |seqs|
    ensures Pad(seqs).Ok? && |Pad(seqs).value[i]| == |Pad(seqs).value[j]|
  {
  }

  /** A string that is already as long as the longest one is unchanged. */
  lemma PadKeepsLongest(seqs: seq<string>, i: nat)
    requires i < |seqs| && |seqs[i]| == MaxLength(seqs)
    ensures Pad(seqs).Ok? && Pad(seqs).value[i] == seqs[i]
  {
  }

  /** Padding strings that already have one common length changes nothing. */
  lemma {:induction false} PadUniformIsIdentity(seqs: seq<string>)
    requires seqs != []
    requires forall i :: 0 <= i < |seqs| ==> |seqs[i]| == |seqs[0]|
    ensures Pad(seqs) == Ok(seqs)
  {
    var m := MaxLength(seqs);
    assert m == |seqs[0]|;
    forall i | 0 <= i < |seqs| ensures Pad(seqs).value[i] == seqs[i] {
      PadKeepsLongest(seqs, i);
    }
    assert Pad(seqs).value == seqs;
  }

  /** Padding twice gives the same result as padding once. */
  lemma {:induction false} PadIdempotent(seqs: seq<string>)
    requires seqs != []
    ensures Pad(seqs).Ok? && Pad(Pad(seqs).value) == Pad(seqs)
  {
    var padded := Pad(seqs).value;
    assert forall i :: 0 <= i < |padded| ==> |padded[i]| == |padded[0]|;
    PadUniformIsIdentity(padded);
  }

  /** Two regions of lengths 5 and 8: the shorter one gains three 'N's. */
  lemma PadTwoRegions()
    ensures Pad(["ACGTA", "TTGCAGCT"]) == Ok(["ACGTANNN", "TTGCAGCT"])
  {
    var seqs := ["ACGTA", "TTGCAGCT"];
    assert MaxLength(seqs) == 8 by {
      assert MaxLength(seqs[1..]) == 8;
    }
    var padded := Pad(seqs).value;
    assert padded[0] == LJust("ACGTA", 8, Filler) == "ACGTANNN";
    assert padded[1] == "TTGCAGCT";
    assert padded == ["ACGTANNN", "TTGCAGCT"];
  }
}
