/** The sequence map: record identifier to full sequence, built from the
    parsed records of the genome sequence file in file order. */
module SequenceIndex {
  import opened Records

  /** Some record carries the identifier `id`. */
  predicate HasId(records: seq<FastaRecord>, id: string) {
    exists i :: 0 <= i < |records| && records[i].id == id
  }

  /** Record `i` is the last one carrying its identifier. */
  predicate IsLastOfId(records: seq<FastaRecord>, i: nat)
    requires i < |records|
  {
    forall j :: i < j < |records| ==> records[j].id != records[i].id
  }

  /** The map after inserting the records one after the other: a later
      record overwrites an earlier one with the same identifier. */
  function SeqMap(records: seq<FastaRecord>): (d: map<string, string>)
    ensures records != [] ==> records[|records| - 1].id in d && d[records[|records| - 1].id] == records[|records| - 1].sequence
  {
    if records == [] then map[]
    else
      var n := |records| - 1;
      SeqMap(records[..n])[records[n].id := records[n].sequence]
  }

  /** The map holds exactly the identifiers that occur in the records. */
  lemma {:induction false} SeqMapKeys(records: seq<FastaRecord>, id: string)
    ensures id in SeqMap(records) <==> HasId(records, id)
  {
    if records != [] {
      var n := |records| - 1;
      var front := records[..n];
      SeqMapKeys(front, id);
      if HasId(front, id) {
        var i :| 0 <= i < |front| && front[i].id == id;
        assert records[i].id == id;
      }
      if HasId(records, id) && id != records[n].id {
        var i :| 0 <= i < |records| && records[i].id == id;
        assert front[i].id == id;
      }
    }
  }

  /** Each identifier is bound to the sequence of its LAST record. */
  lemma {:induction false} SeqMapLastWins(records: seq<FastaRecord>, i: nat)
    requires i < |records| && IsLastOfId(records, i)
    ensures records[i].id in SeqMap(records) && SeqMap(records)[records[i].id] == records[i].sequence
  {
    var n := |records| - 1;
    if i < n {
      var front := records[..n];
      assert front[i] == records[i];
      assert IsLastOfId(front, i) by {
        forall j | i < j < |front| ensures front[j].id != front[i].id {
          assert front[j] == records[j];
        }
      }
      SeqMapLastWins(front, i);
      assert records[n].id != records[i].id;
    }
  }

  /** Every identifier has a last occurrence at or after any occurrence. */
  lemma {:induction false} LastOccurrence(records: seq<FastaRecord>, k: nat)
    requires k < |records|
    ensures exists last :: k <= last < |records| && records[last].id == records[k].id && IsLastOfId(records, last)
    decreases |records| - k
  {
    if exists m :: k < m < |records| && records[m].id == records[k].id {
      var m :| k < m < |records| && records[m].id == records[k].id;
      LastOccurrence(records, m);
    } else {
      assert IsLastOfId(records, k);
    }
  }

  /** make_seqdict: start from an empty map and insert every record. */
  method MakeSeqDict(records: seq<FastaRecord>) returns (d: map<string, string>)
    ensures d == SeqMap(records)
  {
    d := map[];
    for i := 0 to |records|
      invariant d == SeqMap(records[..i])
    {
      assert records[..i + 1][..i] == records[..i];
      d := d[records[i].id := records[i].sequence];
    }
    assert records[..|records|] == records;
  }
}
