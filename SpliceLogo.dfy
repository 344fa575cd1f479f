/** The splice_logo pipeline up to the sequence logo: exon coordinates,
    sequence map, extraction and padding. The padded alignment is what the
    logo renderer would receive. */
module SpliceLogo {
  import opened Records
  import opened Features
  import opened SequenceIndex
  import opened Extraction
  import opened Padding

  /** The padded alignment for an annotation table and the records of a
      sequence file, or the error that aborts the run. */
  function Alignment(table: seq<AnnotationRow>, records: seq<FastaRecord>): Result<seq<string>>
  {
    PaddedRegions(Annotate(ExonTable(table)), SeqMap(records))
  }

  /** The three calls of splice_logo that precede the logo. */
  method SpliceAlignment(table: seq<AnnotationRow>, records: seq<FastaRecord>) returns (r: Result<seq<string>>)
    ensures r == Alignment(table, records)
  {
    var exons := GetFeatures(table);
    assert exons == Annotate(ExonTable(table));
    var sequences := MakeSeqDict(records);
    r := ParseFasta(exons, sequences);
  }

  /** The run fails for lack of a maximum length exactly when the table has
      no exon rows; an unknown name or a missing index is reported as such. */
  lemma EmptyAlignmentIffNoExons(table: seq<AnnotationRow>, records: seq<FastaRecord>)
    ensures Alignment(table, records) == Err(EmptyAlignment) <==> ExonTable(table) == []
  {
  }

  /** A table without exon rows aborts when padding. */
  lemma {:induction false} NoExonsFails(table: seq<AnnotationRow>, records: seq<FastaRecord>)
    requires forall i :: 0 <= i < |table| ==> table[i].feature != Exon
    ensures Alignment(table, records) == Err(EmptyAlignment)
  {
    if ExonTable(table) != [] {
      ExonTableFromTable(table, 0);
    }
    EmptyAlignmentIffNoExons(table, records);
  }

  /** A '+' exon at 100..200 on a 300-character sequence: donor 201,
      acceptor 99, so its region is empty and so is the padded alignment's
      single string. */
  lemma PlusStrandExample()
    ensures var row := AnnotationRow("geneX", "havana", "exon", Some(100), Some(200), ".", "+", ".", "");
      var exon := WithIndices(Select(row));
      exon.donorIndex == Some(201) && exon.acceptorIndex == Some(99) &&
      Alignment([row], [FastaRecord("geneX", seq(300, _ => 'A'))]) == Ok([""])
  {
    var row := AnnotationRow("geneX", "havana", "exon", Some(100), Some(200), ".", "+", ".", "");
    var records := [FastaRecord("geneX", seq(300, _ => 'A'))];
    assert ExonTable([row]) == [Select(row)];
    var rows := Annotate(ExonTable([row]));
    assert rows == [WithIndices(Select(row))];
    SeqMapLastWins(records, 0);
    PlusStrandRegionIsEmpty(Select(row), SeqMap(records), 100, 200);
    assert Regions(rows, SeqMap(records)).value == [""];
    PadUniformIsIdentity([""]);
  }

  /** An exon whose name is absent from the sequence file aborts the run
      with the name. */
  lemma UnknownNameExample()
    ensures var row := AnnotationRow("geneY", "havana", "exon", Some(5), Some(9), ".", "-", ".", "");
      Alignment([row], [FastaRecord("geneX", "ACGT")]) == Err(UnknownName("geneY"))
  {
  }
}
