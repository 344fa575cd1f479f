/** Values that flow through the splice-junction pipeline: the rows of the
    gene annotation table, the exon rows derived from them, the records of
    the genome sequence file, and the ways a run can fail. */
module Records {

  datatype Option<+T> = None | Some(value: T)

  /** A run either produces a value or aborts with an error. */
  datatype Result<+T> = Ok(value: T) | Err(error: Error)

  /** The failures that abort a run.
      - UnknownName: the sequence map has no entry for the exon's name
        (Python's KeyError on `sequence_dict[name]`).
      - MissingIndex: the exon row has no donor or acceptor index (its strand
        was neither '+' nor '-', or the index was computed from a missing
        coordinate); `int()` of a missing pandas cell raises.
      - EmptyAlignment: there are no extracted regions, so their maximum
        length is undefined (Python's `max` of an empty generator raises). */
  datatype Error = UnknownName(name: string) | MissingIndex(name: string) | EmptyAlignment

  /** One line of the tab-separated gene annotation table, nine columns.
      The coordinates are optional: a missing cell reads as a missing value. */
  datatype AnnotationRow = AnnotationRow(
    name: string,
    annotationMethod: string,
    feature: string,
    fStart: Option<int>,
    fEnd: Option<int>,
    score: string,
    strand: string,
    readFrame: string,
    attributes: string)

  /** A row of the exon table: the five selected columns plus the two index
      columns that the coordinate loop fills in place (None while unset). */
  datatype ExonRow = ExonRow(
    name: string,
    strand: string,
    feature: string,
    fStart: Option<int>,
    fEnd: Option<int>,
    donorIndex: Option<int>,
    acceptorIndex: Option<int>)

  /** One record of the genome sequence file, already parsed. */
  datatype FastaRecord = FastaRecord(id: string, sequence: string)

  const Exon: string := "exon"
  const Plus: string := "+"
  const Minus: string := "-"
  /** The filler symbol used to right-pad shorter regions. */
  const Filler: char := 'N'
}
