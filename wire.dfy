/**
 * The encoded JTS document, as the datatypes of the JSON structure `toJSON` serializes and
 * `fromJSON` parses. JSON objects keyed by column index become `seq<ColumnEntry>` (the
 * header's columns, in the object's member order) and `map<nat, Field>` (an entry's fields,
 * whose member order no operation depends on).
 */
module Wire {
  import opened Wrappers
  import opened Records

  /** The `docType` every encoded document carries. */
  const DocType: string := "jts"

  /** A header column `{id, name, dataType, units?}`. */
  datatype Column = Column(id: string, name: string, dataType: DataType, units: Option<string>)

  /** One member `"<key>": column` of the header's `columns` object. */
  datatype ColumnEntry = ColumnEntry(key: nat, column: Column)

  /** A field object `{v?, q?, a?}`; a missing member is None. */
  datatype Field = Field(v: Option<Value>, q: Option<int>, a: Option<string>)

  /** A data entry `{ts, f}`: the fields of the records of one epoch second, by column index. */
  datatype Entry = Entry(ts: Timestamp, f: map<nat, Field>)

  datatype Header = Header(startTime: Timestamp, endTime: Timestamp, recordCount: nat, columns: seq<ColumnEntry>)

  /** `{docType, version, header, data}`. */
  datatype EncodedDoc = EncodedDoc(docType: string, version: string, header: Header, data: seq<Entry>)

  /** The keys of a data section, in order. */
  function KeysOf(data: seq<Entry>): (r: seq<string>)
    ensures |r| == |data|
    ensures forall i :: 0 <= i < |data| ==> r[i] == EpochKey(data[i].ts)
  {
    seq(|data|, i requires 0 <= i < |data| => EpochKey(data[i].ts))
  }
}
