/**
 * `JtsDocument.fromJSON` as a specification: the decoded document is a function of the
 * encoded one. `JtsDocument.FromJson` in module Jts builds it with the loops of the source.
 */
module Decoding {
  import opened Wrappers
  import opened Records
  import opened Wire

  /** The record built from an entry's `ts` and one of its field objects: a missing member is None. */
  function RecordOf(ts: Timestamp, fld: Field): (r: TsRecord)
    ensures r.timestamp == ts
    ensures Skipped(r) <==> fld == Field(None, None, None)
  {
    TsRecord(ts, fld.v, fld.q, fld.a)
  }

  /** The records inserted into the series at position p: one per entry with a field under p, in entry order. */
  function RecordsAt(p: nat, data: seq<Entry>): seq<TsRecord>
  {
    if data == [] then []
    else
      var e := data[|data| - 1];
      RecordsAt(p, data[..|data| - 1]) + if p in e.f then [RecordOf(e.ts, e.f[p])] else []
  }

  /** The empty series built from a header column. */
  function SeriesOf(col: Column, records: seq<TsRecord>): Series
  {
    Series(col.id, col.name, col.units, col.dataType, records)
  }

  /** Some field names a series index that the header's columns did not create. */
  predicate IndexOutOfRange(j: EncodedDoc)
  {
    exists e, i :: e in j.data && i in e.f && i >= |j.header.columns|
  }

  /**
   * `fromJSON`: one series per header column, in the columns' member order (their keys are
   * not read), then one record per field object appended to the series its index names;
   * an index past the last series raises IndexError.
   */
  function Decode(j: EncodedDoc): (r: Result<Document, Error>)
    ensures r.Failure? <==> IndexOutOfRange(j)
    ensures r.Failure? ==> r.error == IndexError
    ensures r.Success? ==> r.value.version == j.version && |r.value.series| == |j.header.columns|
    ensures r.Success? ==> forall p :: 0 <= p < |j.header.columns| ==>
      var col, s := j.header.columns[p].column, r.value.series[p];
      s.identifier == col.id && s.name == col.name && s.units == col.units && s.dataType == col.dataType
  {
    var cols := j.header.columns;
    if IndexOutOfRange(j) then Failure(IndexError)
    else Success(Document(j.version,
      seq(|cols|, p requires 0 <= p < |cols| => SeriesOf(cols[p].column, RecordsAt(p, j.data)))))
  }

  /** The series at position p receives a record for exactly the entries with a field under p. */
  lemma {:induction false} RecordsAtMember(p: nat, data: seq<Entry>)
    ensures forall r :: r in RecordsAt(p, data) <==>
      exists e :: e in data && p in e.f && r == RecordOf(e.ts, e.f[p])
  {
    if data != [] {
      var n := |data| - 1;
      RecordsAtMember(p, data[..n]);
      assert data == data[..n] + [data[n]];
      assert forall e :: e in data <==> e in data[..n] || e == data[n];
    }
  }

  /** Every field object of the data section becomes one record of the series its index names. */
  lemma DecodeRecords(j: EncodedDoc)
    requires Decode(j).Success?
    ensures var ss := Decode(j).value.series;
      forall p, r :: 0 <= p < |ss| ==>
        (r in ss[p].records <==> exists e :: e in j.data && p in e.f && r == RecordOf(e.ts, e.f[p]))
  {
    var ss := Decode(j).value.series;
    forall p | 0 <= p < |ss| ensures ss[p].records == RecordsAt(p, j.data) {
    }
    forall p | 0 <= p < |ss| {
      RecordsAtMember(p, j.data);
    }
  }

  /** The series at position p receives the record of an entry's field under p. */
  lemma RecordsAtHas(p: nat, data: seq<Entry>, a: nat)
    requires a < |data| && p in data[a].f
    ensures RecordOf(data[a].ts, data[a].f[p]) in RecordsAt(p, data)
  {
    RecordsAtMember(p, data);
    assert data[a] in data;
  }

  /** A document of one column and one entry holding one field object decodes to one series of one record. */
  lemma OneFieldDecode(j: EncodedDoc, fld: Field) returns (s: Series)
    requires |j.header.columns| == 1 && |j.data| == 1 && j.data[0].f == map[0 := fld]
    ensures Decode(j).Success? && Decode(j).value.series == [s]
    ensures s == SeriesOf(j.header.columns[0].column, [RecordOf(j.data[0].ts, fld)])
  {
    assert !IndexOutOfRange(j) by {
      forall e, i | e in j.data && i in e.f ensures i < 1 {
        assert e == j.data[0];
      }
    }
    assert RecordsAt(0, j.data) == [RecordOf(j.data[0].ts, fld)] by {
      assert j.data[..0] == [];
    }
    s := SeriesOf(j.header.columns[0].column, [RecordOf(j.data[0].ts, fld)]);
  }
}
