/**
 * What `toJSON` and `fromJSON` promise of each other: every encoded document is well
 * formed, and decoding a well-formed document whose field objects survive re-encoding and
 * encoding the result again gives back the same document.
 */
module RoundTrip {
  import opened Wrappers
  import opened Keys
  import opened Records
  import opened Wire
  import opened Encoding
  import opened Decoding

  /**
   * The shape of every document `toJSON` produces: the "jts" document type, a non-empty data
   * section whose header is `__get_header`'s, header columns keyed by position with truthy
   * units, entries in strictly ascending key order, and field objects that name a column
   * and conform to its data type.
   */
  predicate WellFormed(j: EncodedDoc)
  {
    var cols := j.header.columns;
    && j.docType == DocType
    && j.data != []
    && GetHeader(j.data, cols) == Some(j.header)
    && (forall p :: 0 <= p < |cols| ==>
          cols[p].key == p && (cols[p].column.units.Some? ==> cols[p].column.units.value != ""))
    && StrictlySorted(KeysOf(j.data))
    && EntriesFit(j)
  }

  /** Every entry holds a field object, and each names one of the columns and conforms to its data type. */
  predicate EntriesFit(j: EncodedDoc)
  {
    forall e :: e in j.data ==> e.f != map[] && FieldsFit(e, j.header.columns)
  }

  /** Each field object of the entry names one of the columns and conforms to its data type. */
  predicate FieldsFit(e: Entry, cols: seq<ColumnEntry>)
  {
    forall i :: i in e.f ==> i < |cols| && Conforms(e.f[i], cols[i].column.dataType)
  }

  /**
   * Every field object survives a decode and an encode: it is not the empty object (whose
   * record the encoder skips) and its value is truthy (a falsy one is dropped).
   */
  predicate Stable(j: EncodedDoc)
  {
    forall e, i :: e in j.data && i in e.f ==>
      e.f[i] != Field(None, None, None) && (e.f[i].v.Some? ==> Truthy(e.f[i].v.value))
  }

  /** Every document the encoder produces is well formed. */
  lemma EncodeWellFormed(c: Casts, d: Document)
    requires Encode(c, d).Success?
    ensures WellFormed(Encode(c, d).value)
  {
    var data := Data(c, d.series);
    assert Encode(c, d).value.data == data;
    DataShape(c, d.series);
    forall e | e in data ensures e.f != map[] && FieldsFit(e, Columns(d.series)) {
      var a :| 0 <= a < |data| && data[a] == e;
      EncodedEntry(c, d.series, a);
    }
  }

  /** An entry of the data section holds a field object, and each names a column and conforms to it. */
  lemma EncodedEntry(c: Casts, ss: seq<Series>, a: nat)
    requires a < |Data(c, ss)|
    ensures Data(c, ss)[a].f != map[] && FieldsFit(Data(c, ss)[a], Columns(ss))
  {
    var e := Data(c, ss)[a];
    DataShape(c, ss);
    assert KeysOf(Data(c, ss))[a] in KeysOf(Data(c, ss));
    GroupKeys(c, Visits(ss));
    forall i | i in e.f ensures i < |ss| && Conforms(e.f[i], ColumnOf(ss[i]).dataType) {
      EncodedField(c, ss, a, i);
    }
  }

  /** A field object of an encoded entry names a series and conforms to its data type. */
  lemma EncodedField(c: Casts, ss: seq<Series>, a: nat, i: nat)
    requires a < |Data(c, ss)| && i in Data(c, ss)[a].f
    ensures i < |ss| && Conforms(Data(c, ss)[a].f[i], ColumnOf(ss[i]).dataType)
  {
    var v := FieldOrigin(c, ss, a, i);
    VisitsIndex(ss);
  }

  /** Encoding a field object's record, built by the decoder, gives back the field object. */
  lemma FieldRoundTrip(c: Casts, t: Timestamp, fld: Field, dt: DataType)
    requires Conforms(fld, dt) && (fld.v.Some? ==> Truthy(fld.v.value))
    ensures DataColumnFromRecord(c, RecordOf(t, fld), dt) == fld
  {
  }

  /** No two entries share an epoch key. */
  predicate DistinctKeys(data: seq<Entry>)
  {
    forall a, b :: 0 <= a < b < |data| ==> EpochKey(data[a].ts) != EpochKey(data[b].ts)
  }

  /** Distinct entries of a sorted data section have distinct keys. */
  lemma KeysDistinct(data: seq<Entry>)
    requires StrictlySorted(KeysOf(data))
    ensures DistinctKeys(data)
  {
    forall a, b | 0 <= a < b < |data| ensures EpochKey(data[a].ts) != EpochKey(data[b].ts) {
      assert LexLess(KeysOf(data)[a], KeysOf(data)[b]);
      LexLessIrreflexive(KeysOf(data)[a]);
    }
  }

  /** Decoding a well-formed document succeeds: every field names a column. */
  lemma DecodeSucceeds(j: EncodedDoc)
    requires EntriesFit(j)
    ensures Decode(j).Success?
  {
    forall e, i | e in j.data && i in e.f ensures i < |j.header.columns| {
      assert FieldsFit(e, j.header.columns);
    }
    assert !IndexOutOfRange(j);
  }

  /** Decoding a well-formed document gives back its header columns. */
  lemma DecodeColumns(j: EncodedDoc)
    requires WellFormed(j)
    ensures Decode(j).Success?
    ensures Columns(Decode(j).value.series) == j.header.columns
  {
    var cols := j.header.columns;
    DecodeSucceeds(j);
    var ss := Decode(j).value.series;
    forall p | 0 <= p < |cols| ensures Columns(ss)[p] == cols[p] {
      assert ColumnOf(ss[p]) == cols[p].column;
    }
  }

  /** Each record the walk reaches in a decoded document comes from a field object of some entry. */
  lemma OriginEntry(j: EncodedDoc, u: Visit) returns (b: nat)
    requires Decode(j).Success? && u in Visits(Decode(j).value.series)
    ensures b < |j.data| && u.index in j.data[b].f && u.index < |j.header.columns|
    ensures u.record == RecordOf(j.data[b].ts, j.data[b].f[u.index])
    ensures u.dataType == j.header.columns[u.index].column.dataType
  {
    var ss := Decode(j).value.series;
    VisitsMember(ss);
    var p, i :| 0 <= p < |ss| && 0 <= i < |ss[p].records| && u == Visit(p, ss[p].records[i], ss[p].dataType);
    assert ss[p].records[i] in ss[p].records;
    DecodeRecords(j);
    var e :| e in j.data && p in e.f && ss[p].records[i] == RecordOf(e.ts, e.f[p]);
    b :| 0 <= b < |j.data| && j.data[b] == e;
  }

  /** Each field object of an entry is reached by the walk of the decoded document. */
  lemma FieldReached(j: EncodedDoc, a: nat, i: nat)
    requires EntriesFit(j) && a < |j.data| && i in j.data[a].f
    ensures Decode(j).Success? && i < |j.header.columns|
    ensures Visit(i, RecordOf(j.data[a].ts, j.data[a].f[i]), j.header.columns[i].column.dataType)
      in Visits(Decode(j).value.series)
  {
    assert j.data[a] in j.data && FieldsFit(j.data[a], j.header.columns);
    DecodeSucceeds(j);
    var ss := Decode(j).value.series;
    var r := RecordOf(j.data[a].ts, j.data[a].f[i]);
    assert ss[i].records == RecordsAt(i, j.data);
    RecordsAtHas(i, j.data, a);
    var x :| 0 <= x < |ss[i].records| && ss[i].records[x] == r;
    VisitIn(ss, i, x);
  }

  /** The record map of a decoded stable document has an entry exactly for the keys of the data section. */
  lemma DecodedGroupKeys(c: Casts, j: EncodedDoc)
    requires EntriesFit(j) && Stable(j)
    ensures Decode(j).Success?
    ensures forall k :: k in Group(c, Visits(Decode(j).value.series)) <==> k in KeysOf(j.data)
  {
    DecodeSucceeds(j);
    forall k {
      GroupKeyIff(c, j, k);
    }
  }

  lemma GroupKeyIff(c: Casts, j: EncodedDoc, k: string)
    requires EntriesFit(j) && Stable(j) && Decode(j).Success?
    ensures k in Group(c, Visits(Decode(j).value.series)) <==> k in KeysOf(j.data)
  {
    if k in Group(c, Visits(Decode(j).value.series)) {
      GroupKeyFromEntry(c, j, k);
    }
    if k in KeysOf(j.data) {
      var a :| 0 <= a < |j.data| && KeysOf(j.data)[a] == k;
      EntryKeyInGroup(c, j, a);
    }
  }

  /** A key of the decoded record map is the key of some entry. */
  lemma GroupKeyFromEntry(c: Casts, j: EncodedDoc, k: string)
    requires Decode(j).Success? && k in Group(c, Visits(Decode(j).value.series))
    ensures k in KeysOf(j.data)
  {
    var vs := Visits(Decode(j).value.series);
    GroupKeys(c, vs);
    var u :| u in vs && Counts(u) && Key(u) == k;
    var b := OriginEntry(j, u);
    assert KeysOf(j.data)[b] == k;
  }

  /** The key of each entry of a stable document is a key of the decoded record map. */
  lemma EntryKeyInGroup(c: Casts, j: EncodedDoc, a: nat)
    requires EntriesFit(j) && Stable(j) && a < |j.data|
    ensures Decode(j).Success?
    ensures KeysOf(j.data)[a] in Group(c, Visits(Decode(j).value.series))
  {
    var e := j.data[a];
    assert e in j.data;
    var i :| i in e.f;
    FieldReached(j, a, i);
    var vs := Visits(Decode(j).value.series);
    var u := Visit(i, RecordOf(e.ts, e.f[i]), j.header.columns[i].column.dataType);
    assert Counts(u) && Key(u) == KeysOf(j.data)[a];
    GroupKeys(c, vs);
  }

  /** The visit u comes from the entry at position a when it has that entry's key. */
  lemma OriginByKey(j: EncodedDoc, u: Visit, a: nat)
    requires DistinctKeys(j.data) && Decode(j).Success? && u in Visits(Decode(j).value.series)
    requires a < |j.data| && Key(u) == KeysOf(j.data)[a]
    ensures u.index in j.data[a].f && u.index < |j.header.columns|
    ensures u.record == RecordOf(j.data[a].ts, j.data[a].f[u.index])
    ensures u.dataType == j.header.columns[u.index].column.dataType
  {
    var b := OriginEntry(j, u);
    assert b == a by {
      assert u.record.timestamp == j.data[b].ts;
      assert EpochKey(j.data[b].ts) == EpochKey(j.data[a].ts);
    }
  }

  /** In the record map of a decoded stable document, the entry of each key is the data section's. */
  lemma DecodedGroupEntry(c: Casts, j: EncodedDoc, a: nat)
    requires DistinctKeys(j.data) && EntriesFit(j) && Stable(j) && a < |j.data|
    ensures Decode(j).Success?
    ensures KeysOf(j.data)[a] in Group(c, Visits(Decode(j).value.series))
    ensures Group(c, Visits(Decode(j).value.series))[KeysOf(j.data)[a]] == j.data[a]
  {
    EntryKeyInGroup(c, j, a);
    var m := Group(c, Visits(Decode(j).value.series));
    var k, e := KeysOf(j.data)[a], j.data[a];
    DecodedEntryTs(c, j, a);
    DecodedEntryFields(c, j, a);
    DecodedEntryValues(c, j, a);
    SameFields(m[k].f, e.f);
  }

  /** Two field objects maps with the same indices and the same field objects under them are equal. */
  lemma SameFields(f: map<nat, Field>, g: map<nat, Field>)
    requires forall i :: i in f <==> i in g
    requires forall i :: i in f && i in g ==> f[i] == g[i]
    ensures f == g
  {
  }

  /** The entry of the data section's key a carries the data section's timestamp. */
  lemma DecodedEntryTs(c: Casts, j: EncodedDoc, a: nat)
    requires DistinctKeys(j.data) && a < |j.data|
    requires Decode(j).Success? && KeysOf(j.data)[a] in Group(c, Visits(Decode(j).value.series))
    ensures Group(c, Visits(Decode(j).value.series))[KeysOf(j.data)[a]].ts == j.data[a].ts
  {
    var vs := Visits(Decode(j).value.series);
    var m := Group(c, vs);
    var k := KeysOf(j.data)[a];
    GroupKeys(c, vs);
    var u :| u in vs && Counts(u) && Key(u) == k && u.record.timestamp == m[k].ts;
    OriginByKey(j, u, a);
  }

  /** The entry of the data section's key a holds field objects under the same indices. */
  lemma DecodedEntryFields(c: Casts, j: EncodedDoc, a: nat)
    requires DistinctKeys(j.data) && EntriesFit(j) && Stable(j) && a < |j.data|
    requires Decode(j).Success? && KeysOf(j.data)[a] in Group(c, Visits(Decode(j).value.series))
    ensures forall i :: i in Group(c, Visits(Decode(j).value.series))[KeysOf(j.data)[a]].f <==> i in j.data[a].f
  {
    var vs := Visits(Decode(j).value.series);
    var m := Group(c, vs);
    var k, e := KeysOf(j.data)[a], j.data[a];
    GroupFields(c, vs);
    forall i ensures i in m[k].f <==> i in e.f {
      if i in m[k].f {
        var w :| w in vs && Counts(w) && Key(w) == k && w.index == i;
        OriginByKey(j, w, a);
      }
      if i in e.f {
        FieldReached(j, a, i);
        assert e in j.data;
        var w := Visit(i, RecordOf(e.ts, e.f[i]), j.header.columns[i].column.dataType);
        assert Counts(w) && Key(w) == k;
      }
    }
  }

  /** The field objects of the entry of the data section's key a are the data section's. */
  lemma DecodedEntryValues(c: Casts, j: EncodedDoc, a: nat)
    requires DistinctKeys(j.data) && EntriesFit(j) && Stable(j) && a < |j.data|
    requires Decode(j).Success? && KeysOf(j.data)[a] in Group(c, Visits(Decode(j).value.series))
    ensures var f := Group(c, Visits(Decode(j).value.series))[KeysOf(j.data)[a]].f;
      forall i :: i in f && i in j.data[a].f ==> f[i] == j.data[a].f[i]
  {
    var vs := Visits(Decode(j).value.series);
    var m := Group(c, vs);
    var k, e := KeysOf(j.data)[a], j.data[a];
    GroupFieldOrigin(c, vs);
    forall i | i in m[k].f && i in e.f ensures m[k].f[i] == e.f[i] {
      var w :| w in vs && Counts(w) && Key(w) == k && w.index == i &&
        m[k].f[i] == DataColumnFromRecord(c, w.record, w.dataType);
      OriginByKey(j, w, a);
      assert e in j.data;
      FieldRoundTrip(c, e.ts, e.f[i], w.dataType);
    }
  }

  /**
   * Decoding a well-formed, stable document and encoding the result gives back the same
   * document: header, columns, entries and field objects.
   */
  lemma RoundTrip(c: Casts, j: EncodedDoc)
    requires WellFormed(j) && Stable(j)
    ensures Decode(j).Success?
    ensures Encode(c, Decode(j).value) == Success(j)
  {
    DecodeColumns(j);
    DecodedData(c, j);
  }

  /** The data section of a decoded stable document is the document's own. */
  lemma DecodedData(c: Casts, j: EncodedDoc)
    requires WellFormed(j) && Stable(j)
    ensures Decode(j).Success?
    ensures Data(c, Decode(j).value.series) == j.data
  {
    DecodeSucceeds(j);
    var ss := Decode(j).value.series;
    var m := Group(c, Visits(ss));
    var data := j.data;
    DecodedGroupKeys(c, j);
    SortedKeysUnique(KeysOf(data), m.Keys);
    KeysDistinct(data);
    forall a | 0 <= a < |data| ensures Data(c, ss)[a] == data[a] {
      DecodedGroupEntry(c, j, a);
    }
  }

  /** Re-encoding the decoded output of the encoder is a fixed point, whenever that output is stable. */
  lemma EncodeDecodeEncode(c: Casts, d: Document)
    requires Encode(c, d).Success? && Stable(Encode(c, d).value)
    ensures Decode(Encode(c, d).value).Success?
    ensures Encode(c, Decode(Encode(c, d).value).value) == Encode(c, d)
  {
    EncodeWellFormed(c, d);
    RoundTrip(c, Encode(c, d).value);
  }

  /**
   * Documents whose every record holds a truthy value of its series' own kind (a float in a
   * NUMBER series, a str in a TEXT series) encode to stable documents.
   */
  lemma NativeValuesStable(c: Casts, d: Document)
    requires Encode(c, d).Success?
    requires forall p, i :: 0 <= p < |d.series| && 0 <= i < |d.series[p].records| ==>
      NativeValue(d.series[p].records[i], d.series[p].dataType)
    ensures Stable(Encode(c, d).value)
  {
    var data := Data(c, d.series);
    assert Encode(c, d).value.data == data;
    forall e, i | e in data && i in e.f
      ensures e.f[i] != Field(None, None, None) && (e.f[i].v.Some? ==> Truthy(e.f[i].v.value))
    {
      var a :| 0 <= a < |data| && data[a] == e;
      var v := FieldOrigin(c, d.series, a, i);
      VisitsMember(d.series);
      var p, x :| 0 <= p < |d.series| && 0 <= x < |d.series[p].records| &&
        v == Visit(p, d.series[p].records[x], d.series[p].dataType);
      assert NativeValue(v.record, v.dataType);
    }
  }

  /** A truthy value of the series' own kind. */
  predicate NativeValue(r: TsRecord, dt: DataType)
  {
    r.value.Some? && Truthy(r.value.value) &&
    ((dt == NUMBER && r.value.value.Float?) || (dt == TEXT && r.value.value.Str?))
  }

  /**
   * Stability cannot be dropped: a NUMBER record of value 0 encodes to the empty field object,
   * which decodes to a record with nothing in it, and that document no longer encodes.
   */
  lemma EmptyFieldBreaksRoundTrip(c: Casts, t: Timestamp, version: string, id: string, name: string)
    ensures
      var r := TsRecord(t, Some(Int(0)), None, None);
      var d := Document(version, [Series(id, name, None, NUMBER, [r])]);
      && Encode(c, d).Success? && WellFormed(Encode(c, d).value) && !Stable(Encode(c, d).value)
      && Decode(Encode(c, d).value).Success?
      && Encode(c, Decode(Encode(c, d).value).value) == Failure(NoData)
  {
    var r := TsRecord(t, Some(Int(0)), None, None);
    var d := Document(version, [Series(id, name, None, NUMBER, [r])]);
    ZeroValueEncodesEmptyField(c, t, version, id, name);
    EncodeWellFormed(c, d);
    var j := Encode(c, d).value;
    var e := Entry(t, map[0 := Field(None, None, None)]);
    assert j.data == [e];
    assert e in j.data && 0 in e.f;
    EmptyFieldDecodes(c, j, t);
  }

  /** A document whose only field object is empty decodes to a document that no longer encodes. */
  lemma EmptyFieldDecodes(c: Casts, j: EncodedDoc, t: Timestamp)
    requires WellFormed(j) && j.data == [Entry(t, map[0 := Field(None, None, None)])]
    ensures Decode(j).Success?
    ensures Encode(c, Decode(j).value) == Failure(NoData)
  {
    DecodeSucceeds(j);
    var d := Decode(j).value;
    assert RecordsAt(0, j.data) == [TsRecord(t, None, None, None)] by {
      assert j.data[..0] == [];
    }
    forall p, x | 0 <= p < |d.series| && 0 <= x < |d.series[p].records| ensures Skipped(d.series[p].records[x]) {
      assert p in j.data[0].f by {
        RecordsAtMember(p, j.data);
        assert d.series[p].records[x] in RecordsAt(p, j.data);
      }
    }
    EncodeFailsIffAllSkipped(c, d);
  }

  /**
   * The casts keep the truth of every value the encoder casts in the series ss: `float` of a
   * non-empty str or of a non-zero int is not zero, and `str` of a non-zero number is not
   * empty. Python's `float("0")` breaks the first of these, see `ZeroTextBreaksRoundTrip`.
   */
  ghost predicate CastsKeepTruth(c: Casts, ss: seq<Series>)
  {
    forall p, x :: 0 <= p < |ss| && 0 <= x < |ss[p].records| ==> CastKeepsTruth(c, ss[p].records[x], ss[p].dataType)
  }

  /** The cast the encoder applies to the value of r, in a series of type dt, keeps its truth. */
  predicate CastKeepsTruth(c: Casts, r: TsRecord, dt: DataType)
  {
    r.value.Some? && Truthy(r.value.value) ==>
      match r.value.value
      case Int(i) => (dt == NUMBER ==> c.intToFloat(i) != 0.0) && (dt == TEXT ==> c.formatInt(i) != "")
      case Float(x) => dt == TEXT ==> c.formatFloat(x) != ""
      case Str(s) => dt == NUMBER ==> c.parseFloat(s) != 0.0
  }

  /** When the casts keep truth, an encoder output whose field objects are all non-empty is stable. */
  lemma NonEmptyFieldsStable(c: Casts, d: Document)
    requires CastsKeepTruth(c, d.series)
    requires Encode(c, d).Success?
    requires forall e, i :: e in Encode(c, d).value.data && i in e.f ==> e.f[i] != Field(None, None, None)
    ensures Stable(Encode(c, d).value)
  {
    var data := Data(c, d.series);
    assert Encode(c, d).value.data == data;
    forall e, i | e in data && i in e.f && e.f[i].v.Some? ensures Truthy(e.f[i].v.value) {
      var a :| 0 <= a < |data| && data[a] == e;
      var v := FieldOrigin(c, d.series, a, i);
      VisitsMember(d.series);
      var p, x :| 0 <= p < |d.series| && 0 <= x < |d.series[p].records| &&
        v == Visit(p, d.series[p].records[x], d.series[p].dataType);
      TruthKept(c, v.record, v.dataType);
    }
  }

  /** The record an encoded field object comes from. */
  lemma FieldOrigin(c: Casts, ss: seq<Series>, a: nat, i: nat) returns (v: Visit)
    requires a < |Data(c, ss)| && i in Data(c, ss)[a].f
    ensures v in Visits(ss) && Counts(v) && v.index == i
    ensures Data(c, ss)[a].f[i] == DataColumnFromRecord(c, v.record, v.dataType)
  {
    var data := Data(c, ss);
    var vs := Visits(ss);
    var m := Group(c, vs);
    var k := KeysOf(data)[a];
    DataShape(c, ss);
    assert k in KeysOf(data);
    GroupFieldOrigin(c, vs);
    v :| v in vs && Counts(v) && Key(v) == k && v.index == i &&
      m[k].f[i] == DataColumnFromRecord(c, v.record, v.dataType);
  }

  /** When the cast keeps truth, an encoded value is truthy. */
  lemma TruthKept(c: Casts, r: TsRecord, dt: DataType)
    requires CastKeepsTruth(c, r, dt) && DataColumnFromRecord(c, r, dt).v.Some?
    ensures Truthy(DataColumnFromRecord(c, r, dt).v.value)
  {
  }

  /**
   * Re-encoding the decoded output of the encoder gives the same document when every field
   * object of that output is non-empty and the casts keep the truth of the document's values.
   */
  lemma NonEmptyFieldsRoundTrip(c: Casts, d: Document)
    requires CastsKeepTruth(c, d.series)
    requires Encode(c, d).Success?
    requires forall e, i :: e in Encode(c, d).value.data && i in e.f ==> e.f[i] != Field(None, None, None)
    ensures Decode(Encode(c, d).value).Success?
    ensures Encode(c, Decode(Encode(c, d).value).value) == Encode(c, d)
  {
    NonEmptyFieldsStable(c, d);
    EncodeDecodeEncode(c, d);
  }

  /**
   * The cast condition cannot be dropped: with Python's `float("0") == 0.0`, a NUMBER series
   * holding the str "0" encodes to the non-empty field object `{v: 0.0}`, which decodes to a
   * record of value 0.0, and that record re-encodes to the empty field object.
   */
  lemma ZeroTextBreaksRoundTrip(c: Casts, t: Timestamp, version: string, id: string, name: string)
    requires c.parseFloat("0") == 0.0
    ensures
      var r := TsRecord(t, Some(Str("0")), None, None);
      var d := Document(version, [Series(id, name, None, NUMBER, [r])]);
      && !CastsKeepTruth(c, d.series)
      && Encode(c, d).Success?
      && (forall e, i :: e in Encode(c, d).value.data && i in e.f ==> e.f[i] != Field(None, None, None))
      && Decode(Encode(c, d).value).Success?
      && Encode(c, Decode(Encode(c, d).value).value) != Encode(c, d)
  {
    var r := TsRecord(t, Some(Str("0")), None, None);
    var s := Series(id, name, None, NUMBER, [r]);
    var full := Field(Some(Float(0.0)), None, None);
    var j := OneRecordEncode(c, version, s);
    var s2 := OneFieldDecode(j, full);
    var j2 := OneRecordEncode(c, version, s2);
    assert j2.data[0].f[0] != j.data[0].f[0];
  }
}
