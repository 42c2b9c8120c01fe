/**
 * `JtsDocument.toJSON` as a specification: the encoded document is a function of the
 * document's state. The methods of module Jts compute it with the loops of the source and
 * are proved equal to these functions; the lemmas here state what the encoding promises.
 */
module Encoding {
  import opened Wrappers
  import opened Keys
  import opened Records
  import opened Wire

  /**
   * A field object the column of a series of type `dt` may hold: `v` only for NUMBER (a
   * float) and TEXT (a str), `q` and `a` only when truthy.
   */
  predicate Conforms(fld: Field, dt: DataType)
  {
    && (fld.v.Some? ==> (dt == NUMBER && fld.v.value.Float?) || (dt == TEXT && fld.v.value.Str?))
    && (fld.q.Some? ==> fld.q.value != 0)
    && (fld.a.Some? ==> fld.a.value != "")
  }

  /** The field object `{v?, q?, a?}` of one record of a series of type `dt`. */
  function DataColumnFromRecord(c: Casts, r: TsRecord, dt: DataType): (fld: Field)
    ensures Conforms(fld, dt)
    ensures fld.v.Some? <==> r.value.Some? && Truthy(r.value.value) && (dt == NUMBER || dt == TEXT)
    ensures fld.v.Some? && dt == NUMBER ==> fld.v.value == Float(ToFloat(c, r.value.value))
    ensures fld.v.Some? && dt == TEXT ==> fld.v.value == Str(ToStr(c, r.value.value))
    ensures fld.q.Some? <==> r.quality.Some? && r.quality.value != 0
    ensures fld.q.Some? ==> fld.q == r.quality
    ensures fld.a.Some? <==> r.annotation.Some? && r.annotation.value != ""
    ensures fld.a.Some? ==> fld.a == r.annotation
  {
    var v :=
      if r.value.Some? && Truthy(r.value.value) then
        if dt == NUMBER then Some(Float(ToFloat(c, r.value.value)))
        else if dt == TEXT then Some(Str(ToStr(c, r.value.value)))
        else None
      else None;
    var q := if r.quality.Some? && r.quality.value != 0 then r.quality else None;
    var a := if r.annotation.Some? && r.annotation.value != "" then r.annotation else None;
    Field(v, q, a)
  }

  /** The encoder reaching one record: the series' positional index, the record, the series' type. */
  datatype Visit = Visit(index: nat, record: TsRecord, dataType: DataType)

  function SeriesVisits(index: nat, s: Series): (vs: seq<Visit>)
    ensures |vs| == |s.records|
    ensures forall j :: 0 <= j < |vs| ==> vs[j] == Visit(index, s.records[j], s.dataType)
  {
    seq(|s.records|, j requires 0 <= j < |s.records| => Visit(index, s.records[j], s.dataType))
  }

  /** The encoder's walk: the series in positional order, the records of each in order. */
  function Visits(ss: seq<Series>): seq<Visit>
  {
    if ss == [] then [] else Visits(ss[..|ss| - 1]) + SeriesVisits(|ss| - 1, ss[|ss| - 1])
  }

  /** A visited record that the encoder does not skip. */
  predicate Counts(v: Visit)
  {
    !Skipped(v.record)
  }

  function Key(v: Visit): string
  {
    EpochKey(v.record.timestamp)
  }

  /**
   * One iteration of the inner loop of `__get_data`: a skipped record changes nothing;
   * otherwise the entry of the record's key is created with the record's timestamp if it
   * does not exist yet, and the record's field object is written under the series index.
   */
  function Step(c: Casts, m: map<string, Entry>, v: Visit): map<string, Entry>
  {
    if Skipped(v.record) then m
    else
      var key := Key(v);
      var e := if key in m then m[key] else Entry(v.record.timestamp, map[]);
      m[key := e.(f := e.f[v.index := DataColumnFromRecord(c, v.record, v.dataType)])]
  }

  /** The `record_map` after the walk has gone through `vs`. */
  function Group(c: Casts, vs: seq<Visit>): map<string, Entry>
  {
    if vs == [] then map[] else Step(c, Group(c, vs[..|vs| - 1]), vs[|vs| - 1])
  }

  /** The data section: the entries of `record_map` sorted by key. */
  ghost function Data(c: Casts, ss: seq<Series>): seq<Entry>
  {
    var m := Group(c, Visits(ss));
    var keys := SortedKeys(m.Keys);
    seq(|keys|, i requires 0 <= i < |keys| => m[keys[i]])
  }

  /** The header column of a series: `units` only when it is truthy. */
  function ColumnOf(s: Series): (col: Column)
    ensures col.units.Some? <==> s.units.Some? && s.units.value != ""
    ensures col.units.Some? ==> col.units == s.units
  {
    Column(s.identifier, s.name, s.dataType, if s.units.Some? && s.units.value != "" then s.units else None)
  }

  /** The header's `columns`: one member per series, keyed by its positional index. */
  function Columns(ss: seq<Series>): (cols: seq<ColumnEntry>)
    ensures |cols| == |ss|
    ensures forall p :: 0 <= p < |ss| ==> cols[p].key == p && cols[p].column == ColumnOf(ss[p])
  {
    seq(|ss|, p requires 0 <= p < |ss| => ColumnEntry(p, ColumnOf(ss[p])))
  }

  /** `__get_header`: None for an empty data section. */
  function GetHeader(data: seq<Entry>, columns: seq<ColumnEntry>): (h: Option<Header>)
    ensures h.None? <==> data == []
    ensures h.Some? ==> h.value.recordCount == |data| && h.value.columns == columns
    ensures h.Some? ==> h.value.startTime == data[0].ts && h.value.endTime == data[|data| - 1].ts
  {
    if data == [] then None
    else Some(Header(data[0].ts, data[|data| - 1].ts, |data|, columns))
  }

  /** `__build`: the encoded document, or the exception raised when there is no data. */
  ghost function Encode(c: Casts, d: Document): Result<EncodedDoc, Error>
  {
    var data := Data(c, d.series);
    if data == [] then Failure(NoData)
    else Success(EncodedDoc(DocType, d.version, GetHeader(data, Columns(d.series)).value, data))
  }

  // ---------------------------------------------------------------------------------------
  // The walk

  /** A visit of the walk is a record of a series, tagged with the series' index and type. */
  lemma {:induction false} VisitsMember(ss: seq<Series>)
    ensures forall v :: v in Visits(ss) <==>
      exists p, j :: 0 <= p < |ss| && 0 <= j < |ss[p].records| && v == Visit(p, ss[p].records[j], ss[p].dataType)
  {
    if ss != [] {
      var n := |ss| - 1;
      VisitsMember(ss[..n]);
      assert Visits(ss) == Visits(ss[..n]) + SeriesVisits(n, ss[n]);
      forall v | v in Visits(ss)
        ensures exists p, j :: 0 <= p < |ss| && 0 <= j < |ss[p].records| && v == Visit(p, ss[p].records[j], ss[p].dataType)
      {
        if v in Visits(ss[..n]) {
          var p, j :| 0 <= p < n && 0 <= j < |ss[..n][p].records| && v == Visit(p, ss[..n][p].records[j], ss[..n][p].dataType);
          assert ss[..n][p] == ss[p];
        } else {
          var j :| 0 <= j < |SeriesVisits(n, ss[n])| && SeriesVisits(n, ss[n])[j] == v;
        }
      }
      forall p, j | 0 <= p < |ss| && 0 <= j < |ss[p].records|
        ensures Visit(p, ss[p].records[j], ss[p].dataType) in Visits(ss)
      {
        if p < n {
          assert ss[..n][p] == ss[p];
          assert Visit(p, ss[p].records[j], ss[p].dataType) in Visits(ss[..n]);
        } else {
          assert SeriesVisits(n, ss[n])[j] == Visit(p, ss[p].records[j], ss[p].dataType);
        }
      }
    }
  }

  /** The walk reaches record x of series p. */
  lemma VisitIn(ss: seq<Series>, p: nat, x: nat)
    requires p < |ss| && x < |ss[p].records|
    ensures Visit(p, ss[p].records[x], ss[p].dataType) in Visits(ss)
  {
    VisitsMember(ss);
  }

  /** Each visit names a series of the document and carries that series' data type. */
  lemma VisitsIndex(ss: seq<Series>)
    ensures forall v :: v in Visits(ss) ==> v.index < |ss| && v.dataType == ss[v.index].dataType
  {
    VisitsMember(ss);
  }

  // ---------------------------------------------------------------------------------------
  // Grouping

  /** Some record of the walk that is not skipped has key k. */
  ghost predicate Reaches(vs: seq<Visit>, k: string)
  {
    exists v :: v in vs && Counts(v) && Key(v) == k
  }

  /** Some record of series i that is not skipped has key k. */
  ghost predicate ReachesField(vs: seq<Visit>, k: string, i: nat)
  {
    exists v :: v in vs && Counts(v) && Key(v) == k && v.index == i
  }

  lemma SplitLast(vs: seq<Visit>)
    requires vs != []
    ensures forall u :: u in vs <==> u in vs[..|vs| - 1] || u == vs[|vs| - 1]
  {
    assert vs == vs[..|vs| - 1] + [vs[|vs| - 1]];
  }

  /**
   * The record map has an entry exactly for the keys of the records not skipped; an entry's
   * key is that of its own `ts`, which is the timestamp of one of those records, and it
   * holds at least one field object.
   */
  lemma {:induction false} GroupKeys(c: Casts, vs: seq<Visit>)
    ensures forall k :: k in Group(c, vs) <==> Reaches(vs, k)
    ensures forall k :: k in Group(c, vs) ==>
      && EpochKey(Group(c, vs)[k].ts) == k
      && Group(c, vs)[k].f != map[]
      && exists v :: v in vs && Counts(v) && Key(v) == k && v.record.timestamp == Group(c, vs)[k].ts
  {
    if vs != [] {
      var n := |vs| - 1;
      var m0, v := Group(c, vs[..n]), vs[n];
      var m := Group(c, vs);
      assert m == Step(c, m0, v);
      GroupKeys(c, vs[..n]);
      SplitLast(vs);
      forall k ensures k in m <==> Reaches(vs, k) {
        if Reaches(vs, k) {
          var u :| u in vs && Counts(u) && Key(u) == k;
          if u != v { assert Reaches(vs[..n], k); }
        }
        if k in m0 {
          assert Reaches(vs[..n], k);
          var u :| u in vs[..n] && Counts(u) && Key(u) == k;
          assert u in vs;
        }
      }
      forall k | k in m ensures EpochKey(m[k].ts) == k && m[k].f != map[] {
        if Counts(v) && k == Key(v) {
          assert v.index in m[k].f;
        }
      }
      forall k | k in m
        ensures exists u :: u in vs && Counts(u) && Key(u) == k && u.record.timestamp == m[k].ts
      {
        if k in m0 && m[k].ts == m0[k].ts {
          var u :| u in vs[..n] && Counts(u) && Key(u) == k && u.record.timestamp == m0[k].ts;
          assert u in vs;
        } else {
          assert v in vs;
        }
      }
    }
  }

  /** One more visited record is one more step of the record map. */
  lemma GroupSnoc(c: Casts, vs: seq<Visit>, v: Visit)
    ensures Group(c, vs + [v]) == Step(c, Group(c, vs), v)
  {
    assert (vs + [v])[..|vs|] == vs;
  }

  /** An entry holds a field object under index i exactly when some record of series i has the entry's key. */
  lemma {:induction false} GroupFields(c: Casts, vs: seq<Visit>)
    ensures forall k, i :: k in Group(c, vs) ==> (i in Group(c, vs)[k].f <==> ReachesField(vs, k, i))
  {
    if vs != [] {
      var n := |vs| - 1;
      var m0, v := Group(c, vs[..n]), vs[n];
      var m := Group(c, vs);
      assert m == Step(c, m0, v);
      GroupFields(c, vs[..n]);
      GroupKeys(c, vs[..n]);
      forall k, i | k in m ensures i in m[k].f <==> ReachesField(vs, k, i) {
        ReachesFieldLast(vs, k, i);
        if k !in m0 {
          assert !Reaches(vs[..n], k);
          assert !ReachesField(vs[..n], k, i);
        }
      }
    }
  }

  /** A walk reaches a field under key k when its prefix does or its last visit is that field. */
  lemma ReachesFieldLast(vs: seq<Visit>, k: string, i: nat)
    requires vs != []
    ensures ReachesField(vs, k, i) <==>
      ReachesField(vs[..|vs| - 1], k, i) || (Counts(vs[|vs| - 1]) && Key(vs[|vs| - 1]) == k && vs[|vs| - 1].index == i)
  {
    SplitLast(vs);
    if ReachesField(vs, k, i) {
      var u :| u in vs && Counts(u) && Key(u) == k && u.index == i;
    }
    if ReachesField(vs[..|vs| - 1], k, i) {
      var u :| u in vs[..|vs| - 1] && Counts(u) && Key(u) == k && u.index == i;
    }
  }

  /** The field object under index i is the one of some record of series i with the entry's key. */
  lemma {:induction false} GroupFieldOrigin(c: Casts, vs: seq<Visit>)
    ensures forall k, i :: k in Group(c, vs) && i in Group(c, vs)[k].f ==>
      exists v :: v in vs && Counts(v) && Key(v) == k && v.index == i &&
        Group(c, vs)[k].f[i] == DataColumnFromRecord(c, v.record, v.dataType)
  {
    if vs != [] {
      var n := |vs| - 1;
      var m0, v := Group(c, vs[..n]), vs[n];
      var m := Group(c, vs);
      assert m == Step(c, m0, v);
      GroupFieldOrigin(c, vs[..n]);
      SplitLast(vs);
      forall k, i | k in m && i in m[k].f
        ensures exists u :: (u in vs && Counts(u) && Key(u) == k && u.index == i &&
          m[k].f[i] == DataColumnFromRecord(c, u.record, u.dataType))
      {
        if Counts(v) && Key(v) == k && v.index == i {
          assert v in vs;
        } else {
          var u :| u in vs[..n] && Counts(u) && Key(u) == k && u.index == i &&
            m0[k].f[i] == DataColumnFromRecord(c, u.record, u.dataType);
          assert u in vs;
        }
      }
    }
  }

  /**
   * The first record of the walk to reach a key sets the entry's `ts`: later records with
   * the same key, whatever their sub-second part, leave it alone.
   */
  lemma {:induction false} GroupTsFirst(c: Casts, vs: seq<Visit>, p: nat)
    requires p < |vs| && Counts(vs[p])
    requires forall q :: 0 <= q < p ==> !(Counts(vs[q]) && Key(vs[q]) == Key(vs[p]))
    ensures Key(vs[p]) in Group(c, vs)
    ensures Group(c, vs)[Key(vs[p])].ts == vs[p].record.timestamp
    decreases |vs|
  {
    var n := |vs| - 1;
    if p == n {
      GroupKeys(c, vs[..n]);
      forall u | u in vs[..n] ensures !(Counts(u) && Key(u) == Key(vs[p])) {
        var q :| 0 <= q < n && vs[..n][q] == u;
      }
      assert !Reaches(vs[..n], Key(vs[p]));
    } else {
      GroupTsFirst(c, vs[..n], p);
    }
  }

  /**
   * The last record of the walk with a given key and series index decides the field object:
   * of two records of one series in the same second, the later one is kept.
   */
  lemma {:induction false} GroupFieldLast(c: Casts, vs: seq<Visit>, p: nat)
    requires p < |vs| && Counts(vs[p])
    requires forall q :: p < q < |vs| ==>
      !(Counts(vs[q]) && Key(vs[q]) == Key(vs[p]) && vs[q].index == vs[p].index)
    ensures Key(vs[p]) in Group(c, vs)
    ensures vs[p].index in Group(c, vs)[Key(vs[p])].f
    ensures Group(c, vs)[Key(vs[p])].f[vs[p].index] == DataColumnFromRecord(c, vs[p].record, vs[p].dataType)
    decreases |vs|
  {
    var n := |vs| - 1;
    if p < n {
      GroupFieldLast(c, vs[..n], p);
    }
  }

  /** Records that are skipped might as well not be there. */
  lemma {:induction false} SkippedRecordsVanish(c: Casts, vs: seq<Visit>)
    ensures Group(c, vs) == Group(c, CountedOnly(vs))
  {
    if vs != [] {
      var n := |vs| - 1;
      var prefix := CountedOnly(vs[..n]);
      SkippedRecordsVanish(c, vs[..n]);
      assert vs == vs[..n] + [vs[n]];
      CountedOnlyAppend(vs[..n], vs[n]);
      assert Group(c, vs) == Step(c, Group(c, prefix), vs[n]);
      if Counts(vs[n]) {
        assert CountedOnly(vs) == prefix + [vs[n]];
        GroupSnoc(c, prefix, vs[n]);
      } else {
        assert CountedOnly(vs) == prefix;
      }
    }
  }

  /** The walk without its skipped records: exactly the visits that count, in walk order. */
  function CountedOnly(vs: seq<Visit>): (r: seq<Visit>)
    ensures forall v :: v in r <==> v in vs && Counts(v)
    ensures |r| <= |vs|
  {
    if vs == [] then []
    else if Counts(vs[0]) then [vs[0]] + CountedOnly(vs[1..])
    else CountedOnly(vs[1..])
  }

  lemma {:induction false} CountedOnlyAppend(vs: seq<Visit>, v: Visit)
    ensures CountedOnly(vs + [v]) == CountedOnly(vs) + (if Counts(v) then [v] else [])
  {
    if vs != [] {
      assert (vs + [v])[1..] == vs[1..] + [v];
      CountedOnlyAppend(vs[1..], v);
    }
  }

  // ---------------------------------------------------------------------------------------
  // The data section

  /** The data section is the record map in strictly ascending key order. */
  lemma DataShape(c: Casts, ss: seq<Series>)
    ensures var data := Data(c, ss); var m := Group(c, Visits(ss));
      && StrictlySorted(KeysOf(data))
      && (forall k :: k in KeysOf(data) <==> k in m)
      && (forall i :: 0 <= i < |data| ==> data[i] == m[KeysOf(data)[i]])
  {
    var m := Group(c, Visits(ss));
    var keys := SortedKeys(m.Keys);
    GroupKeys(c, Visits(ss));
    forall i | 0 <= i < |keys| ensures KeysOf(Data(c, ss))[i] == keys[i] {
      assert keys[i] in keys;
      assert Data(c, ss)[i] == m[keys[i]];
    }
    assert KeysOf(Data(c, ss)) == keys;
  }

  /** Data is empty exactly when the record map is. */
  lemma DataEmpty(c: Casts, ss: seq<Series>)
    ensures Data(c, ss) == [] <==> Group(c, Visits(ss)) == map[]
    ensures |Data(c, ss)| == |Group(c, Visits(ss)).Keys|
  {
    var m := Group(c, Visits(ss));
    assert |Data(c, ss)| == |SortedKeys(m.Keys)| == |m.Keys|;
    assert m == map[] <==> m.Keys == {};
  }

  // ---------------------------------------------------------------------------------------
  // What the encoding promises

  /**
   * Building fails, with the "Cannot build without jts 'data'" exception, exactly when every
   * record of every series has neither value, quality nor annotation.
   */
  lemma EncodeFailsIffAllSkipped(c: Casts, d: Document)
    ensures Encode(c, d).Failure? <==>
      forall p, j :: 0 <= p < |d.series| && 0 <= j < |d.series[p].records| ==> Skipped(d.series[p].records[j])
    ensures Encode(c, d).Failure? ==> Encode(c, d).error == NoData
  {
    var ss := d.series;
    var m := Group(c, Visits(ss));
    DataEmpty(c, ss);
    GroupKeysRecorded(c, ss);
    assert m == map[] <==> m.Keys == {};
    forall p, j | 0 <= p < |ss| && 0 <= j < |ss[p].records| && !Skipped(ss[p].records[j])
      ensures Encode(c, d).Success?
    {
      assert EpochKey(ss[p].records[j].timestamp) in RecordedKeys(ss);
    }
    if RecordedKeys(ss) != {} {
      var k :| k in RecordedKeys(ss);
    }
  }

  /** Some record of some series, not skipped, has key k. */
  ghost predicate Recorded(ss: seq<Series>, k: string)
  {
    exists p, j :: 0 <= p < |ss| && 0 <= j < |ss[p].records| &&
      (!Skipped(ss[p].records[j]) && EpochKey(ss[p].records[j].timestamp) == k)
  }

  /** The keys of all records not skipped. */
  ghost function RecordedKeys(ss: seq<Series>): set<string>
  {
    set p, j | 0 <= p < |ss| && 0 <= j < |ss[p].records| && !Skipped(ss[p].records[j]) ::
      EpochKey(ss[p].records[j].timestamp)
  }

  lemma ReachesIffRecorded(ss: seq<Series>)
    ensures forall k :: Reaches(Visits(ss), k) <==> Recorded(ss, k)
  {
    var vs := Visits(ss);
    VisitsMember(ss);
    forall k ensures Reaches(vs, k) <==> Recorded(ss, k) {
      if Reaches(vs, k) {
        var v :| v in vs && Counts(v) && Key(v) == k;
      }
      if Recorded(ss, k) {
        var p, j :| 0 <= p < |ss| && 0 <= j < |ss[p].records| &&
          (!Skipped(ss[p].records[j]) && EpochKey(ss[p].records[j].timestamp) == k);
        assert Visit(p, ss[p].records[j], ss[p].dataType) in vs;
      }
    }
  }

  /**
   * The data section holds one entry per distinct key of the records not skipped, and no
   * other, in strictly ascending key order.
   */
  lemma EncodeEntries(c: Casts, d: Document)
    requires Encode(c, d).Success?
    ensures StrictlySorted(KeysOf(Encode(c, d).value.data))
    ensures forall k :: k in KeysOf(Encode(c, d).value.data) <==> Recorded(d.series, k)
  {
    DataShape(c, d.series);
    GroupKeys(c, Visits(d.series));
    ReachesIffRecorded(d.series);
  }

  /**
   * The entry of a key carries the timestamp of the first record of the walk (series order,
   * then record order) that has that key.
   */
  lemma EncodeTsFirst(c: Casts, d: Document, p: nat)
    requires p < |Visits(d.series)| && Counts(Visits(d.series)[p])
    requires forall q :: 0 <= q < p ==>
      !(Counts(Visits(d.series)[q]) && Key(Visits(d.series)[q]) == Key(Visits(d.series)[p]))
    ensures Encode(c, d).Success?
    ensures exists i :: (0 <= i < |Encode(c, d).value.data| &&
      KeysOf(Encode(c, d).value.data)[i] == Key(Visits(d.series)[p]) &&
      Encode(c, d).value.data[i].ts == Visits(d.series)[p].record.timestamp)
  {
    var vs := Visits(d.series);
    GroupTsFirst(c, vs, p);
    DataShape(c, d.series);
    DataEmpty(c, d.series);
    var data := Data(c, d.series);
    assert Key(vs[p]) in KeysOf(data);
    var i :| 0 <= i < |data| && KeysOf(data)[i] == Key(vs[p]);
  }

  /**
   * The field object of a series in an entry is that of the last record of the series, in
   * record order, that has the entry's key.
   */
  lemma EncodeFieldLast(c: Casts, d: Document, p: nat)
    requires p < |Visits(d.series)| && Counts(Visits(d.series)[p])
    requires forall q :: p < q < |Visits(d.series)| ==>
      !(Counts(Visits(d.series)[q]) && Key(Visits(d.series)[q]) == Key(Visits(d.series)[p]) &&
        Visits(d.series)[q].index == Visits(d.series)[p].index)
    ensures Encode(c, d).Success?
    ensures exists i :: (0 <= i < |Encode(c, d).value.data| &&
      KeysOf(Encode(c, d).value.data)[i] == Key(Visits(d.series)[p]) &&
      Visits(d.series)[p].index in Encode(c, d).value.data[i].f &&
      Encode(c, d).value.data[i].f[Visits(d.series)[p].index] ==
        DataColumnFromRecord(c, Visits(d.series)[p].record, Visits(d.series)[p].dataType))
  {
    var vs := Visits(d.series);
    GroupFieldLast(c, vs, p);
    DataShape(c, d.series);
    DataEmpty(c, d.series);
    var data := Data(c, d.series);
    assert Key(vs[p]) in KeysOf(data);
    var i :| 0 <= i < |data| && KeysOf(data)[i] == Key(vs[p]);
  }

  /**
   * The header: `startTime` and `endTime` are the `ts` of the entries with the least and the
   * greatest key, `recordCount` the number of distinct keys among the records not skipped,
   * and `columns` has one member per series.
   */
  lemma EncodeHeader(c: Casts, d: Document)
    requires Encode(c, d).Success?
    ensures var j := Encode(c, d).value;
      && j.docType == DocType && j.version == d.version
      && j.header.startTime == j.data[0].ts && j.header.endTime == j.data[|j.data| - 1].ts
      && (forall i :: 0 <= i < |j.data| ==>
            !LexLess(KeysOf(j.data)[i], EpochKey(j.header.startTime)) &&
            !LexLess(EpochKey(j.header.endTime), KeysOf(j.data)[i]))
      && j.header.recordCount == |RecordedKeys(d.series)|
      && j.header.columns == Columns(d.series)
  {
    var j := Encode(c, d).value;
    DataShape(c, d.series);
    SortedBounds(KeysOf(j.data));
    DataEmpty(c, d.series);
    GroupKeysRecorded(c, d.series);
  }

  /** The record map's keys are the keys of the records not skipped. */
  lemma GroupKeysRecorded(c: Casts, ss: seq<Series>)
    ensures Group(c, Visits(ss)).Keys == RecordedKeys(ss)
  {
    GroupKeys(c, Visits(ss));
    ReachesIffRecorded(ss);
    forall k ensures k in RecordedKeys(ss) <==> Recorded(ss, k) {
      if Recorded(ss, k) {
        var p, i :| 0 <= p < |ss| && 0 <= i < |ss[p].records| &&
          (!Skipped(ss[p].records[i]) && EpochKey(ss[p].records[i].timestamp) == k);
      }
    }
  }

  /**
   * Under the assumption that every key has the same number of digits, the data section is
   * in strictly increasing epoch-second order.
   */
  lemma EncodeChronological(c: Casts, d: Document, width: nat)
    requires Encode(c, d).Success?
    requires forall k :: Recorded(d.series, k) ==> |k| == width
    ensures var data := Encode(c, d).value.data;
      forall a, b :: 0 <= a < b < |data| ==> data[a].ts.second < data[b].ts.second
  {
    var data := Encode(c, d).value.data;
    EncodeEntries(c, d);
    forall a, b | 0 <= a < b < |data| ensures data[a].ts.second < data[b].ts.second {
      assert KeysOf(data)[a] in KeysOf(data) && KeysOf(data)[b] in KeysOf(data);
      SameWidthOrder(data[a].ts.second, data[b].ts.second);
    }
  }

  /**
   * A NUMBER record whose value is 0 and that has no quality or annotation is not skipped,
   * yet writes no member: it yields an entry of its own holding the empty field object `{}`.
   */
  lemma ZeroValueEncodesEmptyField(c: Casts, t: Timestamp, version: string, id: string, name: string)
    ensures
      var r := TsRecord(t, Some(Int(0)), None, None);
      var d := Document(version, [Series(id, name, None, NUMBER, [r])]);
      var col := ColumnEntry(0, Column(id, name, NUMBER, None));
      Encode(c, d) == Success(EncodedDoc(DocType, version, Header(t, t, 1, [col]), [Entry(t, map[0 := Field(None, None, None)])]))
  {
    var r := TsRecord(t, Some(Int(0)), None, None);
    var s := Series(id, name, None, NUMBER, [r]);
    var e := Entry(t, map[0 := Field(None, None, None)]);
    OneRecordData(c, s);
    assert Data(c, [s]) == [e];
    assert Columns([s]) == [ColumnEntry(0, Column(id, name, NUMBER, None))];
  }

  /** A document of one series holding one record that is not skipped has one entry. */
  lemma OneRecordData(c: Casts, s: Series)
    requires |s.records| == 1 && !Skipped(s.records[0])
    ensures Data(c, [s]) ==
      [Entry(s.records[0].timestamp, map[0 := DataColumnFromRecord(c, s.records[0], s.dataType)])]
  {
    var v := Visit(0, s.records[0], s.dataType);
    assert Visits([s]) == [v] by {
      assert [s][..0] == [];
      assert SeriesVisits(0, s) == [v];
    }
    var e := Entry(v.record.timestamp, map[0 := DataColumnFromRecord(c, v.record, v.dataType)]);
    var m := map[Key(v) := e];
    assert Group(c, [v]) == m by {
      assert [v][..0] == [];
    }
    assert m.Keys == {Key(v)};
    SortedKeysUnique([Key(v)], m.Keys);
  }

  /** A document of one series holding one record that is not skipped encodes to one entry. */
  lemma OneRecordEncode(c: Casts, version: string, s: Series) returns (j: EncodedDoc)
    requires |s.records| == 1 && !Skipped(s.records[0])
    ensures Encode(c, Document(version, [s])) == Success(j)
    ensures j.header.columns == [ColumnEntry(0, ColumnOf(s))]
    ensures j.data == [Entry(s.records[0].timestamp, map[0 := DataColumnFromRecord(c, s.records[0], s.dataType)])]
  {
    OneRecordData(c, s);
    assert Columns([s]) == [ColumnEntry(0, ColumnOf(s))];
    j := Encode(c, Document(version, [s])).value;
  }
}
