/**
 * The classes of jts.py: `TimeSeries` and `JtsDocument`, whose methods update their fields
 * in place. The loops of `__getHeaderColumns`, `__get_data` and `fromJSON` are proved to
 * compute the specification functions of modules Encoding and Decoding.
 */
module Jts {
  import opened Wrappers
  import opened Keys
  import opened Records
  import opened Wire
  import opened Encoding
  import opened Decoding

  /** A named series of records that `insert` extends. */
  class TimeSeries {
    var identifier: string
    var name: string
    var units: Option<string>
    var dataType: DataType
    var records: seq<TsRecord>

    /** The series' current state as a value. */
    function View(): Series
      reads this
    {
      Series(identifier, name, units, dataType, records)
    }

    constructor (identifier: string, name: string, units: Option<string>, dataType: DataType, records: seq<TsRecord>)
      ensures View() == Series(identifier, name, units, dataType, records)
    {
      this.identifier := identifier;
      this.name := name;
      this.units := units;
      this.dataType := dataType;
      this.records := records;
    }

    /**
     * `TimeSeries(...)`: `records` may be absent (no records), one record or a list of
     * records; anything else raises TypeError.
     */
    static method Create(identifier: string, name: string, units: Option<string>, dataType: DataType, records: Arg<TsRecord>)
      returns (r: Result<TimeSeries, Error>)
      ensures r.Failure? <==> records.Invalid?
      ensures r.Failure? ==> r.error == TypeError
      ensures r.Success? ==> fresh(r.value) && r.value.View() == Series(identifier, name, units, dataType, Accept(records).value)
    {
      match Accept(records)
      case Failure(err) =>
        r := Failure(err);
      case Success(rs) =>
        var s := new TimeSeries(identifier, name, units, dataType, rs);
        r := Success(s);
    }

    /** `insert`: appends one record or every record of a list, in order; nothing else changes. */
    method Insert(batch: Batch<TsRecord>)
      modifies this
      ensures View() == old(View()).(records := old(records) + Items(batch))
      ensures Length() == old(Length()) + |Items(batch)|
    {
      match batch
      case One(x) =>
        records := records + [x];
      case Many(xs) =>
        records := records + xs;
    }

    /** `__len__`: the number of records. */
    function Length(): nat
      reads this
    {
      |records|
    }
  }

  /** A JTS document: a version and a list of series that `addSeries` extends. */
  class JtsDocument {
    var version: string
    var series: seq<TimeSeries>

    /** The document's current state as a value: its version and the views of its series. */
    function View(): Document
      reads this, series
    {
      Document(version, Views(series))
    }

    static function Views(ss: seq<TimeSeries>): (r: seq<Series>)
      reads ss
      ensures |r| == |ss|
      ensures forall p :: 0 <= p < |ss| ==> r[p] == ss[p].View()
    {
      seq(|ss|, p requires 0 <= p < |ss| reads ss => ss[p].View())
    }

    constructor (version: string, series: seq<TimeSeries>)
      ensures this.version == version && this.series == series
    {
      this.version := version;
      this.series := series;
    }

    /**
     * `JtsDocument(...)`: `series` may be absent (no series), one series or a list of series;
     * anything else raises TypeError.
     */
    static method Create(series: Arg<TimeSeries>, version: string) returns (r: Result<JtsDocument, Error>)
      ensures r.Failure? <==> series.Invalid?
      ensures r.Failure? ==> r.error == TypeError
      ensures r.Success? ==> fresh(r.value) && r.value.version == version && r.value.series == Accept(series).value
    {
      match Accept(series)
      case Failure(err) =>
        r := Failure(err);
      case Success(ss) =>
        var doc := new JtsDocument(version, ss);
        r := Success(doc);
    }

    /** `addSeries`: appends one series or every series of a list, in order; the version stays. */
    method AddSeries(batch: Batch<TimeSeries>)
      modifies this
      ensures version == old(version)
      ensures series == old(series) + Items(batch)
      ensures Length() == old(Length()) + |Items(batch)|
    {
      match batch
      case One(s) =>
        series := series + [s];
      case Many(ss) =>
        series := series + ss;
    }

    /** `__len__`: the number of series. */
    function Length(): nat
      reads this
    {
      |series|
    }

    /**
     * `getSeries`: the first series, in list order, whose identifier is the one asked for,
     * or None when no series has it.
     */
    function GetSeries(identifier: string): (r: Option<TimeSeries>)
      reads this, series
      ensures r.None? <==> forall p :: 0 <= p < |series| ==> series[p].identifier != identifier
      ensures r.Some? ==> exists p :: (0 <= p < |series| && series[p] == r.value &&
        r.value.identifier == identifier && forall q :: 0 <= q < p ==> series[q].identifier != identifier)
    {
      match FindSeries(series, identifier)
      case None => None
      case Some(p) => Some(series[p])
    }

    static function FindSeries(ss: seq<TimeSeries>, identifier: string): (r: Option<nat>)
      reads ss
      ensures r.None? <==> forall p :: 0 <= p < |ss| ==> ss[p].identifier != identifier
      ensures r.Some? ==> (r.value < |ss| && ss[r.value].identifier == identifier &&
        forall q :: 0 <= q < r.value ==> ss[q].identifier != identifier)
    {
      if ss == [] then None
      else if ss[0].identifier == identifier then Some(0)
      else match FindSeries(ss[1..], identifier)
        case None => None
        case Some(p) => Some(p + 1)
    }

    /**
     * `__getHeaderColumns`: one column per series, keyed by its position, with `units` only
     * when the series' units are truthy.
     */
    method GetHeaderColumns() returns (cols: seq<ColumnEntry>)
      ensures cols == Columns(View().series)
    {
      cols := [];
      for idx := 0 to |series|
        invariant |cols| == idx
        invariant forall p :: 0 <= p < idx ==> cols[p] == ColumnEntry(p, ColumnOf(series[p].View()))
      {
        var s := series[idx];
        var units := if s.units.Some? && s.units.value != "" then s.units else None;
        cols := cols + [ColumnEntry(idx, Column(s.identifier, s.name, s.dataType, units))];
      }
    }

    /**
     * `__get_data`: the walk over every record of every series fills the record map, then
     * its entries are listed in ascending key order.
     */
    method GetData(c: Casts) returns (data: seq<Entry>)
      ensures data == Data(c, View().series)
    {
      var recordMap := RecordMap(c);
      var keys := SortKeys(recordMap.Keys);
      data := ListEntries(recordMap, keys);
      DataListed(c, View().series, recordMap, keys, data);
    }

    /** The list comprehension of `__get_data`: the map's entries in the order of the keys. */
    static method ListEntries(recordMap: map<string, Entry>, keys: seq<string>) returns (data: seq<Entry>)
      requires forall k :: k in keys ==> k in recordMap
      ensures |data| == |keys|
      ensures forall p :: 0 <= p < |keys| ==> data[p] == recordMap[keys[p]]
    {
      data := [];
      for i := 0 to |keys|
        invariant |data| == i
        invariant forall p :: 0 <= p < i ==> data[p] == recordMap[keys[p]]
      {
        data := data + [recordMap[keys[i]]];
      }
    }

    /** The outer loop of `__get_data`: the record map after the walk over every series. */
    method RecordMap(c: Casts) returns (recordMap: map<string, Entry>)
      ensures recordMap == Group(c, Visits(View().series))
    {
      recordMap := map[];
      for idx := 0 to |series|
        invariant recordMap == Group(c, Visits(Views(series[..idx])))
      {
        recordMap := GroupSeries(c, idx, series[idx], recordMap, Visits(Views(series[..idx])));
        ViewsSnoc(series, idx);
      }
      assert series[..|series|] == series;
    }

    /**
     * The inner loop of `__get_data` over the records of the series at position idx: each
     * record that is not skipped writes its field object into the entry of its epoch key.
     */
    static method GroupSeries(c: Casts, idx: nat, s: TimeSeries, recordMap: map<string, Entry>, ghost before: seq<Visit>)
      returns (m: map<string, Entry>)
      requires recordMap == Group(c, before)
      ensures m == Group(c, before + SeriesVisits(idx, s.View()))
    {
      m := recordMap;
      ghost var walk := SeriesVisits(idx, s.View());
      assert before + walk[..0] == before;
      for j := 0 to |s.records|
        invariant m == Group(c, before + walk[..j])
      {
        var r := s.records[j];
        ghost var m0 := m;
        WalkStep(c, before, walk, j);
        assert walk[j] == Visit(idx, r, s.dataType);
        if !(r.value.None? && r.annotation.None? && r.quality.None?) {
          var key := EpochKey(r.timestamp);
          if key !in m {
            m := m[key := Entry(r.timestamp, map[])];
          }
          var e := m[key];
          m := m[key := e.(f := e.f[idx := DataColumnFromRecord(c, r, s.dataType)])];
          assert m == Step(c, m0, walk[j]);
        }
      }
      assert walk[..|s.records|] == walk;
    }

    /** `sorted` over the record map's keys: insertion of each key into a sorted list. */
    static method SortKeys(keys: set<string>) returns (sorted: seq<string>)
      ensures sorted == SortedKeys(keys)
    {
      sorted := [];
      var rest := keys;
      while rest != {}
        invariant rest <= keys
        invariant StrictlySorted(sorted)
        invariant forall k :: k in sorted <==> k in keys && k !in rest
        decreases rest
      {
        var k :| k in rest;
        sorted := InsertSorted(sorted, k);
        rest := rest - {k};
      }
      SortedKeysUnique(sorted, keys);
    }

    /**
     * `toJSON` and `__build`: the data section, then the header built from it, or the
     * "Cannot build without jts 'data'" exception when the data section is empty.
     */
    method ToJson(c: Casts) returns (r: Result<EncodedDoc, Error>)
      ensures r == Encode(c, View())
    {
      var data := GetData(c);
      if data == [] {
        return Failure(NoData);
      }
      var columns := GetHeaderColumns();
      var header := GetHeader(data, columns);
      r := Success(EncodedDoc(DocType, version, header.value, data));
    }

    /**
     * `fromJSON`: a new document of the encoded version, one series per header column, then
     * one record per field object appended to the series its index names; an index past the
     * last series raises IndexError.
     */
    static method FromJson(j: EncodedDoc) returns (r: Result<JtsDocument, Error>)
      ensures r.Success? <==> Decode(j).Success?
      ensures r.Failure? ==> r.error == IndexError
      ensures r.Success? ==> fresh(r.value) && r.value.View() == Decode(j).value
      ensures r.Success? ==> forall q :: 0 <= q < |r.value.series| ==> fresh(r.value.series[q])
      ensures r.Success? ==> forall q, q' :: 0 <= q < q' < |r.value.series| ==> r.value.series[q] != r.value.series[q']
    {
      var doc := new JtsDocument(j.version, []);
      var cols := j.header.columns;
      doc.AddColumns(cols);
      for n := 0 to |j.data|
        invariant doc.version == j.version && |doc.series| == |cols|
        invariant forall q :: 0 <= q < |cols| ==> fresh(doc.series[q])
        invariant forall q, q' :: 0 <= q < q' < |cols| ==> doc.series[q] != doc.series[q']
        invariant forall q :: 0 <= q < |cols| ==> doc.series[q].View() == SeriesOf(cols[q].column, RecordsAt(q, j.data[..n]))
        invariant forall e, i :: e in j.data[..n] && i in e.f ==> i < |cols|
      {
        var e := j.data[n];
        var ok := doc.InsertEntry(e);
        if !ok {
          assert e in j.data;
          return Failure(IndexError);
        }
        EntryStep(j.data, n, |cols|);
      }
      assert j.data[..|j.data|] == j.data;
      assert !IndexOutOfRange(j);
      r := Success(doc);
    }

    /** The first loop of `fromJSON`: one new, empty series per header column, in column order. */
    method AddColumns(cols: seq<ColumnEntry>)
      requires series == []
      modifies this
      ensures version == old(version) && |series| == |cols|
      ensures forall q :: 0 <= q < |cols| ==> fresh(series[q])
      ensures forall q, q' :: 0 <= q < q' < |cols| ==> series[q] != series[q']
      ensures forall q :: 0 <= q < |cols| ==> series[q].View() == SeriesOf(cols[q].column, [])
    {
      for p := 0 to |cols|
        invariant version == old(version) && |series| == p
        invariant forall q :: 0 <= q < p ==> fresh(series[q])
        invariant forall q, q' :: 0 <= q < q' < p ==> series[q] != series[q']
        invariant forall q :: 0 <= q < p ==> series[q].View() == SeriesOf(cols[q].column, [])
      {
        var col := cols[p].column;
        var s := new TimeSeries(col.id, col.name, col.units, col.dataType, []);
        AddSeries(One(s));
      }
    }

    /**
     * The inner loop of `fromJSON` over one entry: each field object, in any order, becomes a
     * record appended to the series its index names. False when an index has no series (the
     * IndexError of the source), at which point some records may already be appended.
     */
    method InsertEntry(e: Entry) returns (ok: bool)
      requires forall q, q' :: 0 <= q < q' < |series| ==> series[q] != series[q']
      modifies series
      ensures ok <==> forall i :: i in e.f ==> i < |series|
      ensures ok ==> forall q :: 0 <= q < |series| ==>
        series[q].View() == old(series[q].View()).(records := old(series[q].records) +
          if q in e.f then [RecordOf(e.ts, e.f[q])] else [])
    {
      var pending := e.f.Keys;
      while pending != {}
        invariant pending <= e.f.Keys
        invariant forall i :: i in e.f && i !in pending ==> i < |series|
        invariant forall q :: 0 <= q < |series| ==>
          series[q].View() == old(series[q].View()).(records := old(series[q].records) + Added(e, q, pending))
        decreases pending
      {
        var i :| i in pending;
        if i >= |series| {
          return false;
        }
        series[i].Insert(One(RecordOf(e.ts, e.f[i])));
        pending := pending - {i};
      }
      return true;
    }
  }

  /** The record the field object of index q in e adds, once q is no longer pending. */
  function Added(e: Entry, q: nat, pending: set<nat>): seq<TsRecord>
  {
    if q in e.f && q !in pending then [RecordOf(e.ts, e.f[q])] else []
  }

  /**
   * One more entry of the decoding loop: each series' records grow by that entry's field
   * record, and the indices seen so far stay below the column count when the entry's do.
   */
  lemma EntryStep(data: seq<Entry>, n: nat, width: nat)
    requires n < |data|
    ensures forall q :: (RecordsAt(q, data[..n + 1]) ==
      RecordsAt(q, data[..n]) + (if q in data[n].f then [RecordOf(data[n].ts, data[n].f[q])] else []))
    ensures (forall e, i :: e in data[..n] && i in e.f ==> i < width) && (forall i :: i in data[n].f ==> i < width) ==>
      (forall e, i :: e in data[..n + 1] && i in e.f ==> i < width)
  {
    assert data[..n + 1][..n] == data[..n];
    assert data[..n + 1] == data[..n] + [data[n]];
  }

  /** The walk over a list of series extended by one series goes on with that series' records. */
  lemma ViewsSnoc(ss: seq<TimeSeries>, n: nat)
    requires n < |ss|
    ensures Visits(JtsDocument.Views(ss[..n + 1])) ==
      Visits(JtsDocument.Views(ss[..n])) + SeriesVisits(n, ss[n].View())
  {
    var vs := JtsDocument.Views(ss[..n + 1]);
    assert vs[..n] == JtsDocument.Views(ss[..n]);
  }

  /** The record map after one more record of a series' walk is one more step. */
  lemma WalkStep(c: Casts, before: seq<Visit>, walk: seq<Visit>, j: nat)
    requires j < |walk|
    ensures Group(c, before + walk[..j + 1]) == Step(c, Group(c, before + walk[..j]), walk[j])
  {
    assert before + walk[..j + 1] == (before + walk[..j]) + [walk[j]];
    GroupSnoc(c, before + walk[..j], walk[j]);
  }

  /** The record map's entries listed in the sorted order of its keys are the data section. */
  lemma DataListed(c: Casts, ss: seq<Series>, m: map<string, Entry>, keys: seq<string>, data: seq<Entry>)
    requires m == Group(c, Visits(ss)) && keys == SortedKeys(m.Keys)
    requires |data| == |keys| && forall p :: 0 <= p < |keys| ==> keys[p] in m && data[p] == m[keys[p]]
    ensures data == Data(c, ss)
  {
  }
}
