/**
 * The document of the repository's encoder test, with symbolic timestamps:
 * two NUMBER series whose records reach two seconds in opposite orders.
 */
module Scenarios {
  import opened Wrappers
  import opened Keys
  import opened Records
  import opened Wire
  import opened Encoding

  /**
   * Two series holding one record at each of two seconds, the second series listing the later
   * one first: the encoder merges them into two entries, earlier key first, each holding one
   * field object per series, and the header spans the two.
   */
  lemma TwoSeriesEncode(c: Casts, t1: Timestamp, t2: Timestamp, r11: TsRecord, r12: TsRecord, r21: TsRecord, r22: TsRecord)
    requires LexLess(EpochKey(t1), EpochKey(t2))
    requires r11.timestamp == t1 && r12.timestamp == t2 && r21.timestamp == t2 && r22.timestamp == t1
    requires !Skipped(r11) && !Skipped(r12) && !Skipped(r21) && !Skipped(r22)
    ensures
      var s1 := Series("series_1", "Series 1", None, NUMBER, [r11, r12]);
      var s2 := Series("series_2", "Series 2", Some("C"), NUMBER, [r21, r22]);
      var data := [Entry(t1, map[0 := DataColumnFromRecord(c, r11, NUMBER), 1 := DataColumnFromRecord(c, r22, NUMBER)]),
                   Entry(t2, map[0 := DataColumnFromRecord(c, r12, NUMBER), 1 := DataColumnFromRecord(c, r21, NUMBER)])];
      var cols := [ColumnEntry(0, Column("series_1", "Series 1", NUMBER, None)),
                   ColumnEntry(1, Column("series_2", "Series 2", NUMBER, Some("C")))];
      Encode(c, Document("1.0", [s1, s2])) == Success(EncodedDoc(DocType, "1.0", Header(t1, t2, 2, cols), data))
  {
    var s1 := Series("series_1", "Series 1", None, NUMBER, [r11, r12]);
    var s2 := Series("series_2", "Series 2", Some("C"), NUMBER, [r21, r22]);
    var data := [Entry(t1, map[0 := DataColumnFromRecord(c, r11, NUMBER), 1 := DataColumnFromRecord(c, r22, NUMBER)]),
                 Entry(t2, map[0 := DataColumnFromRecord(c, r12, NUMBER), 1 := DataColumnFromRecord(c, r21, NUMBER)])];
    var cols := [ColumnEntry(0, Column("series_1", "Series 1", NUMBER, None)),
                 ColumnEntry(1, Column("series_2", "Series 2", NUMBER, Some("C")))];
    TwoSeriesData(c, s1, s2);
    assert Data(c, [s1, s2]) == data;
    assert Columns([s1, s2]) == cols;
  }

  /** The data section of the two series: the earlier key's entry first. */
  lemma TwoSeriesData(c: Casts, s1: Series, s2: Series)
    requires |s1.records| == 2 && |s2.records| == 2
    requires var r11, r12, r21, r22 := s1.records[0], s1.records[1], s2.records[0], s2.records[1];
      && r12.timestamp == r21.timestamp && r11.timestamp == r22.timestamp
      && LexLess(EpochKey(r11.timestamp), EpochKey(r12.timestamp))
      && !Skipped(r11) && !Skipped(r12) && !Skipped(r21) && !Skipped(r22)
    ensures var r11, r12, r21, r22 := s1.records[0], s1.records[1], s2.records[0], s2.records[1];
      Data(c, [s1, s2]) ==
        [Entry(r11.timestamp, map[0 := DataColumnFromRecord(c, r11, s1.dataType), 1 := DataColumnFromRecord(c, r22, s2.dataType)]),
         Entry(r12.timestamp, map[0 := DataColumnFromRecord(c, r12, s1.dataType), 1 := DataColumnFromRecord(c, r21, s2.dataType)])]
  {
    var k1, k2 := EpochKey(s1.records[0].timestamp), EpochKey(s1.records[1].timestamp);
    LexLessIrreflexive(k1);
    var m := TwoSeriesGroup(c, s1, s2);
    assert m.Keys == {k1, k2};
    SortedKeysUnique([k1, k2], m.Keys);
  }

  /** The record map of the two series: each key's entry gathers one field object per series. */
  lemma TwoSeriesGroup(c: Casts, s1: Series, s2: Series) returns (m: map<string, Entry>)
    requires |s1.records| == 2 && |s2.records| == 2
    requires var r11, r12, r21, r22 := s1.records[0], s1.records[1], s2.records[0], s2.records[1];
      && r12.timestamp == r21.timestamp && r11.timestamp == r22.timestamp
      && EpochKey(r11.timestamp) != EpochKey(r12.timestamp)
      && !Skipped(r11) && !Skipped(r12) && !Skipped(r21) && !Skipped(r22)
    ensures var r11, r12, r21, r22 := s1.records[0], s1.records[1], s2.records[0], s2.records[1];
      && m == Group(c, Visits([s1, s2]))
      && m == map[EpochKey(r11.timestamp) := Entry(r11.timestamp, map[0 := DataColumnFromRecord(c, r11, s1.dataType),
                                                                   1 := DataColumnFromRecord(c, r22, s2.dataType)]),
                  EpochKey(r12.timestamp) := Entry(r12.timestamp, map[0 := DataColumnFromRecord(c, r12, s1.dataType),
                                                                   1 := DataColumnFromRecord(c, r21, s2.dataType)])]
  {
    var r11, r12, r21, r22 := s1.records[0], s1.records[1], s2.records[0], s2.records[1];
    var v11, v12 := Visit(0, r11, s1.dataType), Visit(0, r12, s1.dataType);
    var v21, v22 := Visit(1, r21, s2.dataType), Visit(1, r22, s2.dataType);
    var k1, k2 := EpochKey(r11.timestamp), EpochKey(r12.timestamp);
    var f11, f12 := DataColumnFromRecord(c, r11, s1.dataType), DataColumnFromRecord(c, r12, s1.dataType);
    var f21, f22 := DataColumnFromRecord(c, r21, s2.dataType), DataColumnFromRecord(c, r22, s2.dataType);
    TwoSeriesVisits(s1, s2);
    GroupSnoc(c, [], v11);
    assert [] + [v11] == [v11];
    var m1 := map[k1 := Entry(r11.timestamp, map[0 := f11])];
    assert Group(c, [v11]) == m1;
    GroupSnoc(c, [v11], v12);
    assert [v11] + [v12] == [v11, v12];
    var m2 := m1[k2 := Entry(r12.timestamp, map[0 := f12])];
    assert Group(c, [v11, v12]) == m2;
    GroupSnoc(c, [v11, v12], v21);
    assert [v11, v12] + [v21] == [v11, v12, v21];
    assert Key(v21) == k2 && Counts(v21);
    var m3 := m2[k2 := Entry(r12.timestamp, map[0 := f12, 1 := f21])];
    assert Group(c, [v11, v12, v21]) == m3;
    GroupSnoc(c, [v11, v12, v21], v22);
    assert [v11, v12, v21] + [v22] == [v11, v12, v21, v22];
    assert Key(v22) == k1 && Counts(v22);
    m := m3[k1 := Entry(r11.timestamp, map[0 := f11, 1 := f22])];
    assert Group(c, [v11, v12, v21, v22]) == m;
  }

  lemma TwoSeriesVisits(s1: Series, s2: Series)
    requires |s1.records| == 2 && |s2.records| == 2
    ensures Visits([s1, s2]) == [Visit(0, s1.records[0], s1.dataType), Visit(0, s1.records[1], s1.dataType),
                                 Visit(1, s2.records[0], s2.dataType), Visit(1, s2.records[1], s2.dataType)]
  {
    var a, b := SeriesVisits(0, s1), SeriesVisits(1, s2);
    assert a == [a[0], a[1]] && b == [b[0], b[1]];
    assert [s1][..0] == [];
    assert Visits([s1]) == a;
    assert [s1, s2][..1] == [s1];
    assert Visits([s1, s2]) == a + b;
  }
}
