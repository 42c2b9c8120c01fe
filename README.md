# JSON Time Series documents in Dafny

A model of `json_timeseries/jts.py`, the Python implementation of JSON Time Series (JTS)
documents. The model has four parts.

- **Records and series.** A `TsRecord` is a timestamp, an optional value, an optional quality
  and an optional annotation. A `TimeSeries` holds an identifier, a name, optional units, a
  data type and a list of records.
- **Documents.** A `JtsDocument` holds a version and a list of series. Its constructor
  type-checks what it receives, and `addSeries` and `getSeries` add and look up series.
- **Encoder (`toJSON`).** It walks every record of every series, skips records that hold
  nothing, and groups the rest by epoch second into entries with sparse field objects
  `{v?, q?, a?}`. It sorts the entries by key, derives the header from them, and fails when
  no entry remains.
- **Decoder (`fromJSON`).** It builds one empty series per header column, then appends one
  record per field object to the series its index names.

Modules:

- `Keys` (keys.dfy): the entry key, which is the decimal text of the epoch second. It also
  holds Python's ordering of strings, which `sorted` uses on those keys, and the sorted order
  of a set of keys.
- `Records` (records.dfy): the values of jts.py: timestamps, record values, records, series
  and documents. It also holds the constructors' argument check.
- `Wire` (wire.dfy): the encoded document as datatypes, namely columns, field objects,
  entries, the header and the document (`Wire.EncodedDoc`).
- `Encoding` (encoding.dfy): `toJSON` as specification functions over values, and the lemmas
  about what it produces.
- `Decoding` (decoding.dfy): `fromJSON` as a specification function over values.
- `RoundTrip` (roundtrip.dfy): what encoding and decoding promise of each other.
- `Jts` (jts.dfy): `TimeSeries` and `JtsDocument` as classes whose
  methods update their fields. The loops of `__getHeaderColumns`, `__get_data` and
  `fromJSON` are methods proved to compute the specification functions.
- `Scenarios` (scenarios.dfy): the two-series document of the repository's encoder test, with
  symbolic timestamps.

Modelling choices:

- A timestamp is its epoch second and its sub-second part. The entry key `strftime('%s')` is
  the decimal text of the second (`Records.EpochKey`). The wire form of `ts` is the timestamp
  itself, because `isoformat` is injective and `dateutil`'s parser inverts it.
- A record value is a Python int, a finite Python float or a str (`Records.Value`). The casts
  the encoder applies to a value of the other kind are parameters of the model
  (`Records.Casts`): `float` of a str and of an int, and `str` of an int and of a float.
  `float` of a float and `str` of a str are the identity.
- Decoding then re-encoding keeps a field object only when its value stays truthy. The model
  states the cast condition this needs per record (`RoundTrip.CastsKeepTruth`). Python's
  `float("0")` is 0.0, so a str "0" in a NUMBER series breaks the round trip
  (`RoundTrip.ZeroTextBreaksRoundTrip`).
- The encoder test at tests/test_json_timeseries.py:97-170 ends by calling `toJSONString()`,
  which `JtsDocument` does not define, so as written it raises AttributeError. The scenario
  takes the document it builds as evidence of the intended encoding.
- The encoder's walk is a sequence of visits, one per record, in series order and then record
  order (`Encoding.Visits`). The record map is a fold of one loop iteration over that walk
  (`Encoding.Step`, `Encoding.Group`).
- The data section is sorted by Python's string order on the keys (`Keys.LexLess`), not by
  number. The two agree only when every key has the same number of digits
  (`Keys.SameWidthOrder`), and `Keys.WidthMatters` shows that "10" sorts before "9".
- Decoding reads the header columns in the order of the JSON object and ignores their keys,
  just as `fromJSON` does, so a header whose keys are not 0, 1, … still decodes.
- `__len__` of both classes is the function `Length`, and `Insert` and `AddSeries` state how
  it grows.
- `fromJSON` takes the field objects of an entry in the order of the JSON object. The model
  takes them in any order and proves the result is the same whatever the order.

## Model

| member | source | states |
|---|---|---|
| Keys.Decimal | json_timeseries/jts.py:209 | the key of an epoch second has at least one digit, and exactly one digit iff the second is below 10 |
| Keys.LexLessIrreflexive | json_timeseries/jts.py:217 | no key sorts before itself |
| Keys.LexLessTransitive | json_timeseries/jts.py:217 | the string order `sorted` uses is transitive |
| Keys.LexLessTotal | json_timeseries/jts.py:217 | of two different keys, one sorts before the other |
| Keys.LexLessAsymmetric | json_timeseries/jts.py:217 | two keys never sort before each other |
| Keys.LexLessAppend | json_timeseries/jts.py:217 | for strings of equal length, appending a character orders by the prefixes first and then by the appended characters |
| Keys.SameWidthOrder | json_timeseries/jts.py:209-217 | for epoch seconds with the same number of digits, the string order of their keys is the numeric order |
| Keys.WidthMatters | json_timeseries/jts.py:209-217 | the key of second 10 sorts before the key of second 9, so key order is not time order across digit counts |
| Keys.SortedBounds | json_timeseries/jts.py:217 | in a strictly sorted key list, the first key is the least and the last key is the greatest |
| Keys.InsertSorted | json_timeseries/jts.py:217 | inserting a new key into a strictly sorted list keeps it strictly sorted, adds exactly that key, and grows the list by one |
| Keys.SortedKeys | json_timeseries/jts.py:217 | the sorted order of a key set is strictly ascending and holds exactly the set's keys |
| Keys.SortedKeysUnique | json_timeseries/jts.py:217 | any strictly ascending list of exactly a set's keys is the sorted order of that set |
| Encoding.DataColumnFromRecord | json_timeseries/jts.py:221-241 | `v` is present iff the value is truthy and the type is NUMBER (float cast) or TEXT (str cast); `q` iff the quality is truthy; `a` iff the annotation is truthy; present members equal the record's, and the field object conforms to the type |
| Encoding.VisitsMember | json_timeseries/jts.py:205-206 | the walk reaches exactly the records of the series, each tagged with its series' position and data type |
| Encoding.VisitsIndex | json_timeseries/jts.py:205-206 | every visit names an existing series and carries that series' data type |
| Encoding.GroupKeys | json_timeseries/jts.py:205-214 | the record map has an entry exactly for the keys of the records not skipped; each entry's `ts` has the entry's key, is the timestamp of one of those records, and the entry holds at least one field object |
| Encoding.GroupFields | json_timeseries/jts.py:205-214 | an entry holds a field object under index i iff some record of series i that is not skipped has the entry's key |
| Encoding.GroupFieldOrigin | json_timeseries/jts.py:214 | each field object is the one built from some record of that series with the entry's key |
| Encoding.GroupTsFirst | json_timeseries/jts.py:211-212 | the first record of the walk to reach a key sets that entry's `ts` |
| Encoding.GroupFieldLast | json_timeseries/jts.py:214 | the last record of a series to reach a key sets that series' field object in the entry |
| Encoding.SkippedRecordsVanish | json_timeseries/jts.py:207-208 | records with no value, quality or annotation change nothing: removing them leaves the record map the same |
| Encoding.CountedOnly | json_timeseries/jts.py:207-208 | the walk without its skipped records holds only records that count |
| Encoding.DataShape | json_timeseries/jts.py:216-219 | the data section is strictly ascending by key, has exactly the record map's keys, and each entry is the map's entry for its key |
| Encoding.DataEmpty | json_timeseries/jts.py:203-219 | the data section is empty iff the record map is, and it has one entry per key |
| Encoding.EncodeFailsIffAllSkipped | json_timeseries/jts.py:172-174 | building fails, with the no-data exception, exactly when every record of every series is skipped |
| Encoding.ReachesIffRecorded | json_timeseries/jts.py:205-209 | a key is reached by the walk iff some record of some series that is not skipped has it |
| Encoding.EncodeEntries | json_timeseries/jts.py:203-219 | the encoded data section is strictly ascending by key, with one entry for each distinct key of the records not skipped and no other |
| Encoding.EncodeTsFirst | json_timeseries/jts.py:211-212 | an encoded entry carries the timestamp of the first record, in series and then record order, that reaches its key |
| Encoding.EncodeFieldLast | json_timeseries/jts.py:214 | an encoded entry's field object for a series is that of the series' last record reaching the key |
| Encoding.EncodeHeader | json_timeseries/jts.py:168-200 | the encoded document has type "jts" and the document's version; startTime and endTime belong to the least and greatest keys; recordCount is the number of distinct keys of records not skipped; columns are the series' columns |
| Encoding.EncodeChronological | json_timeseries/jts.py:209-217 | when every key has the same number of digits, entries come out in strictly increasing epoch second |
| Encoding.ZeroValueEncodesEmptyField | json_timeseries/jts.py:207-225 | a NUMBER record of value 0 with no quality or annotation is not skipped, yet yields an entry holding the empty field object |
| Encoding.OneRecordData | json_timeseries/jts.py:203-219 | a single series with a single record that is not skipped yields one entry, holding that record's field object under index 0 |
| Encoding.OneRecordEncode | json_timeseries/jts.py:168-219 | a document of one series holding one record that is not skipped encodes to one entry, holding that record's field object under index 0, with that series' column |
| Decoding.RecordOf | json_timeseries/jts.py:266-270 | the decoded record keeps the entry's timestamp, and is skipped iff the field object is empty |
| Decoding.RecordsAtMember | json_timeseries/jts.py:259-271 | series p receives a record exactly for the entries holding a field under p, with that entry's timestamp and field members |
| Decoding.DecodeRecords | json_timeseries/jts.py:259-271 | every field object of the data section becomes a record of the series its index names, and every record of a decoded series comes from one |
| Decoding.OneFieldDecode | json_timeseries/jts.py:250-271 | a document of one column and one entry holding one field object under index 0 decodes to one series, of that column, holding that field's record |
| RoundTrip.EncodeWellFormed | json_timeseries/jts.py:168-241 | every encoded document is well formed: type "jts", non-empty sorted data, its own header, positional columns with truthy units, non-empty entries whose field objects name a column and conform to its type |
| RoundTrip.EncodedEntry | json_timeseries/jts.py:203-241 | each entry of the data section holds a field object, and each names a series and conforms to its data type |
| RoundTrip.FieldRoundTrip | json_timeseries/jts.py:221-241 | encoding the record that decoding builds from a conforming field object with a truthy value gives back that field object |
| RoundTrip.KeysDistinct | json_timeseries/jts.py:217 | distinct entries of a sorted data section have distinct keys |
| RoundTrip.DecodeColumns | json_timeseries/jts.py:250-256 | decoding a well-formed document succeeds, and the decoded series re-encode to its header columns |
| RoundTrip.OriginEntry | json_timeseries/jts.py:259-271 | each record the encoder would reach in a decoded document comes from a field object of some entry, under that series' index and with its column's data type |
| RoundTrip.FieldReached | json_timeseries/jts.py:259-271 | each field object of a well-formed document becomes a record the encoder reaches in the decoded document |
| RoundTrip.DecodedGroupKeys | json_timeseries/jts.py:203-214 | the record map of a decoded stable document has exactly the data section's keys |
| RoundTrip.OriginByKey | json_timeseries/jts.py:259-271 | a decoded record with an entry's key comes from that entry |
| RoundTrip.DecodedGroupEntry | json_timeseries/jts.py:203-214 | in the record map of a decoded stable document, each key's entry is the data section's entry |
| RoundTrip.DecodedEntryTs | json_timeseries/jts.py:211-212 | that entry keeps the data section's timestamp |
| RoundTrip.DecodedEntryFields | json_timeseries/jts.py:214 | that entry holds field objects under the same indices as the data section's |
| RoundTrip.DecodedEntryValues | json_timeseries/jts.py:214 | those field objects equal the data section's |
| RoundTrip.RoundTrip | json_timeseries/jts.py:243-275 | decoding a well-formed document whose field objects are non-empty with truthy values succeeds, and re-encoding the result gives the same document |
| RoundTrip.EncodeDecodeEncode | tests/test_json_timeseries.py:172-247 | re-encoding the decoded output of the encoder gives the same output, whenever that output is stable |
| RoundTrip.NativeValuesStable | json_timeseries/jts.py:221-241 | when every record holds a truthy value of its series' own kind (a float for NUMBER, a str for TEXT), the encoded document is stable |
| RoundTrip.EmptyFieldBreaksRoundTrip | json_timeseries/jts.py:207-271 | stability cannot be dropped: the encoding of a zero NUMBER value is well formed but not stable, and re-encoding its decoded form fails with no data |
| RoundTrip.FieldOrigin | json_timeseries/jts.py:214 | an encoded field object is that of a record of its series that is not skipped |
| RoundTrip.TruthKept | json_timeseries/jts.py:225-229 | when the cast of a record's value keeps its truth, the encoded value is truthy |
| RoundTrip.NonEmptyFieldsStable | json_timeseries/jts.py:221-241 | when the casts keep the truth of every value of the document, an encoder output whose field objects are all non-empty is stable |
| RoundTrip.NonEmptyFieldsRoundTrip | json_timeseries/jts.py:243-275 | when the casts keep the truth of every value of the document, re-encoding the decoded output of the encoder gives the same output whenever every field object is non-empty |
| RoundTrip.ZeroTextBreaksRoundTrip | json_timeseries/jts.py:225-227 | the cast condition cannot be dropped: with `float("0") == 0.0`, a NUMBER series holding the str "0" encodes to a non-empty field object, decodes, and re-encodes to a different document |
| Jts.TimeSeries.constructor | json_timeseries/jts.py:43-50 | a new series holds the given identifier, name, units, data type and records |
| Jts.TimeSeries.Create | json_timeseries/jts.py:43-58 | construction raises TypeError iff the records argument is neither None, a record nor a list of records; otherwise the new series holds the accepted records |
| Jts.TimeSeries.Insert | json_timeseries/jts.py:63-69 | `insert` appends the record or the list's records in order, changes nothing else, and `__len__` grows by their number |
| Jts.JtsDocument.constructor | json_timeseries/jts.py:137-144 | a new document holds the given version and series |
| Jts.JtsDocument.Create | json_timeseries/jts.py:130-144 | construction raises TypeError iff the series argument is neither None, a series nor a list of series; otherwise the document holds the version and the accepted series |
| Jts.JtsDocument.AddSeries | json_timeseries/jts.py:149-157 | `addSeries` appends the series or the list's series in order, keeps the version, and `__len__` grows by their number |
| Jts.JtsDocument.GetSeries | json_timeseries/jts.py:277-287 | `getSeries` returns the first series with the identifier, or None iff no series has it |
| Jts.JtsDocument.FindSeries | json_timeseries/jts.py:287 | the position of the first series with the identifier, or None iff there is none |
| Jts.JtsDocument.GetHeaderColumns | json_timeseries/jts.py:189-200 | the loop builds exactly the header columns of the document's series |
| Jts.JtsDocument.GetData | json_timeseries/jts.py:203-219 | the loops build exactly the data section of the document's series |
| Jts.JtsDocument.RecordMap | json_timeseries/jts.py:204-214 | the outer loop builds the record map of the whole walk |
| Jts.JtsDocument.GroupSeries | json_timeseries/jts.py:206-214 | the inner loop extends the record map by the walk over one series' records |
| Jts.JtsDocument.SortKeys | json_timeseries/jts.py:217 | the insertion loop yields the sorted order of the record map's keys |
| Jts.JtsDocument.ToJson | json_timeseries/jts.py:162-180 | `toJSON` returns the encoding of the document's current state, or fails with no data exactly when that encoding does |
| Jts.JtsDocument.FromJson | json_timeseries/jts.py:243-275 | `fromJSON` fails with IndexError exactly when decoding does; otherwise it returns a new document of new, distinct series whose state is the decoded document |
| Jts.JtsDocument.InsertEntry | json_timeseries/jts.py:259-271 | one entry's loop fails iff a field index has no series; otherwise it appends one record per field object to the series of its index, whatever the order of the fields, and changes nothing else |
| Jts.ViewsSnoc | json_timeseries/jts.py:205-206 | the walk over one more series continues with that series' records |
| Jts.DataListed | json_timeseries/jts.py:217 | the record map's entries listed in sorted key order are the data section |
| Encoding.GroupSnoc | json_timeseries/jts.py:206-214 | one more visited record is one more step of the record map |
| Encoding.VisitIn | json_timeseries/jts.py:205-206 | the walk reaches every record of every series, tagged with the series' position and data type |
| Encoding.GroupKeysRecorded | json_timeseries/jts.py:205-212 | the keys of the record map are exactly the keys of the records that are not skipped |
| Decoding.RecordsAtHas | json_timeseries/jts.py:259-271 | every field object under index p becomes a record of series p, carrying the entry's timestamp |
| RoundTrip.EncodedField | json_timeseries/jts.py:214-241 | a field object of an encoded entry names a series and conforms to that series' data type |
| RoundTrip.DecodeSucceeds | json_timeseries/jts.py:259-267 | decoding succeeds when every field object names a header column |
| RoundTrip.GroupKeyIff | json_timeseries/jts.py:203-214 | in a decoded stable document, a key is in the record map iff it is the key of some entry |
| RoundTrip.GroupKeyFromEntry | json_timeseries/jts.py:259-271 | each key of the decoded record map is the key of an entry of the data section |
| RoundTrip.EntryKeyInGroup | json_timeseries/jts.py:259-271 | the key of each entry of a stable document is a key of the decoded record map |
| RoundTrip.DecodedData | json_timeseries/jts.py:203-219 | the data section rebuilt from a decoded well-formed stable document is the document's own |
| RoundTrip.EmptyFieldDecodes | json_timeseries/jts.py:259-271 | a document whose only entry holds one empty field object decodes, and re-encoding it fails with no data |
| Jts.JtsDocument.ListEntries | json_timeseries/jts.py:217 | the list comprehension gives one entry per key, the record map's entry for that key, in key order |
| Jts.JtsDocument.AddColumns | json_timeseries/jts.py:250-256 | the header loop adds one new, distinct, empty series per column, carrying the column's id, name, units and data type |
| Jts.EntryStep | json_timeseries/jts.py:259-271 | one more entry of the decoding loop appends to each series exactly that entry's field record under its index, and keeps every index seen below the column count |
| Jts.WalkStep | json_timeseries/jts.py:206-214 | one more record of the inner loop is one more step of the record map |
| Scenarios.TwoSeriesEncode | tests/test_json_timeseries.py:97-170 | the encoder test's two NUMBER series, whose records reach two seconds in opposite orders, encode to two entries in key order, each holding one field object per series, under a header spanning both |
| Scenarios.TwoSeriesData | tests/test_json_timeseries.py:97-170 | the data section of those two series puts the earlier key's entry first |
| Scenarios.TwoSeriesGroup | json_timeseries/jts.py:205-214 | the record map of those two series gathers one field object per series under each key |
| Scenarios.TwoSeriesVisits | json_timeseries/jts.py:205-206 | the walk over those two series visits the first series' records, then the second's |

## Left out

- JSON text: `json.dumps` and `json.loads` are not modelled. The encoded document is a
  datatype, and JSON object keys ("0", "1", …) are natural-number indices.
- Date handling: `isoformat`, `dateutil`'s parser and the local-time dependence of
  `strftime('%s')` are not modelled. A timestamp is an epoch second and a sub-second part.
  Timestamps before 1970, whose key would start with "-", are not modelled.
- Casts: `float` and `str` are parameters. The ValueError `float` raises on text that is not
  a number is not modelled, because the cast is total here.
- The default identifier: the UUID default of `TimeSeries.__init__` is drawn once, when the
  module loads, so every series created without an identifier shares it. The model takes the
  identifier as an argument.
- `TimeSeries.toJSON` and the module-level `__datetimeconverter` are not modelled. They call
  `json.dumps` on the object with a converter name that does not resolve.
- Values of TIME and COORDINATES series are never written by the source, so the model only
  captures their absence. A `data_type` string outside the four types behaves like them; the
  model's data type has only the four.
- List aliasing: the constructors keep the caller's list of records or series, so later
  `insert` or `addSeries` calls also change the caller's list. The model's lists are values.
  Aliasing of series objects between documents is kept, because documents hold references.
- `insert` and `addSeries` perform no type check, so Python lets them append any value. The
  model's batches hold only records or only series.
- Decoding inputs the encoder never produces are not modelled:
  - a missing `version`, or missing members of a column object, which Python reads as None;
  - negative field indices, which Python counts from the end of the series list;
  - field keys that are not numbers, on which `int` raises ValueError;
  - duplicate JSON keys;
  - a missing `header`, `columns`, `data`, `ts` or `f` member, on which `fromJSON` raises
    KeyError, because the model's encoded document always has them.
- When decoding raises IndexError, the series may already hold some records. The model's
  `FromJson` reports the failure and promises nothing about the discarded document.
- Values: NaN and the infinities, which Python's float allows and treats as truthy, are not
  values of `Records.Value`. The OverflowError `float` raises on a very large int is not
  modelled, because `Records.ToFloat` is total; its rounding is left to the cast parameter.
- Default arguments: `version="1.0"` of `JtsDocument` and `data_type='NUMBER'` and
  `units=None` of `TimeSeries` are not modelled as defaults; the model's constructors take
  every argument explicitly.
