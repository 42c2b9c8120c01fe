/**
 * The in-memory data of a JSON Time Series (JTS) document as values: records, the data
 * types a series can declare, and value snapshots of a series and of a document (the
 * objects themselves are the classes of module Jts).
 */
module Records {
  import opened Wrappers
  import Keys

  /**
   * A record's `datetime`: `second` is the epoch second that `strftime('%s')` prints for it
   * and `micro` the sub-second part. Two timestamps are equal exactly when their ISO-8601
   * renderings are, so the encoded `ts` carries the timestamp itself.
   */
  datatype Timestamp = Timestamp(second: nat, micro: nat)

  /** A record value: a Python int, a finite Python float, or a str. */
  datatype Value = Int(i: int) | Float(x: real) | Str(s: string)

  /** The series data types of the format; only NUMBER and TEXT values are ever encoded. */
  datatype DataType = NUMBER | TEXT | TIME | COORDINATES

  /** One observation; quality and annotation are optional, and so, in practice, is the value. */
  datatype TsRecord = TsRecord(timestamp: Timestamp, value: Option<Value>, quality: Option<int>, annotation: Option<string>)

  /** The state of one `TimeSeries` object. */
  datatype Series = Series(identifier: string, name: string, units: Option<string>, dataType: DataType, records: seq<TsRecord>)

  /** The state of one `JtsDocument` object: its version and its series, in column order. */
  datatype Document = Document(version: string, series: seq<Series>)

  /** The exceptions the core raises. */
  datatype Error =
    | TypeError   // a constructor argument of the wrong type
    | NoData      // "Cannot build without jts 'data'"
    | IndexError  // a data field names a column the header does not have

  /** Python's truth value of a record value: zero and the empty string are false. */
  predicate Truthy(v: Value)
  {
    match v
    case Int(i) => i != 0
    case Float(x) => x != 0.0
    case Str(s) => s != ""
  }

  /** A record the encoder skips: value, quality and annotation are all None. */
  predicate Skipped(r: TsRecord)
  {
    r.value.None? && r.quality.None? && r.annotation.None?
  }

  /** The data entry key of a timestamp: `strftime('%s')`, its epoch second in decimal. */
  function EpochKey(t: Timestamp): string
  {
    Keys.Decimal(t.second)
  }

  /**
   * Python's `float` of a str and of an int, and `str` of an int and of a float, which the
   * encoder applies to values whose kind differs from what the series declares. All four are
   * library code and are parameters here (`str(5)` is "5" but `str(5.0)` is "5.0", and
   * `float` of a large int rounds).
   */
  datatype Casts = Casts(
    parseFloat: string -> real,
    intToFloat: int -> real,
    formatInt: int -> string,
    formatFloat: real -> string)

  /** `float(v)`: a float is already one. */
  function ToFloat(c: Casts, v: Value): (r: real)
    ensures v.Float? ==> r == v.x
  {
    match v
    case Int(i) => c.intToFloat(i)
    case Float(x) => x
    case Str(s) => c.parseFloat(s)
  }

  /** `str(v)`: a str is already one. */
  function ToStr(c: Casts, v: Value): (r: string)
    ensures v.Str? ==> r == v.s
  {
    match v
    case Int(i) => c.formatInt(i)
    case Float(x) => c.formatFloat(x)
    case Str(s) => s
  }

  /** What an `insert` or `addSeries` call passes: one element, or a list of them. */
  datatype Batch<T> = One(item: T) | Many(items: seq<T>)

  /**
   * What a constructor receives for `records` or `series`: nothing (None), one element or a
   * list of elements of the right class, or any other Python value (`Invalid`), which
   * includes a list holding an element of another class.
   */
  datatype Arg<T> = Absent | Given(batch: Batch<T>) | Invalid

  /** The elements a batch appends, in order. */
  function Items<T>(b: Batch<T>): (r: seq<T>)
    ensures b.One? ==> r == [b.item]
    ensures b.Many? ==> r == b.items
  {
    match b
    case One(x) => [x]
    case Many(xs) => xs
  }

  /**
   * The constructors' type check: None gives an empty list, one element a list of it, a
   * list of elements the list itself, and anything else raises TypeError.
   */
  function Accept<T>(arg: Arg<T>): (r: Result<seq<T>, Error>)
    ensures r.Failure? <==> arg.Invalid?
    ensures r.Failure? ==> r.error == TypeError
    ensures arg.Absent? ==> r == Success([])
    ensures arg.Given? ==> r == Success(Items(arg.batch))
  {
    match arg
    case Absent => Success([])
    case Given(b) => Success(Items(b))
    case Invalid => Failure(TypeError)
  }
}
