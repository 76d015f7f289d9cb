/**
 * `UnixDateTimeConverter`: reads the service's millisecond timestamps (and
 * ready-made dates) into `DateTime`/`DateTimeOffset` values and writes dates
 * back as UTC. Instants are counted in ticks of 100 ns since 0001-01-01T00:00Z.
 */
module DateConversion {
  import opened Wrappers
  import opened Remote

  const TicksPerMillisecond: int := 10000
  const TicksPerSecond: int := 10000000
  /** The last tick a date can hold (9999-12-31T23:59:59.9999999). */
  const MaxTicks: int := 3155378975999999999
  /** 1970-01-01T00:00:00Z, the epoch of the service's timestamps and of `UploadTimestampDate`. */
  const UnixEpochTicks: int := 621355968000000000
  /** The converter's epoch as written: 1970-01-01T00:01:01Z. */
  const ConverterEpochTicks: int := UnixEpochTicks + 61 * TicksPerSecond

  /** The range of a .NET `long`. */
  predicate InLongRange(v: int) {
    -0x8000_0000_0000_0000 <= v < 0x8000_0000_0000_0000
  }

  predicate InDateRange(ticks: int) {
    0 <= ticks <= MaxTicks
  }

  datatype Kind = Unspecified | Utc | Local

  /** A `DateTime`: clock ticks and what they are relative to. */
  datatype DateTime = DateTime(ticks: int, kind: Kind)

  /** A `DateTimeOffset`: the clock ticks and the offset from UTC, in ticks. */
  datatype DateTimeOffset = DateTimeOffset(clockTicks: int, offsetTicks: int)

  function UtcTicksOf(o: DateTimeOffset): int {
    o.clockTicks - o.offsetTicks
  }

  /**
   * The instant a `DateTime` denotes, `localOffset` being the offset of the
   * machine's time zone (an unspecified kind counts as local time).
   */
  function InstantOf(d: DateTime, localOffset: int): int {
    if d.kind == Utc then d.ticks else d.ticks - localOffset
  }

  /** The types a converter can be asked to produce. */
  datatype TargetType = DateTimeType | DateTimeOffsetType | OtherType(name: string)

  /** `CanConvert`. */
  predicate CanConvert(t: TargetType) {
    t.DateTimeType? || t.DateTimeOffsetType?
  }

  /** The JSON tokens a date property can hold (floating-point tokens are not modelled). */
  datatype Token = IntegerToken(value: int) | DateToken(date: DateTime) | OtherToken(kind: string)

  /** A value the converter reads or is given to write. */
  datatype Value = DateTimeValue(dt: DateTime) | OffsetValue(dto: DateTimeOffset) | OtherValue

  /** `epoch.AddMilliseconds(ms)`: the instant, or `ArgumentOutOfRangeException` outside the date range. */
  function AddMilliseconds(epochTicks: int, ms: int): (r: Result<int, Error>)
    ensures r.Ok? <==> InDateRange(epochTicks + ms * TicksPerMillisecond)
    ensures r.Ok? ==> r.value == epochTicks + ms * TicksPerMillisecond
    ensures r.Err? ==> r.error == ArgumentOutOfRange
  {
    var t := epochTicks + ms * TicksPerMillisecond;
    if InDateRange(t) then Ok(t) else Err(ArgumentOutOfRange)
  }

  /**
   * `ReadJson` with a given epoch: an integer token is milliseconds after the
   * epoch (a `DateTime` in UTC for a `DateTime` target, an offset value at +0
   * for any other); a date token is returned as it is for a `DateTime` target
   * and wrapped as an offset value otherwise; any other token is refused.
   */
  function ReadJsonFrom(epochTicks: int, token: Token, target: TargetType, localOffset: int): (r: Result<Value, Error>)
    ensures token.OtherToken? ==> r == Err(JsonSerialization)
    ensures token.IntegerToken? && !InLongRange(token.value) ==> r == Err(InvalidCast)
    ensures token.IntegerToken? && InLongRange(token.value) ==>
      var t := epochTicks + token.value * TicksPerMillisecond;
      && (r.Ok? <==> InDateRange(t))
      && (r.Ok? && target.DateTimeType? ==> r.value == DateTimeValue(DateTime(t, Utc)))
      && (r.Ok? && !target.DateTimeType? ==> r.value.OffsetValue? && UtcTicksOf(r.value.dto) == t && r.value.dto.offsetTicks == 0)
    ensures token.DateToken? && target.DateTimeType? ==> r == Ok(DateTimeValue(token.date))
    ensures token.DateToken? && !target.DateTimeType? ==>
      (r.Ok? <==> InDateRange(InstantOf(token.date, localOffset)))
      && (r.Ok? ==> r.value.OffsetValue? && UtcTicksOf(r.value.dto) == InstantOf(token.date, localOffset)
                    && r.value.dto.clockTicks == token.date.ticks)
  {
    match token
    case OtherToken(_) => Err(JsonSerialization)
    case IntegerToken(v) =>
      if !InLongRange(v) then Err(InvalidCast)
      else (match AddMilliseconds(epochTicks, v)
        case Err(e) => Err(e)
        case Ok(t) =>
          if target.DateTimeType? then Ok(DateTimeValue(DateTime(t, Utc))) else Ok(OffsetValue(DateTimeOffset(t, 0))))
    case DateToken(d) =>
      if target.DateTimeType? then Ok(DateTimeValue(d))
      else
        var offset := if d.kind == Utc then 0 else localOffset;
        if InDateRange(d.ticks - offset) then Ok(OffsetValue(DateTimeOffset(d.ticks, offset))) else Err(ArgumentOutOfRange)
  }

  /** `ReadJson` as written, counting from 1970-01-01T00:01:01Z. */
  function ReadJson(token: Token, target: TargetType, localOffset: int): (r: Result<Value, Error>)
    ensures token.IntegerToken? && InLongRange(token.value) && target.DateTimeType? ==>
      var t := UnixEpochTicks + 61 * TicksPerSecond + token.value * TicksPerMillisecond;
      && (r.Ok? <==> InDateRange(t))
      && (r.Ok? ==> r == Ok(DateTimeValue(DateTime(t, Utc))))
  {
    ReadJsonFrom(ConverterEpochTicks, token, target, localOffset)
  }

  /** `UploadTimestampDate`: the same kind of millisecond count, read from the Unix epoch. */
  function UploadTimestampDate(ms: int): (r: Result<DateTime, Error>)
    ensures r.Ok? ==> r.value == DateTime(UnixEpochTicks + ms * TicksPerMillisecond, Utc)
    ensures r.Ok? <==> InDateRange(UnixEpochTicks + ms * TicksPerMillisecond)
  {
    match AddMilliseconds(UnixEpochTicks, ms)
    case Err(e) => Err(e)
    case Ok(t) => Ok(DateTime(t, Utc))
  }

  /**
   * The converter and the file's own timestamp property disagree by 61 seconds
   * on every timestamp: a timestamp of 0 reads as 1970-01-01T00:01:01Z.
   */
  lemma ConverterEpochIsLate(ms: int)
    requires InLongRange(ms)
    requires InDateRange(ConverterEpochTicks + ms * TicksPerMillisecond)
    requires InDateRange(UnixEpochTicks + ms * TicksPerMillisecond)
    ensures ReadJson(IntegerToken(ms), DateTimeType, 0).Ok? && UploadTimestampDate(ms).Ok?
    ensures ReadJson(IntegerToken(ms), DateTimeType, 0).value.dt.ticks
         == UploadTimestampDate(ms).value.ticks + 61 * TicksPerSecond
  {
  }

  /** `ReadJson` with the evidently intended Unix epoch. */
  function ReadJsonUnix(token: Token, target: TargetType, localOffset: int): (r: Result<Value, Error>)
    ensures token.IntegerToken? && InLongRange(token.value) && target.DateTimeType? ==>
      var t := UnixEpochTicks + token.value * TicksPerMillisecond;
      && (r.Ok? <==> InDateRange(t))
      && (r.Ok? ==> r == Ok(DateTimeValue(DateTime(t, Utc))))
  {
    ReadJsonFrom(UnixEpochTicks, token, target, localOffset)
  }

  /** With the Unix epoch, reading a timestamp agrees with `UploadTimestampDate` on every input. */
  lemma UnixReadAgreesWithTimestamp(ms: int)
    requires InLongRange(ms)
    ensures ReadJsonUnix(IntegerToken(ms), DateTimeType, 0).Ok? <==> UploadTimestampDate(ms).Ok?
    ensures UploadTimestampDate(ms).Ok? ==>
      ReadJsonUnix(IntegerToken(ms), DateTimeType, 0) == Ok(DateTimeValue(UploadTimestampDate(ms).value))
  {
  }

  /** What `WriteJson` writes: the instant of a value converted to UTC (the ISO-8601 text itself is not modelled). */
  datatype Written = Written(utcTicks: int, fromOffset: bool)

  /**
   * `DateTime.ToUniversalTime()`: local and unspecified clock times are shifted
   * by the zone's offset, and a result outside the date range is clamped to it.
   */
  function ToUniversalTime(d: DateTime, localOffset: int): (r: DateTime)
    ensures r.kind == Utc
    ensures InDateRange(InstantOf(d, localOffset)) ==> r.ticks == InstantOf(d, localOffset)
    ensures InDateRange(r.ticks)
  {
    var t := InstantOf(d, localOffset);
    DateTime(if t < 0 then 0 else if t > MaxTicks then MaxTicks else t, Utc)
  }

  /** `WriteJson`: dates of either kind are written as their UTC instant; anything else is refused. */
  function WriteJson(v: Value, localOffset: int): (r: Result<Written, Error>)
    ensures v.OtherValue? <==> r.Err?
    ensures r.Err? ==> r.error == JsonSerialization
    ensures v.OffsetValue? ==> r == Ok(Written(UtcTicksOf(v.dto), true))
    ensures v.DateTimeValue? && InDateRange(InstantOf(v.dt, localOffset)) ==>
      r == Ok(Written(InstantOf(v.dt, localOffset), false))
  {
    match v
    case DateTimeValue(d) => Ok(Written(ToUniversalTime(d, localOffset).ticks, false))
    case OffsetValue(o) => Ok(Written(UtcTicksOf(o), true))
    case OtherValue => Err(JsonSerialization)
  }

  /**
   * Writing an offset value and reading the written date back as a date token
   * (in whatever kind the reader parses it to, as long as it denotes the written
   * instant) gives an offset value at the same UTC instant.
   */
  lemma WriteThenReadKeepsInstant(o: DateTimeOffset, parsed: DateTime, localOffset: int)
    requires InDateRange(UtcTicksOf(o))
    requires InstantOf(parsed, localOffset) == WriteJson(OffsetValue(o), localOffset).value.utcTicks
    ensures var back := ReadJson(DateToken(parsed), DateTimeOffsetType, localOffset);
      back.Ok? && back.value.OffsetValue? && UtcTicksOf(back.value.dto) == UtcTicksOf(o)
  {
  }
}
