/**
 Dates, times and timestamps in COPY BINARY: a date is a day, a month and a 16-bit year; a time is 32
 bits of microseconds, then second, minute, hour and a padding byte; a timestamp is a time and a date.
 All-ones stands for NULL.
 */
module Timestamps {
  import opened Wrappers
  import opened Bytes
  import opened CivilDates

  const MICROS_PER_DAY := 86_400_000_000
  const MIN_YEAR := -4712
  const MAX_YEAR := 32767

  datatype EncodeError = OutsideChrono | BeforeMinimumYear | YearOutOfRange | OutsideDay | Overflow

  datatype DecodeError = PartialNull | InvalidDate | OutsideDate32 | InvalidTime | MismatchedNull

  /** The bytes of one value. */
  datatype Field = Field(bytes: ByteString) | NoField(error: EncodeError)

  /** One decoded value. */
  datatype Reading = Null | Number(value: int) | Invalid(error: DecodeError)

  // ----- Little-endian numbers -----

  function I16Bytes(v: int): (b: ByteString)
    requires -0x8000 <= v < 0x8000
    ensures |b| == 2
  {
    var u := if v < 0 then v + 0x1_0000 else v;
    [u % 256, u / 256]
  }

  function I16Of(low: Byte, high: Byte): int {
    var u := low + 256 * high;
    if u >= 0x8000 then u - 0x1_0000 else u
  }

  function U32Bytes(v: int): (b: ByteString)
    requires 0 <= v < 0x1_0000_0000
    ensures |b| == 4
  {
    [v % 256, v / 256 % 256, v / 256 / 256 % 256, v / 256 / 256 / 256]
  }

  function U32Of(b0: Byte, b1: Byte, b2: Byte, b3: Byte): int {
    b0 + 256 * (b1 + 256 * (b2 + 256 * b3))
  }

  lemma U32Inverts(v: int)
    requires 0 <= v < 0x1_0000_0000
    ensures U32Of(v % 256, v / 256 % 256, v / 256 / 256 % 256, v / 256 / 256 / 256) == v
  {
  }

  // ----- Dates -----

  /** The calendar library's date, within its own years. */
  function DateFromDays(days: int): Option<Civil> {
    var c := Calendar(days);
    if -262143 <= c.year <= 262142 then Some(c) else None
  }

  function DateField(days: int): Field {
    var date := DateFromDays(days);
    if date.None? then NoField(OutsideChrono)
    else
      var c := date.value;
      if c.year < MIN_YEAR then NoField(BeforeMinimumYear)
      else if c.year > MAX_YEAR then NoField(YearOutOfRange)
      else DateBytes(c)
  }

  function DateBytes(c: Civil): (f: Field)
    requires ValidYmd(c) && MIN_YEAR <= c.year <= MAX_YEAR
    ensures f.Field?
  {
    var day: Byte, month: Byte, year := c.day, c.month, I16Bytes(c.year);
    Field([day, month, year[0], year[1]])
  }

  function DateValue(b0: Byte, b1: Byte, b2: Byte, b3: Byte): Reading {
    if b1 == 255 then
      if b0 == 255 && b2 == 255 && b3 == 255 then Null else Invalid(PartialNull)
    else
      var c := Civil(I16Of(b2, b3), b1, b0);
      if !ValidYmd(c) then Invalid(InvalidDate)
      else if !(-0x8000_0000 <= DaysFromCivil(c) < 0x8000_0000) then Invalid(OutsideDate32)
      else Number(DaysFromCivil(c))
  }

  // ----- Times of day -----

  function TimeField(micros: int): Field {
    if !(0 <= micros < MICROS_PER_DAY) then NoField(OutsideDay)
    else
      var seconds := micros / 1_000_000;
      var s: Byte, m: Byte, h: Byte := seconds % 60, seconds / 60 % 60, seconds / 3600;
      Field(U32Bytes(micros % 1_000_000) + [s, m, h, 0])
  }

  function TimeValue(b: ByteString): Reading
    requires |b| == 8
  {
    var micros := U32Of(b[0], b[1], b[2], b[3]);
    if micros == 0xFFFF_FFFF then
      if b[4] == 255 && b[5] == 255 && b[6] == 255 && b[7] == 255 then Null else Invalid(PartialNull)
    else if micros >= 1_000_000 || b[4] >= 60 || b[5] >= 60 || b[6] >= 24 then Invalid(InvalidTime)
    else Number(((b[6] * 60 + b[5]) * 60 + b[4]) * 1_000_000 + micros)
  }

  // ----- Timestamps -----

  function TimestampField(micros: int): Field {
    var time := TimeField(micros % MICROS_PER_DAY);
    var date := DateField(micros / MICROS_PER_DAY);
    if time.NoField? then time else if date.NoField? then date else Field(time.bytes + date.bytes)
  }

  function TimestampValue(b: ByteString): Reading
    requires |b| == 12
  {
    var time := TimeValue(b[..8]);
    var date := DateValue(b[8], b[9], b[10], b[11]);
    if time.Invalid? then time
    else if date.Invalid? then date
    else if time.Null? && date.Null? then Null
    else if time.Number? && date.Number? then Number(date.value * MICROS_PER_DAY + time.value)
    else Invalid(MismatchedNull)
  }

  // ----- Round trips -----

  lemma DaysFit(c: Civil)
    requires ValidYmd(c) && -0x8000 <= c.year < 0x8000
    ensures -0x8000_0000 <= DaysFromCivil(c) < 0x8000_0000
  {
    DaysByYear(c);
  }

  lemma I16Inverts(v: int)
    requires -0x8000 <= v < 0x8000
    ensures I16Of(I16Bytes(v)[0], I16Bytes(v)[1]) == v
  {
  }

  lemma CivilRoundTrip(c: Civil)
    requires ValidYmd(c) && MIN_YEAR <= c.year <= MAX_YEAR
    ensures var f := DateBytes(c);
            |f.bytes| == 4 && f.bytes[1] != 255
            && DateValue(f.bytes[0], f.bytes[1], f.bytes[2], f.bytes[3]) == Number(DaysFromCivil(c))
  {
    I16Inverts(c.year);
    DaysFit(c);
  }

  lemma DateRoundTrip(days: int)
    ensures DateField(days).Field? <==> MIN_YEAR <= Calendar(days).year <= MAX_YEAR
    ensures var f := DateField(days);
            f.Field? ==> |f.bytes| == 4 && f.bytes[1] != 255
                         && DateValue(f.bytes[0], f.bytes[1], f.bytes[2], f.bytes[3]) == Number(days)
  {
    var c := Calendar(days);
    if MIN_YEAR <= c.year <= MAX_YEAR {
      CalendarCounts(days);
      CivilRoundTrip(c);
    }
  }

  lemma TimeRoundTrip(micros: int)
    requires 0 <= micros < MICROS_PER_DAY
    ensures var f := TimeField(micros);
            f.Field? && |f.bytes| == 8 && f.bytes[7] == 0 && TimeValue(f.bytes) == Number(micros)
  {
    var seconds, rest := micros / 1_000_000, micros % 1_000_000;
    var s: Byte, m: Byte, h: Byte := seconds % 60, seconds / 60 % 60, seconds / 3600;
    U32Inverts(rest);
    ClockReads(U32Bytes(rest), s, m, h);
    ClockSplits(seconds);
  }

  lemma ClockReads(u: ByteString, s: Byte, m: Byte, h: Byte)
    requires |u| == 4 && U32Of(u[0], u[1], u[2], u[3]) < 1_000_000 && s < 60 && m < 60 && h < 24
    ensures TimeValue(u + [s, m, h, 0])
         == Number(((h * 60 + m) * 60 + s) * 1_000_000 + U32Of(u[0], u[1], u[2], u[3]))
  {
  }

  lemma ClockSplits(seconds: int)
    ensures (seconds / 3600 * 60 + seconds / 60 % 60) * 60 + seconds % 60 == seconds
  {
    assert seconds / 3600 == seconds / 60 / 60;
  }

  /** The microseconds that have a wire form: those from year -4712 to year 32767. */
  predicate InRange(micros: int) {
    DaysFromCivil(Civil(MIN_YEAR, 1, 1)) * MICROS_PER_DAY <= micros
      < (DaysFromCivil(Civil(MAX_YEAR, 12, 31)) + 1) * MICROS_PER_DAY
  }

  lemma RangeByDay(micros: int)
    ensures InRange(micros) <==> MIN_YEAR <= Calendar(micros / MICROS_PER_DAY).year <= MAX_YEAR
  {
    YearRange(micros / MICROS_PER_DAY, MIN_YEAR, MAX_YEAR);
  }

  lemma ReadsParts(time: ByteString, date: ByteString)
    requires |time| == 8 && |date| == 4
    requires TimeValue(time).Number? && DateValue(date[0], date[1], date[2], date[3]).Number?
    ensures TimestampValue(time + date)
         == Number(DateValue(date[0], date[1], date[2], date[3]).value * MICROS_PER_DAY + TimeValue(time).value)
  {
    assert (time + date)[..8] == time;
  }

  /** A timestamp has a wire form exactly within its years; that form is never NULL and reads back. */
  lemma TimestampRoundTrip(micros: int)
    ensures TimestampField(micros).Field? <==> InRange(micros)
    ensures var f := TimestampField(micros);
            f.Field? ==> |f.bytes| == 12 && f.bytes[7] == 0 && TimestampValue(f.bytes) == Number(micros)
  {
    var days, rest := micros / MICROS_PER_DAY, micros % MICROS_PER_DAY;
    RangeByDay(micros);
    DateRoundTrip(days);
    TimeRoundTrip(rest);
    if DateField(days).Field? {
      ReadsParts(TimeField(rest).bytes, DateField(days).bytes);
    }
  }

  lemma TimeReencodes(b: ByteString)
    requires |b| == 8 && TimeValue(b).Number?
    ensures 0 <= TimeValue(b).value < MICROS_PER_DAY && TimeField(TimeValue(b).value) == Field(b[7 := 0])
  {
    var micros, h: int, m: int, s: int := U32Of(b[0], b[1], b[2], b[3]), b[6], b[5], b[4];
    ClockDigits(h, m, s, micros);
    U32Digits(b[0], b[1], b[2], b[3]);
  }

  lemma ClockDigits(h: int, m: int, s: int, micros: int)
    requires 0 <= h < 24 && 0 <= m < 60 && 0 <= s < 60 && 0 <= micros < 1_000_000
    ensures var t := ((h * 60 + m) * 60 + s) * 1_000_000 + micros;
            && 0 <= t < MICROS_PER_DAY && t % 1_000_000 == micros
            && t / 1_000_000 % 60 == s && t / 1_000_000 / 60 % 60 == m && t / 1_000_000 / 3600 == h
  {
    var t := ((h * 60 + m) * 60 + s) * 1_000_000 + micros;
    assert t / 1_000_000 == (h * 60 + m) * 60 + s;
  }

  lemma U32Digits(b0: Byte, b1: Byte, b2: Byte, b3: Byte)
    ensures U32Bytes(U32Of(b0, b1, b2, b3)) == [b0, b1, b2, b3]
  {
    var v3: int := b3;
    var v2 := b2 + 256 * v3;
    var v1 := b1 + 256 * v2;
    var v := b0 + 256 * v1;
    assert v / 256 == v1 && v1 / 256 == v2 && v2 / 256 == v3;
  }

  lemma I16Digits(low: Byte, high: Byte)
    ensures -0x8000 <= I16Of(low, high) < 0x8000 && I16Bytes(I16Of(low, high)) == [low, high]
  {
  }

  lemma DateFieldOf(c: Civil)
    requires ValidYmd(c) && MIN_YEAR <= c.year <= MAX_YEAR
    ensures DateField(DaysFromCivil(c)) == DateBytes(c)
  {
    CalendarInverts(c);
  }

  lemma DateReencodes(b0: Byte, b1: Byte, b2: Byte, b3: Byte)
    requires DateValue(b0, b1, b2, b3).Number? && I16Of(b2, b3) >= MIN_YEAR
    ensures DateField(DateValue(b0, b1, b2, b3).value) == Field([b0, b1, b2, b3])
  {
    I16Digits(b2, b3);
    DateFieldOf(Civil(I16Of(b2, b3), b1, b0));
  }

  /** A date before the first year that can be written, which can be read all the same. */
  lemma EarlyDate(b0: Byte, b1: Byte, b2: Byte, b3: Byte)
    requires DateValue(b0, b1, b2, b3).Number? && I16Of(b2, b3) < MIN_YEAR
    ensures DateField(DateValue(b0, b1, b2, b3).value).NoField?
  {
    CalendarInverts(Civil(I16Of(b2, b3), b1, b0));
  }

  lemma WritesBack(b: ByteString)
    requires |b| == 12 && TimestampValue(b).Number? && I16Of(b[10], b[11]) >= MIN_YEAR
    ensures TimestampField(TimestampValue(b).value) == Field(b[7 := 0])
  {
    var time, date := TimeValue(b[..8]), DateValue(b[8], b[9], b[10], b[11]);
    TimeReencodes(b[..8]);
    DateReencodes(b[8], b[9], b[10], b[11]);
    DivMod(date.value, time.value);
    assert b[..8][7 := 0] + [b[8], b[9], b[10], b[11]] == b[7 := 0];
  }

  lemma EarlyTimestamp(b: ByteString)
    requires |b| == 12 && TimestampValue(b).Number? && I16Of(b[10], b[11]) < MIN_YEAR
    ensures TimestampField(TimestampValue(b).value).NoField?
  {
    var time, date := TimeValue(b[..8]), DateValue(b[8], b[9], b[10], b[11]);
    TimeReencodes(b[..8]);
    EarlyDate(b[8], b[9], b[10], b[11]);
    DivMod(date.value, time.value);
  }

  /**
   A timestamp read from the wire is written the same way, up to the padding byte, exactly when its
   year is one that can be written; reading accepts earlier years as well.
   */
  lemma TimestampReencodes(b: ByteString)
    requires |b| == 12 && TimestampValue(b).Number?
    ensures TimestampField(TimestampValue(b).value) == Field(b[7 := 0]) <==> I16Of(b[10], b[11]) >= MIN_YEAR
    ensures I16Of(b[10], b[11]) < MIN_YEAR ==> TimestampField(TimestampValue(b).value).NoField?
  {
    if I16Of(b[10], b[11]) >= MIN_YEAR {
      WritesBack(b);
    } else {
      EarlyTimestamp(b);
    }
  }

  lemma DivMod(days: int, rest: int)
    requires 0 <= rest < MICROS_PER_DAY
    ensures (days * MICROS_PER_DAY + rest) / MICROS_PER_DAY == days
    ensures (days * MICROS_PER_DAY + rest) % MICROS_PER_DAY == rest
  {
  }

  // ----- Columns -----

  const NULL_FIELD: ByteString := [255, 255, 255, 255, 255, 255, 255, 255, 255, 255, 255, 255]

  predicate I64(v: int) {
    -0x8000_0000_0000_0000 <= v < 0x8000_0000_0000_0000
  }

  /** The wire form of a nullable value counted in units of `factor` microseconds. */
  function ValueField(v: Option<int>, factor: nat): Field {
    if v.None? then Field(NULL_FIELD)
    else if !I64(v.value * factor) then NoField(Overflow)
    else TimestampField(v.value * factor)
  }

  /** What a nullable value reads as after the round trip. */
  function Meaning(v: Option<int>, factor: nat): Reading {
    if v.None? then Null else Number(v.value * factor)
  }

  predicate Sendable(v: Option<int>, factor: nat) {
    v.Some? ==> I64(v.value * factor) && InRange(v.value * factor)
  }

  lemma ValueRoundTrip(v: Option<int>, factor: nat)
    ensures ValueField(v, factor).Field? <==> Sendable(v, factor)
    ensures var f := ValueField(v, factor);
            f.Field? ==> |f.bytes| == 12 && TimestampValue(f.bytes) == Meaning(v, factor)
    ensures v.Some? && ValueField(v, factor).Field? ==> ValueField(v, factor).bytes != NULL_FIELD
  {
    if v.Some? {
      TimestampRoundTrip(v.value * factor);
    }
  }

  /** Row `i` of a column of 12-byte values. */
  function RowAt(bytes: ByteString, i: nat): (b: ByteString)
    requires 12 * (i + 1) <= |bytes|
    ensures |b| == 12
  {
    bytes[12 * i..12 * i + 12]
  }

  type Encoder = Option<int> -> Field

  ghost predicate Fixed(encode: Encoder) {
    forall v :: encode(v).Field? ==> |encode(v).bytes| == 12
  }

  /** The column holds the wire form of its first `n` values. */
  ghost predicate Holds(bytes: ByteString, values: seq<Option<int>>, encode: Encoder, n: nat)
    requires n <= |values|
  {
    && |bytes| == 12 * n
    && forall i :: 0 <= i < n ==> encode(values[i]) == Field(RowAt(bytes, i))
  }

  lemma HoldsMore(bytes: ByteString, values: seq<Option<int>>, encode: Encoder, n: nat, b: ByteString)
    requires n < |values| && Holds(bytes, values, encode, n) && encode(values[n]) == Field(b) && |b| == 12
    ensures Holds(bytes + b, values, encode, n + 1)
  {
    forall i | 0 <= i < n + 1 ensures encode(values[i]) == Field(RowAt(bytes + b, i)) {
      assert RowAt(bytes + b, i) == if i < n then RowAt(bytes, i) else b;
    }
  }

  /** Writes the rows in order, and stops at the first one without a wire form. */
  method EncodeRows(encode: Encoder, values: seq<Option<int>>) returns (r: Result<ByteString, (nat, EncodeError)>)
    requires Fixed(encode)
    ensures r.Ok? ==> Holds(r.value, values, encode, |values|)
    ensures r.Err? ==> r.error.0 < |values| && encode(values[r.error.0]) == NoField(r.error.1)
                       && forall i :: 0 <= i < r.error.0 ==> encode(values[i]).Field?
  {
    var out: ByteString := [];
    for row: nat := 0 to |values|
      invariant Holds(out, values, encode, row)
    {
      var field := encode(values[row]);
      if field.NoField? {
        return Err((row, field.error));
      }
      HoldsMore(out, values, encode, row, field.bytes);
      out := out + field.bytes;
    }
    r := Ok(out);
  }

  /** A decoded column, or the row that has no meaning; a wrong length is reported at row 0. */
  datatype Column = Column(readings: seq<Reading>) | BadLength(expected: nat, actual: nat) | BadRow(row: nat, error: DecodeError)

  method DecodeTimestamps(bytes: ByteString, rows: nat) returns (r: Column)
    ensures r.BadLength? <==> |bytes| != 12 * rows
    ensures r.Column? ==> |r.readings| == rows
                          && forall i :: 0 <= i < rows ==> TimestampValue(RowAt(bytes, i)) == r.readings[i] && !r.readings[i].Invalid?
    ensures r.BadRow? ==> r.row < rows && TimestampValue(RowAt(bytes, r.row)) == Invalid(r.error)
                          && forall i :: 0 <= i < r.row ==> !TimestampValue(RowAt(bytes, i)).Invalid?
  {
    if |bytes| != 12 * rows {
      return BadLength(12 * rows, |bytes|);
    }
    var readings: seq<Reading> := [];
    for row: nat := 0 to rows
      invariant |readings| == row
      invariant forall i :: 0 <= i < row ==> TimestampValue(RowAt(bytes, i)) == readings[i] && !readings[i].Invalid?
    {
      var value := TimestampValue(RowAt(bytes, row));
      if value.Invalid? {
        return BadRow(row, value.error);
      }
      readings := readings + [value];
    }
    r := Column(readings);
  }

  lemma EveryValue(factor: nat)
    ensures forall v :: ValueField(v, factor).Field? <==> Sendable(v, factor)
    ensures forall v :: ValueField(v, factor).Field? ==>
              |ValueField(v, factor).bytes| == 12 && TimestampValue(ValueField(v, factor).bytes) == Meaning(v, factor)
  {
    forall v ensures ValueField(v, factor).Field? <==> Sendable(v, factor)
             ensures ValueField(v, factor).Field? ==>
                       |ValueField(v, factor).bytes| == 12 && TimestampValue(ValueField(v, factor).bytes) == Meaning(v, factor)
    {
      ValueRoundTrip(v, factor);
    }
  }

  /** Sending a column and reading it back: the same values, exactly when every one of them can be sent. */
  method SendTimestamps(values: seq<Option<int>>, factor: nat) returns (r: Option<seq<Reading>>)
    ensures r.Some? <==> forall i :: 0 <= i < |values| ==> Sendable(values[i], factor)
    ensures r.Some? ==> |r.value| == |values| && forall i :: 0 <= i < |values| ==> r.value[i] == Meaning(values[i], factor)
  {
    EveryValue(factor);
    var sent := EncodeRows(v => ValueField(v, factor), values);
    if sent.Err? {
      return None;
    }
    var column := DecodeTimestamps(sent.value, |values|);
    r := Some(column.readings);
  }
}
