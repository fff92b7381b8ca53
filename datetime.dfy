/**
 * The packed 8-byte date of the fiscal memory: u16 year (little-endian),
 * then month, day, hour, minutes, seconds and hundredths of a second, one
 * byte each; eight 0xFF bytes mean "no date".
 *
 * A decoded date carries both its raw fields and the UTC instant they
 * denote. JavaScript keeps that instant as an ISO-8601 string; here it is
 * the number of milliseconds since 1970-01-01T00:00:00Z that the string
 * stands for, and `None` stands for a missing or unparseable string.
 */
module FiscalDate {
  import opened Wrappers
  import opened Bytes

  datatype RawDate = RawDate(year: int, month: int, day: int, hour: int, minutes: int, seconds: int, mseconds: int)

  /** A `FiscalDateTime`: raw fields and the instant (`iso`). */
  datatype Stamp = Stamp(raw: Option<RawDate>, iso: Option<int>)

  const MS_PER_DAY := 86_400_000

  /** Every field fits the byte width it is stored in (Node's `writeUInt*` throws otherwise). */
  predicate RawFits(r: RawDate)
  {
    && 0 <= r.year < 0x1_0000 && 0 <= r.month < 256 && 0 <= r.day < 256 && 0 <= r.hour < 256
    && 0 <= r.minutes < 256 && 0 <= r.seconds < 256 && 0 <= r.mseconds < 256
  }

  /** The eight stored bytes of raw fields. */
  function RawBytes(r: RawDate): (b: seq<byte>)
    requires RawFits(r)
    ensures |b| == 8
  {
    LeBytes(r.year, 2) + [r.month, r.day, r.hour, r.minutes, r.seconds, r.mseconds]
  }

  /** The absent-date pattern: year 0xFFFF and six 0xFF bytes. */
  predicate IsSentinel(r: RawDate)
  {
    r.year == 0xFFFF && r.month == 0xFF && r.day == 0xFF && r.hour == 0xFF
    && r.minutes == 0xFF && r.seconds == 0xFF && r.mseconds == 0xFF
  }

  /** Days from 1970-01-01 to the given proleptic Gregorian date (month 1..12). */
  function DaysFromCivil(y: int, m: int, d: int): int
  {
    var y' := if m <= 2 then y - 1 else y;
    var era := y' / 400;
    var yoe := y' - era * 400;
    var mp := if m > 2 then m - 3 else m + 9;
    var doy := (153 * mp + 2) / 5 + d - 1;
    var doe := yoe * 365 + yoe / 4 - yoe / 100 + doy;
    era * 146097 + doe - 719468
  }

  /**
   * `Date.UTC(year, Math.max(0, month - 1), day, hour, minutes, seconds,
   * Math.min(999, mseconds * 10))`: years 0..99 mean 1900..1999, a month
   * index past 11 carries into the year, and the other fields may overflow
   * into the next unit.
   */
  function UtcInstant(r: RawDate): int
  {
    Millis(UtcDays(r), r.hour, r.minutes, r.seconds, if r.mseconds * 10 < 999 then r.mseconds * 10 else 999)
  }

  /** The day count `Date.UTC` reaches from the year, month and day fields. */
  function UtcDays(r: RawDate): int
  {
    var y := if 0 <= r.year <= 99 then 1900 + r.year else r.year;
    var m0 := if r.month - 1 > 0 then r.month - 1 else 0;
    DaysFromCivil(y + m0 / 12, m0 % 12 + 1, 1) + r.day - 1
  }

  /** Milliseconds since the epoch of a day count and a time of day. */
  function Millis(days: int, hour: int, minutes: int, seconds: int, ms: int): int
  {
    days * MS_PER_DAY + hour * 3_600_000 + minutes * 60_000 + seconds * 1000 + ms
  }

  lemma MillisPart(days: int, hour: int, minutes: int, seconds: int, ms: int)
    requires 0 <= ms < 1000
    ensures Millis(days, hour, minutes, seconds, ms) % 1000 == ms
  {
    var k := days * 86_400 + hour * 3_600 + minutes * 60 + seconds;
    assert days * MS_PER_DAY + hour * 3_600_000 + minutes * 60_000 + seconds * 1000 + ms == k * 1000 + ms;
  }

  /** The millisecond part of a decoded instant is the stored hundredths times ten, capped at 999. */
  lemma InstantMillis(r: RawDate)
    requires RawFits(r)
    ensures UtcInstant(r) % 1000 == if r.mseconds * 10 < 999 then r.mseconds * 10 else 999
  {
    MillisPart(UtcDays(r), r.hour, r.minutes, r.seconds, if r.mseconds * 10 < 999 then r.mseconds * 10 else 999);
  }

  /**
   * The UTC calendar fields of an instant, as `getUTCFullYear()`,
   * `getUTCMonth() + 1`, `getUTCDate()`, `getUTCHours()`, `getUTCMinutes()`,
   * `getUTCSeconds()` and `Math.floor(getUTCMilliseconds() / 10)` give them.
   */
  function FieldsOfInstant(t: int): RawDate
  {
    var days := t / MS_PER_DAY;
    var msInDay := t % MS_PER_DAY;
    var z := days + 719468;
    var era := z / 146097;
    var doe := z - era * 146097;
    var yoe := (doe - doe / 1460 + doe / 36524 - doe / 146096) / 365;
    var doy := doe - (365 * yoe + yoe / 4 - yoe / 100);
    var mp := (5 * doy + 2) / 153;
    var d := doy - (153 * mp + 2) / 5 + 1;
    var m := if mp < 10 then mp + 3 else mp - 9;
    var y := yoe + era * 400 + (if m <= 2 then 1 else 0);
    RawDate(y, m, d, msInDay / 3_600_000, msInDay / 60_000 % 60, msInDay / 1000 % 60, msInDay % 1000 / 10)
  }

  /** `parseDateTime` on the eight bytes of a date. */
  function ParseDateTime(b: seq<byte>): (st: Option<Stamp>)
    requires |b| == 8
    ensures st.None? <==> forall k | 0 <= k < 8 :: b[k] == 0xFF
    ensures st.Some? ==> st.value.raw.Some? && RawFits(st.value.raw.value)
    ensures st.Some? ==> RawBytes(st.value.raw.value) == b
    ensures st.Some? ==> st.value.iso == Some(UtcInstant(st.value.raw.value))
  {
    LeBytesOfValue(b[..2]);
    var raw := RawDate(LeValue(b[..2]), b[2], b[3], b[4], b[5], b[6], b[7]);
    assert RawBytes(raw) == b[..2] + b[2..];
    if IsSentinel(raw) then None else Some(Stamp(Some(raw), Some(UtcInstant(raw))))
  }

  /** The `iso` of an optional stamp (`rec?.dateTime?.iso`). */
  function Instant(st: Option<Stamp>): Option<int>
  {
    if st.Some? then st.value.iso else None
  }

  /** The fields `writeDateTime` would store: `raw`, else those of `iso`, else none. */
  function FieldsToWrite(st: Option<Stamp>): Option<RawDate>
  {
    match st
    case None => None
    case Some(Stamp(raw, iso)) =>
      if raw.Some? then raw else if iso.Some? then Some(FieldsOfInstant(iso.value)) else None
  }

  /** `writeDateTime` does not throw: the fields it stores fit their widths. */
  predicate StampWritable(st: Option<Stamp>)
  {
    FieldsToWrite(st).Some? ==> RawFits(FieldsToWrite(st).value)
  }

  /** The eight bytes `writeDateTime` leaves where `base` was. */
  function DateField(base: seq<byte>, st: Option<Stamp>): (field: seq<byte>)
    requires |base| == 8 && StampWritable(st)
    ensures |field| == 8
    ensures FieldsToWrite(st).None? ==> field == base
  {
    if FieldsToWrite(st).Some? then RawBytes(FieldsToWrite(st).value) else base
  }

  /** A stamp as decoding produces it: raw fields present, not the sentinel, `iso` their instant. */
  predicate CanonicalStamp(st: Option<Stamp>)
  {
    st.Some? ==>
      && st.value.raw.Some? && RawFits(st.value.raw.value) && !IsSentinel(st.value.raw.value)
      && st.value.iso == Some(UtcInstant(st.value.raw.value))
  }

  /**
   * Writing a decoded date into erased flash and parsing it back yields the
   * same date; a missing date leaves the sentinel, which parses as missing.
   */
  lemma DateRoundTrip(st: Option<Stamp>)
    requires CanonicalStamp(st)
    ensures StampWritable(st)
    ensures ParseDateTime(DateField(Erased(8), st)) == st
  {
    if st.Some? {
      var raw := st.value.raw.value;
      var b := RawBytes(raw);
      LeRoundTrip(raw.year, 2);
      assert b[..2] == LeBytes(raw.year, 2);
      assert LeValue(b[..2]) == raw.year;
      assert b[2..] == [raw.month, raw.day, raw.hour, raw.minutes, raw.seconds, raw.mseconds];
    }
  }

  /** The seven `writeUInt16LE`/`writeUInt8` calls that store raw fields. */
  method WriteRawFields(buf: array<byte>, off: nat, f: RawDate)
    requires off + 8 <= buf.Length && RawFits(f)
    modifies buf
    ensures buf[..] == Splice(old(buf[..]), off, RawBytes(f))
  {
    ghost var b0 := buf[..];
    buf[off] := f.year % 256;
    buf[off + 1] := f.year / 256;
    buf[off + 2] := f.month;
    buf[off + 3] := f.day;
    buf[off + 4] := f.hour;
    buf[off + 5] := f.minutes;
    buf[off + 6] := f.seconds;
    buf[off + 7] := f.mseconds;
    ghost var field := RawBytes(f);
    assert LeBytes(f.year / 256, 1) == [f.year / 256];
    assert field == [f.year % 256, f.year / 256, f.month, f.day, f.hour, f.minutes, f.seconds, f.mseconds];
    forall k | 0 <= k < buf.Length
      ensures buf[k] == Splice(b0, off, field)[k]
    {
    }
  }

  /**
   * `writeDateTime(buffer, offset, value)`: nothing when the value or its
   * fields are missing, otherwise the seven fields in order.
   */
  method WriteDateTime(buf: array<byte>, off: nat, st: Option<Stamp>)
    requires off + 8 <= buf.Length && StampWritable(st)
    modifies buf
    ensures buf[..] == Splice(old(buf[..]), off, DateField(old(buf[off..off + 8]), st))
    ensures st.None? ==> buf[..] == old(buf[..])
  {
    SpliceSame(buf[..], off, 8);
    if st.None? {
      return;
    }
    var fields := st.value.raw;
    if fields.None? && st.value.iso.Some? {
      fields := Some(FieldsOfInstant(st.value.iso.value));
    }
    if fields.None? {
      return;
    }
    WriteRawFields(buf, off, fields.value);
  }
}
