/**
 * The small fixed-size records of the fiscal memory: serial number, start
 * of fiscal mode, fiscal-memory numbers, tax ids, RAM resets and the
 * electronic-journal open/close marks. Each kind has a parser over the
 * record's own bytes, the byte image its writer leaves, the in-place
 * writer itself, and a round-trip lemma.
 *
 * Every writer zero-fills some reserved bytes before sealing, so what it
 * writes is never an erased record and always carries a valid checksum.
 */
module Records {
  import opened Wrappers
  import opened Bytes
  import opened FixedText
  import opened Checksum
  import opened FiscalDate

  const SERIAL_RECORD_SIZE := 24
  const FISCAL_MODE_START_SIZE := 16
  const FM_NUMBER_RECORD_SIZE := 24
  const TAX_ID_RECORD_SIZE := 32
  const RAM_RESET_RECORD_SIZE := 16
  const EJ_RECORD_SIZE := 24

  /** The record's bytes before the checksum, then the checksum. */
  function Sealed(body: seq<byte>, base: seq<byte>): (r: seq<byte>)
    requires |base| == |body| + 1
    ensures |r| == |base| && r[..|body|] == body
  {
    SealShape(body + [base[|body|]]);
    assert (body + [base[|body|]])[..|body|] == body;
    Seal(body + [base[|body|]])
  }

  /** A record closed by a zero byte before its checksum is never erased, and verifies. */
  lemma SealedRecord(body: seq<byte>, base: seq<byte>)
    requires |base| == |body| + 1 && |body| >= 1 && body[|body| - 1] == 0
    ensures !IsErased(Sealed(body, base)) && ChecksumOk(Sealed(body, base))
  {
    SealVerifies(body + [base[|body|]]);
  }

  /**
   * The closing `applyChecksum` of every writer: once the fields `body` stand
   * over the old record `b0[off..off + size]`, the record becomes `Sealed(body, ...)`.
   */
  method SealFields(buf: array<byte>, off: nat, size: nat, ghost b0: seq<byte>, ghost body: seq<byte>)
    requires 1 <= size && off + size <= |b0| == buf.Length && |body| == size - 1
    requires buf[..] == Splice(b0, off, body)
    modifies buf
    ensures buf[..] == Splice(b0, off, Sealed(body, b0[off..off + size]))
  {
    ghost var s := buf[..];
    ApplyChecksum(buf, off, size);
    SealOverFields(s, b0, off, size, body);
  }

  /** After the fields, `applyChecksum` finds them followed by the old last byte and seals that. */
  lemma SealOverFields(s: seq<byte>, b0: seq<byte>, off: nat, size: nat, body: seq<byte>)
    requires 1 <= size && off + size <= |b0| && |body| == size - 1 && s == Splice(b0, off, body)
    ensures Splice(s, off, Seal(s[off..off + size])) == Splice(b0, off, Sealed(body, b0[off..off + size]))
  {
    var base := b0[off..off + size];
    assert s[off..off + size] == body + [base[size - 1]];
    SpliceCover(b0, off, body, Sealed(body, base));
  }

  // ---------------------------------------------------------------------
  // Serial number record (24 bytes): text[10], date[8], reserved[5], checksum.

  datatype SerialRecord = SerialRecord(serialNumber: seq<byte>, dateTime: Option<Stamp>)

  function SerialBody(base: seq<byte>, v: SerialRecord): (body: seq<byte>)
    requires |base| == SERIAL_RECORD_SIZE && StampWritable(v.dateTime)
    ensures |body| == SERIAL_RECORD_SIZE - 1
    ensures body[..10] == TextField(v.serialNumber, 10) && body[10..18] == DateField(base[10..18], v.dateTime)
    ensures body[18..] == Zeros(5)
  {
    TextField(v.serialNumber, 10) + DateField(base[10..18], v.dateTime) + Zeros(5)
  }

  /** The 24 bytes `writeSerialRecord` leaves where `base` was. */
  function SerialImage(base: seq<byte>, v: Option<SerialRecord>): (r: seq<byte>)
    requires |base| == SERIAL_RECORD_SIZE && (v.Some? ==> StampWritable(v.value.dateTime))
    ensures |r| == SERIAL_RECORD_SIZE
    ensures v.None? ==> r == base
    ensures v.Some? ==> !IsErased(r) && ChecksumOk(r)
  {
    if v.None? then base else
      SealedRecord(SerialBody(base, v.value), base);
      Sealed(SerialBody(base, v.value), base)
  }

  /** `parseSerialRecord`. */
  function ParseSerialRecord(r: seq<byte>): (v: SerialRecord)
    requires |r| == SERIAL_RECORD_SIZE
    ensures v.serialNumber == ReadString(r[..10]) && v.dateTime == ParseDateTime(r[10..18])
  {
    SerialRecord(ReadString(r[..10]), ParseDateTime(r[10..18]))
  }

  predicate SerialCanonical(v: SerialRecord)
  {
    FitsField(v.serialNumber, 10) && CanonicalStamp(v.dateTime)
  }

  /** A record as decoding produces it, written into erased flash, parses back unchanged. */
  lemma SerialRoundTrip(v: SerialRecord)
    requires SerialCanonical(v)
    ensures StampWritable(v.dateTime)
    ensures ParseSerialRecord(SerialImage(Erased(SERIAL_RECORD_SIZE), Some(v))) == v
  {
    var base := Erased(SERIAL_RECORD_SIZE);
    var r := SerialImage(base, Some(v));
    assert r[..23] == SerialBody(base, v);
    ParseSerialBody(v, r);
  }

  /** The parser reads back every field the writer laid out before the checksum. */
  lemma ParseSerialBody(v: SerialRecord, r: seq<byte>)
    requires SerialCanonical(v) && |r| == SERIAL_RECORD_SIZE
    requires r[..23] == SerialBody(Erased(SERIAL_RECORD_SIZE), v)
    ensures ParseSerialRecord(r) == v
  {
    var body := r[..23];
    TextRoundTrip(v.serialNumber, 10);
    DateRoundTrip(v.dateTime);
    assert Erased(SERIAL_RECORD_SIZE)[10..18] == Erased(8);
    assert r[..10] == body[..10] && r[10..18] == body[10..18];
  }

  /** `writeSerialRecord`: nothing for a missing record. */
  method WriteSerialRecord(buf: array<byte>, off: nat, v: Option<SerialRecord>)
    requires off + SERIAL_RECORD_SIZE <= buf.Length && (v.Some? ==> StampWritable(v.value.dateTime))
    modifies buf
    ensures buf[..] == Splice(old(buf[..]), off, SerialImage(old(buf[off..off + SERIAL_RECORD_SIZE]), v))
  {
    ghost var b0 := buf[..];
    ghost var base := b0[off..off + SERIAL_RECORD_SIZE];
    if v.None? {
      SpliceSame(b0, off, SERIAL_RECORD_SIZE);
      return;
    }
    var x := v.value;
    WriteString(buf, off, 10, x.serialNumber);
    ghost var text := TextField(x.serialNumber, 10);
    ghost var s1 := buf[..];
    WriteDateTime(buf, off + 10, x.dateTime);
    ghost var date := DateField(s1[off + 10..off + 18], x.dateTime);
    SpliceStep(s1, b0, off, text, off + 10, date);
    ghost var s2 := buf[..];
    Fill(buf, off + 18, off + 23, 0);
    SpliceStep(s2, b0, off, text + date, off + 18, Repeat(0, off + 23 - (off + 18)));
    ghost var done := text + date + Repeat(0, off + 23 - (off + 18));
    assert done == SerialBody(base, x) by {
      SpliceBeyond(b0, off, text, off + 10, off + 18);
      SliceOfSlice(b0, off, off + SERIAL_RECORD_SIZE, 10, 18);
    }
    SealFields(buf, off, SERIAL_RECORD_SIZE, b0, done);
    assert SerialImage(base, v) == Sealed(done, base);
  }

  // ---------------------------------------------------------------------
  // Start of fiscal mode (16 bytes): date[8], reserved[7], checksum.

  datatype FiscalModeStart = FiscalModeStart(dateTime: Option<Stamp>)

  function FiscalModeStartBody(base: seq<byte>, v: FiscalModeStart): (body: seq<byte>)
    requires |base| == FISCAL_MODE_START_SIZE && StampWritable(v.dateTime)
    ensures |body| == FISCAL_MODE_START_SIZE - 1
    ensures body[..8] == DateField(base[..8], v.dateTime) && body[8..] == Zeros(7)
  {
    DateField(base[..8], v.dateTime) + Zeros(7)
  }

  /** The 16 bytes `writeFiscalModeStart` leaves where `base` was. */
  function FiscalModeStartImage(base: seq<byte>, v: Option<FiscalModeStart>): (r: seq<byte>)
    requires |base| == FISCAL_MODE_START_SIZE && (v.Some? ==> StampWritable(v.value.dateTime))
    ensures |r| == FISCAL_MODE_START_SIZE
    ensures v.None? ==> r == base
    ensures v.Some? ==> !IsErased(r) && ChecksumOk(r)
  {
    if v.None? then base else
      SealedRecord(FiscalModeStartBody(base, v.value), base);
      Sealed(FiscalModeStartBody(base, v.value), base)
  }

  /** `parseFiscalModeStart`. */
  function ParseFiscalModeStart(r: seq<byte>): (v: FiscalModeStart)
    requires |r| == FISCAL_MODE_START_SIZE
    ensures v.dateTime == ParseDateTime(r[..8])
  {
    FiscalModeStart(ParseDateTime(r[..8]))
  }

  /** A record as decoding produces it, written into erased flash, parses back unchanged. */
  lemma FiscalModeStartRoundTrip(v: FiscalModeStart)
    requires CanonicalStamp(v.dateTime)
    ensures StampWritable(v.dateTime)
    ensures ParseFiscalModeStart(FiscalModeStartImage(Erased(FISCAL_MODE_START_SIZE), Some(v))) == v
  {
    var base := Erased(FISCAL_MODE_START_SIZE);
    var r := FiscalModeStartImage(base, Some(v));
    assert r[..15] == FiscalModeStartBody(base, v);
    ParseFiscalModeStartBody(v, r);
  }

  /** The parser reads back every field the writer laid out before the checksum. */
  lemma ParseFiscalModeStartBody(v: FiscalModeStart, r: seq<byte>)
    requires CanonicalStamp(v.dateTime) && |r| == FISCAL_MODE_START_SIZE
    requires r[..15] == FiscalModeStartBody(Erased(FISCAL_MODE_START_SIZE), v)
    ensures ParseFiscalModeStart(r) == v
  {
    var body := r[..15];
    DateRoundTrip(v.dateTime);
    assert Erased(FISCAL_MODE_START_SIZE)[..8] == Erased(8);
    assert r[..8] == body[..8];
  }

  /** `writeFiscalModeStart`: nothing for a missing record. */
  method WriteFiscalModeStart(buf: array<byte>, off: nat, v: Option<FiscalModeStart>)
    requires off + FISCAL_MODE_START_SIZE <= buf.Length && (v.Some? ==> StampWritable(v.value.dateTime))
    modifies buf
    ensures buf[..] == Splice(old(buf[..]), off, FiscalModeStartImage(old(buf[off..off + FISCAL_MODE_START_SIZE]), v))
  {
    ghost var b0 := buf[..];
    ghost var base := b0[off..off + FISCAL_MODE_START_SIZE];
    if v.None? {
      SpliceSame(b0, off, FISCAL_MODE_START_SIZE);
      return;
    }
    var x := v.value;
    WriteDateTime(buf, off, x.dateTime);
    ghost var date := DateField(b0[off..off + 8], x.dateTime);
    ghost var s1 := buf[..];
    Fill(buf, off + 8, off + 15, 0);
    SpliceStep(s1, b0, off, date, off + 8, Repeat(0, off + 15 - (off + 8)));
    ghost var done := date + Repeat(0, off + 15 - (off + 8));
    assert done == FiscalModeStartBody(base, x) by {
      SliceOfSlice(b0, off, off + FISCAL_MODE_START_SIZE, 0, 8);
    }
    SealFields(buf, off, FISCAL_MODE_START_SIZE, b0, done);
    assert FiscalModeStartImage(base, v) == Sealed(done, base);
  }

  // ---------------------------------------------------------------------
  // Fiscal-memory number record (24 bytes): text[10], date[8], reserved[5], checksum.

  datatype FMNumberRecord = FMNumberRecord(fmNumber: seq<byte>, dateTime: Option<Stamp>)

  function FMNumberBody(base: seq<byte>, v: FMNumberRecord): (body: seq<byte>)
    requires |base| == FM_NUMBER_RECORD_SIZE && StampWritable(v.dateTime)
    ensures |body| == FM_NUMBER_RECORD_SIZE - 1
    ensures body[..10] == TextField(v.fmNumber, 10) && body[10..18] == DateField(base[10..18], v.dateTime)
    ensures body[18..] == Zeros(5)
  {
    TextField(v.fmNumber, 10) + DateField(base[10..18], v.dateTime) + Zeros(5)
  }

  /** The 24 bytes `writeFMNumberRecord` leaves where `base` was. */
  function FMNumberImage(base: seq<byte>, v: Option<FMNumberRecord>): (r: seq<byte>)
    requires |base| == FM_NUMBER_RECORD_SIZE && (v.Some? ==> StampWritable(v.value.dateTime))
    ensures |r| == FM_NUMBER_RECORD_SIZE
    ensures v.None? ==> r == base
    ensures v.Some? ==> !IsErased(r) && ChecksumOk(r)
  {
    if v.None? then base else
      SealedRecord(FMNumberBody(base, v.value), base);
      Sealed(FMNumberBody(base, v.value), base)
  }

  /** `parseFMNumberRecord`. */
  function ParseFMNumberRecord(r: seq<byte>): (v: FMNumberRecord)
    requires |r| == FM_NUMBER_RECORD_SIZE
    ensures v.fmNumber == ReadString(r[..10]) && v.dateTime == ParseDateTime(r[10..18])
  {
    FMNumberRecord(ReadString(r[..10]), ParseDateTime(r[10..18]))
  }

  predicate FMNumberCanonical(v: FMNumberRecord)
  {
    FitsField(v.fmNumber, 10) && CanonicalStamp(v.dateTime)
  }

  /** A record as decoding produces it, written into erased flash, parses back unchanged. */
  lemma FMNumberRoundTrip(v: FMNumberRecord)
    requires FMNumberCanonical(v)
    ensures StampWritable(v.dateTime)
    ensures ParseFMNumberRecord(FMNumberImage(Erased(FM_NUMBER_RECORD_SIZE), Some(v))) == v
  {
    var base := Erased(FM_NUMBER_RECORD_SIZE);
    var r := FMNumberImage(base, Some(v));
    assert r[..23] == FMNumberBody(base, v);
    ParseFMNumberBody(v, r);
  }

  /** The parser reads back every field the writer laid out before the checksum. */
  lemma ParseFMNumberBody(v: FMNumberRecord, r: seq<byte>)
    requires FMNumberCanonical(v) && |r| == FM_NUMBER_RECORD_SIZE
    requires r[..23] == FMNumberBody(Erased(FM_NUMBER_RECORD_SIZE), v)
    ensures ParseFMNumberRecord(r) == v
  {
    var body := r[..23];
    TextRoundTrip(v.fmNumber, 10);
    DateRoundTrip(v.dateTime);
    assert Erased(FM_NUMBER_RECORD_SIZE)[10..18] == Erased(8);
    assert r[..10] == body[..10] && r[10..18] == body[10..18];
  }

  /** `writeFMNumberRecord`: nothing for a missing record. */
  method WriteFMNumberRecord(buf: array<byte>, off: nat, v: Option<FMNumberRecord>)
    requires off + FM_NUMBER_RECORD_SIZE <= buf.Length && (v.Some? ==> StampWritable(v.value.dateTime))
    modifies buf
    ensures buf[..] == Splice(old(buf[..]), off, FMNumberImage(old(buf[off..off + FM_NUMBER_RECORD_SIZE]), v))
  {
    ghost var b0 := buf[..];
    ghost var base := b0[off..off + FM_NUMBER_RECORD_SIZE];
    if v.None? {
      SpliceSame(b0, off, FM_NUMBER_RECORD_SIZE);
      return;
    }
    var x := v.value;
    WriteString(buf, off, 10, x.fmNumber);
    ghost var text := TextField(x.fmNumber, 10);
    ghost var s1 := buf[..];
    WriteDateTime(buf, off + 10, x.dateTime);
    ghost var date := DateField(s1[off + 10..off + 18], x.dateTime);
    SpliceStep(s1, b0, off, text, off + 10, date);
    ghost var s2 := buf[..];
    Fill(buf, off + 18, off + 23, 0);
    SpliceStep(s2, b0, off, text + date, off + 18, Repeat(0, off + 23 - (off + 18)));
    ghost var done := text + date + Repeat(0, off + 23 - (off + 18));
    assert done == FMNumberBody(base, x) by {
      SpliceBeyond(b0, off, text, off + 10, off + 18);
      SliceOfSlice(b0, off, off + FM_NUMBER_RECORD_SIZE, 10, 18);
    }
    SealFields(buf, off, FM_NUMBER_RECORD_SIZE, b0, done);
    assert FMNumberImage(base, v) == Sealed(done, base);
  }

  // ---------------------------------------------------------------------
  // Tax id record (32 bytes): type u8, text[12], reserved[1], date[8],
  // reserved[9], checksum.

  /** `kind` is the record's `type` byte. */
  datatype TaxIdRecord = TaxIdRecord(kind: int, taxNumber: seq<byte>, dateTime: Option<Stamp>)

  predicate TaxIdWritable(v: TaxIdRecord)
  {
    0 <= v.kind < 256 && StampWritable(v.dateTime)
  }

  function TaxIdBody(base: seq<byte>, v: TaxIdRecord): (body: seq<byte>)
    requires |base| == TAX_ID_RECORD_SIZE && TaxIdWritable(v)
    ensures |body| == TAX_ID_RECORD_SIZE - 1
    ensures body[0] == v.kind && body[1..13] == TextField(v.taxNumber, 12) && body[13] == 0
    ensures body[14..22] == DateField(base[14..22], v.dateTime) && body[22..] == Zeros(9)
  {
    LeBytes(v.kind, 1) + TextField(v.taxNumber, 12) + Zeros(1) + DateField(base[14..22], v.dateTime) + Zeros(9)
  }

  /** The 32 bytes `writeTaxIdRecord` leaves where `base` was. */
  function TaxIdImage(base: seq<byte>, v: Option<TaxIdRecord>): (r: seq<byte>)
    requires |base| == TAX_ID_RECORD_SIZE && (v.Some? ==> TaxIdWritable(v.value))
    ensures |r| == TAX_ID_RECORD_SIZE
    ensures v.None? ==> r == base
    ensures v.Some? ==> !IsErased(r) && ChecksumOk(r)
  {
    if v.None? then base else
      SealedRecord(TaxIdBody(base, v.value), base);
      Sealed(TaxIdBody(base, v.value), base)
  }

  /** `parseTaxIdRecord`. */
  function ParseTaxIdRecord(r: seq<byte>): (v: TaxIdRecord)
    requires |r| == TAX_ID_RECORD_SIZE
    ensures v.kind == r[0] && v.taxNumber == ReadString(r[1..13]) && v.dateTime == ParseDateTime(r[14..22])
  {
    TaxIdRecord(r[0], ReadString(r[1..13]), ParseDateTime(r[14..22]))
  }

  predicate TaxIdCanonical(v: TaxIdRecord)
  {
    0 <= v.kind < 256 && FitsField(v.taxNumber, 12) && CanonicalStamp(v.dateTime)
  }

  /** A record as decoding produces it, written into erased flash, parses back unchanged. */
  lemma TaxIdRoundTrip(v: TaxIdRecord)
    requires TaxIdCanonical(v)
    ensures TaxIdWritable(v)
    ensures ParseTaxIdRecord(TaxIdImage(Erased(TAX_ID_RECORD_SIZE), Some(v))) == v
  {
    var base := Erased(TAX_ID_RECORD_SIZE);
    var r := TaxIdImage(base, Some(v));
    assert r[..31] == TaxIdBody(base, v);
    ParseTaxIdBody(v, r);
  }

  /** The parser reads back every field the writer laid out before the checksum. */
  lemma ParseTaxIdBody(v: TaxIdRecord, r: seq<byte>)
    requires TaxIdCanonical(v) && |r| == TAX_ID_RECORD_SIZE
    requires r[..31] == TaxIdBody(Erased(TAX_ID_RECORD_SIZE), v)
    ensures ParseTaxIdRecord(r) == v
  {
    var body := r[..31];
    TextRoundTrip(v.taxNumber, 12);
    DateRoundTrip(v.dateTime);
    assert Erased(TAX_ID_RECORD_SIZE)[14..22] == Erased(8);
    assert r[0] == body[0] && r[1..13] == body[1..13] && r[14..22] == body[14..22];
  }

  /** `writeTaxIdRecord`: nothing for a missing record. */
  method WriteTaxIdRecord(buf: array<byte>, off: nat, v: Option<TaxIdRecord>)
    requires off + TAX_ID_RECORD_SIZE <= buf.Length && (v.Some? ==> TaxIdWritable(v.value))
    modifies buf
    ensures buf[..] == Splice(old(buf[..]), off, TaxIdImage(old(buf[off..off + TAX_ID_RECORD_SIZE]), v))
  {
    ghost var b0 := buf[..];
    ghost var base := b0[off..off + TAX_ID_RECORD_SIZE];
    if v.None? {
      SpliceSame(b0, off, TAX_ID_RECORD_SIZE);
      return;
    }
    var x := v.value;
    PutU8(buf, off, x.kind);
    ghost var done := LeBytes(x.kind, 1);
    ghost var s := buf[..];
    WriteString(buf, off + 1, 12, x.taxNumber);
    SpliceStep(s, b0, off, done, off + 1, TextField(x.taxNumber, 12));
    done, s := done + TextField(x.taxNumber, 12), buf[..];
    Fill(buf, off + 13, off + 14, 0);
    SpliceStep(s, b0, off, done, off + 13, Repeat(0, off + 14 - (off + 13)));
    done, s := done + Repeat(0, off + 14 - (off + 13)), buf[..];
    ghost var head := done;
    WriteDateTime(buf, off + 14, x.dateTime);
    ghost var date := DateField(s[off + 14..off + 22], x.dateTime);
    SpliceStep(s, b0, off, done, off + 14, date);
    done, s := done + date, buf[..];
    Fill(buf, off + 22, off + 31, 0);
    SpliceStep(s, b0, off, done, off + 22, Repeat(0, off + 31 - (off + 22)));
    done := done + Repeat(0, off + 31 - (off + 22));
    assert done == TaxIdBody(base, x) by {
      SpliceBeyond(b0, off, head, off + 14, off + 22);
      SliceOfSlice(b0, off, off + TAX_ID_RECORD_SIZE, 14, 22);
    }
    SealFields(buf, off, TAX_ID_RECORD_SIZE, b0, done);
    assert TaxIdImage(base, v) == Sealed(done, base);
  }

  // ---------------------------------------------------------------------
  // RAM reset record (16 bytes): date[8], next Z number u16, flag u8,
  // reserved[4], checksum.

  datatype RamResetRecord = RamResetRecord(dateTime: Option<Stamp>, nextZNumber: int, flag: int)

  predicate RamResetWritable(v: RamResetRecord)
  {
    0 <= v.nextZNumber < 0x1_0000 && 0 <= v.flag < 256 && StampWritable(v.dateTime)
  }

  function RamResetBody(base: seq<byte>, v: RamResetRecord): (body: seq<byte>)
    requires |base| == RAM_RESET_RECORD_SIZE && RamResetWritable(v)
    ensures |body| == RAM_RESET_RECORD_SIZE - 1
    ensures body[..8] == DateField(base[..8], v.dateTime) && body[8..10] == LeBytes(v.nextZNumber, 2)
    ensures body[10] == v.flag && body[11..] == Zeros(4)
  {
    DateField(base[..8], v.dateTime) + LeBytes(v.nextZNumber, 2) + LeBytes(v.flag, 1) + Zeros(4)
  }

  /** The 16 bytes `writeRamResetRecord` leaves where `base` was. */
  function RamResetImage(base: seq<byte>, v: Option<RamResetRecord>): (r: seq<byte>)
    requires |base| == RAM_RESET_RECORD_SIZE && (v.Some? ==> RamResetWritable(v.value))
    ensures |r| == RAM_RESET_RECORD_SIZE
    ensures v.None? ==> r == base
    ensures v.Some? ==> !IsErased(r) && ChecksumOk(r)
  {
    if v.None? then base else
      SealedRecord(RamResetBody(base, v.value), base);
      Sealed(RamResetBody(base, v.value), base)
  }

  /** `parseRamResetRecord`. */
  function ParseRamResetRecord(r: seq<byte>): (v: RamResetRecord)
    requires |r| == RAM_RESET_RECORD_SIZE
    ensures v.dateTime == ParseDateTime(r[..8]) && v.nextZNumber == LeValue(r[8..10]) && v.flag == r[10]
  {
    RamResetRecord(ParseDateTime(r[..8]), LeValue(r[8..10]), r[10])
  }

  predicate RamResetCanonical(v: RamResetRecord)
  {
    0 <= v.nextZNumber < 0x1_0000 && 0 <= v.flag < 256 && CanonicalStamp(v.dateTime)
  }

  /** A record as decoding produces it, written into erased flash, parses back unchanged. */
  lemma RamResetRoundTrip(v: RamResetRecord)
    requires RamResetCanonical(v)
    ensures RamResetWritable(v)
    ensures ParseRamResetRecord(RamResetImage(Erased(RAM_RESET_RECORD_SIZE), Some(v))) == v
  {
    var base := Erased(RAM_RESET_RECORD_SIZE);
    var r := RamResetImage(base, Some(v));
    assert r[..15] == RamResetBody(base, v);
    ParseRamResetBody(v, r);
  }

  /** The parser reads back every field the writer laid out before the checksum. */
  lemma ParseRamResetBody(v: RamResetRecord, r: seq<byte>)
    requires RamResetCanonical(v) && |r| == RAM_RESET_RECORD_SIZE
    requires r[..15] == RamResetBody(Erased(RAM_RESET_RECORD_SIZE), v)
    ensures ParseRamResetRecord(r) == v
  {
    var body := r[..15];
    DateRoundTrip(v.dateTime);
    LeRoundTrip(v.nextZNumber, 2);
    assert Erased(RAM_RESET_RECORD_SIZE)[..8] == Erased(8);
    assert r[..8] == body[..8] && r[8..10] == body[8..10] && r[10] == body[10];
  }

  /** `writeRamResetRecord`: nothing for a missing record. */
  method WriteRamResetRecord(buf: array<byte>, off: nat, v: Option<RamResetRecord>)
    requires off + RAM_RESET_RECORD_SIZE <= buf.Length && (v.Some? ==> RamResetWritable(v.value))
    modifies buf
    ensures buf[..] == Splice(old(buf[..]), off, RamResetImage(old(buf[off..off + RAM_RESET_RECORD_SIZE]), v))
  {
    ghost var b0 := buf[..];
    ghost var base := b0[off..off + RAM_RESET_RECORD_SIZE];
    if v.None? {
      SpliceSame(b0, off, RAM_RESET_RECORD_SIZE);
      return;
    }
    var x := v.value;
    WriteDateTime(buf, off, x.dateTime);
    ghost var done := DateField(b0[off..off + 8], x.dateTime);
    ghost var s := buf[..];
    PutU16(buf, off + 8, x.nextZNumber);
    SpliceStep(s, b0, off, done, off + 8, LeBytes(x.nextZNumber, 2));
    done, s := done + LeBytes(x.nextZNumber, 2), buf[..];
    PutU8(buf, off + 10, x.flag);
    SpliceStep(s, b0, off, done, off + 10, LeBytes(x.flag, 1));
    done, s := done + LeBytes(x.flag, 1), buf[..];
    Fill(buf, off + 11, off + 15, 0);
    SpliceStep(s, b0, off, done, off + 11, Repeat(0, off + 15 - (off + 11)));
    done := done + Repeat(0, off + 15 - (off + 11));
    assert done == RamResetBody(base, x) by {
      SliceOfSlice(b0, off, off + RAM_RESET_RECORD_SIZE, 0, 8);
    }
    SealFields(buf, off, RAM_RESET_RECORD_SIZE, b0, done);
    assert RamResetImage(base, v) == Sealed(done, base);
  }

  // ---------------------------------------------------------------------
  // Electronic journal opened (24 bytes): date[8], last record u32,
  // last Z u16, reserved[9], checksum.

  datatype EJOpenRecord = EJOpenRecord(dateTime: Option<Stamp>, lastRecOnOpening: int, lastZOnOpening: int)

  predicate EJOpenWritable(v: EJOpenRecord)
  {
    0 <= v.lastRecOnOpening < 0x1_0000_0000 && 0 <= v.lastZOnOpening < 0x1_0000 && StampWritable(v.dateTime)
  }

  function EJOpenBody(base: seq<byte>, v: EJOpenRecord): (body: seq<byte>)
    requires |base| == EJ_RECORD_SIZE && EJOpenWritable(v)
    ensures |body| == EJ_RECORD_SIZE - 1
    ensures body[..8] == DateField(base[..8], v.dateTime) && body[8..12] == LeBytes(v.lastRecOnOpening, 4)
    ensures body[12..14] == LeBytes(v.lastZOnOpening, 2) && body[14..] == Zeros(9)
  {
    DateField(base[..8], v.dateTime) + LeBytes(v.lastRecOnOpening, 4) + LeBytes(v.lastZOnOpening, 2) + Zeros(9)
  }

  /** The 24 bytes `writeEJOpen` leaves where `base` was. */
  function EJOpenImage(base: seq<byte>, v: Option<EJOpenRecord>): (r: seq<byte>)
    requires |base| == EJ_RECORD_SIZE && (v.Some? ==> EJOpenWritable(v.value))
    ensures |r| == EJ_RECORD_SIZE
    ensures v.None? ==> r == base
    ensures v.Some? ==> !IsErased(r) && ChecksumOk(r)
  {
    if v.None? then base else
      SealedRecord(EJOpenBody(base, v.value), base);
      Sealed(EJOpenBody(base, v.value), base)
  }

  /** `parseEJOpen`. */
  function ParseEJOpen(r: seq<byte>): (v: EJOpenRecord)
    requires |r| == EJ_RECORD_SIZE
    ensures v.dateTime == ParseDateTime(r[..8])
    ensures v.lastRecOnOpening == LeValue(r[8..12]) && v.lastZOnOpening == LeValue(r[12..14])
  {
    EJOpenRecord(ParseDateTime(r[..8]), LeValue(r[8..12]), LeValue(r[12..14]))
  }

  predicate EJOpenCanonical(v: EJOpenRecord)
  {
    0 <= v.lastRecOnOpening < 0x1_0000_0000 && 0 <= v.lastZOnOpening < 0x1_0000 && CanonicalStamp(v.dateTime)
  }

  /** A record as decoding produces it, written into erased flash, parses back unchanged. */
  lemma EJOpenRoundTrip(v: EJOpenRecord)
    requires EJOpenCanonical(v)
    ensures EJOpenWritable(v)
    ensures ParseEJOpen(EJOpenImage(Erased(EJ_RECORD_SIZE), Some(v))) == v
  {
    var base := Erased(EJ_RECORD_SIZE);
    var r := EJOpenImage(base, Some(v));
    assert r[..23] == EJOpenBody(base, v);
    ParseEJOpenBody(v, r);
  }

  /** The parser reads back every field the writer laid out before the checksum. */
  lemma ParseEJOpenBody(v: EJOpenRecord, r: seq<byte>)
    requires EJOpenCanonical(v) && |r| == EJ_RECORD_SIZE
    requires r[..23] == EJOpenBody(Erased(EJ_RECORD_SIZE), v)
    ensures ParseEJOpen(r) == v
  {
    var body := r[..23];
    DateRoundTrip(v.dateTime);
    Pow256Values();
    LeRoundTrip(v.lastRecOnOpening, 4);
    LeRoundTrip(v.lastZOnOpening, 2);
    assert Erased(EJ_RECORD_SIZE)[..8] == Erased(8);
    assert r[..8] == body[..8] && r[8..12] == body[8..12] && r[12..14] == body[12..14];
  }

  /** `writeEJOpen`: nothing for a missing record. */
  method WriteEJOpen(buf: array<byte>, off: nat, v: Option<EJOpenRecord>)
    requires off + EJ_RECORD_SIZE <= buf.Length && (v.Some? ==> EJOpenWritable(v.value))
    modifies buf
    ensures buf[..] == Splice(old(buf[..]), off, EJOpenImage(old(buf[off..off + EJ_RECORD_SIZE]), v))
  {
    ghost var b0 := buf[..];
    ghost var base := b0[off..off + EJ_RECORD_SIZE];
    if v.None? {
      SpliceSame(b0, off, EJ_RECORD_SIZE);
      return;
    }
    var x := v.value;
    WriteDateTime(buf, off, x.dateTime);
    ghost var done := DateField(b0[off..off + 8], x.dateTime);
    ghost var s := buf[..];
    PutU32(buf, off + 8, x.lastRecOnOpening);
    SpliceStep(s, b0, off, done, off + 8, LeBytes(x.lastRecOnOpening, 4));
    done, s := done + LeBytes(x.lastRecOnOpening, 4), buf[..];
    PutU16(buf, off + 12, x.lastZOnOpening);
    SpliceStep(s, b0, off, done, off + 12, LeBytes(x.lastZOnOpening, 2));
    done, s := done + LeBytes(x.lastZOnOpening, 2), buf[..];
    Fill(buf, off + 14, off + 23, 0);
    SpliceStep(s, b0, off, done, off + 14, Repeat(0, off + 23 - (off + 14)));
    done := done + Repeat(0, off + 23 - (off + 14));
    assert done == EJOpenBody(base, x) by {
      SliceOfSlice(b0, off, off + EJ_RECORD_SIZE, 0, 8);
    }
    SealFields(buf, off, EJ_RECORD_SIZE, b0, done);
    assert EJOpenImage(base, v) == Sealed(done, base);
  }

  // ---------------------------------------------------------------------
  // Electronic journal closed (24 bytes): date[8], last record u32,
  // last Z u16, lost-or-broken flag u8, reserved[8], checksum.

  datatype EJCloseRecord = EJCloseRecord(dateTime: Option<Stamp>, lastRecOnClose: int, lastZOnClose: int, lostOrBroken: int)

  predicate EJCloseWritable(v: EJCloseRecord)
  {
    && 0 <= v.lastRecOnClose < 0x1_0000_0000 && 0 <= v.lastZOnClose < 0x1_0000 && 0 <= v.lostOrBroken < 256
    && StampWritable(v.dateTime)
  }

  function EJCloseBody(base: seq<byte>, v: EJCloseRecord): (body: seq<byte>)
    requires |base| == EJ_RECORD_SIZE && EJCloseWritable(v)
    ensures |body| == EJ_RECORD_SIZE - 1
    ensures body[..8] == DateField(base[..8], v.dateTime) && body[8..12] == LeBytes(v.lastRecOnClose, 4)
    ensures body[12..14] == LeBytes(v.lastZOnClose, 2) && body[14] == v.lostOrBroken && body[15..] == Zeros(8)
  {
    DateField(base[..8], v.dateTime) + LeBytes(v.lastRecOnClose, 4) + LeBytes(v.lastZOnClose, 2)
      + LeBytes(v.lostOrBroken, 1) + Zeros(8)
  }

  /** The 24 bytes `writeEJClose` leaves where `base` was. */
  function EJCloseImage(base: seq<byte>, v: Option<EJCloseRecord>): (r: seq<byte>)
    requires |base| == EJ_RECORD_SIZE && (v.Some? ==> EJCloseWritable(v.value))
    ensures |r| == EJ_RECORD_SIZE
    ensures v.None? ==> r == base
    ensures v.Some? ==> !IsErased(r) && ChecksumOk(r)
  {
    if v.None? then base else
      SealedRecord(EJCloseBody(base, v.value), base);
      Sealed(EJCloseBody(base, v.value), base)
  }

  /** `parseEJClose`. */
  function ParseEJClose(r: seq<byte>): (v: EJCloseRecord)
    requires |r| == EJ_RECORD_SIZE
    ensures v.dateTime == ParseDateTime(r[..8])
    ensures v.lastRecOnClose == LeValue(r[8..12]) && v.lastZOnClose == LeValue(r[12..14]) && v.lostOrBroken == r[14]
  {
    EJCloseRecord(ParseDateTime(r[..8]), LeValue(r[8..12]), LeValue(r[12..14]), r[14])
  }

  predicate EJCloseCanonical(v: EJCloseRecord)
  {
    && 0 <= v.lastRecOnClose < 0x1_0000_0000 && 0 <= v.lastZOnClose < 0x1_0000 && 0 <= v.lostOrBroken < 256
    && CanonicalStamp(v.dateTime)
  }

  /** A record as decoding produces it, written into erased flash, parses back unchanged. */
  lemma EJCloseRoundTrip(v: EJCloseRecord)
    requires EJCloseCanonical(v)
    ensures EJCloseWritable(v)
    ensures ParseEJClose(EJCloseImage(Erased(EJ_RECORD_SIZE), Some(v))) == v
  {
    var base := Erased(EJ_RECORD_SIZE);
    var r := EJCloseImage(base, Some(v));
    assert r[..23] == EJCloseBody(base, v);
    ParseEJCloseBody(v, r);
  }

  /** The parser reads back every field the writer laid out before the checksum. */
  lemma ParseEJCloseBody(v: EJCloseRecord, r: seq<byte>)
    requires EJCloseCanonical(v) && |r| == EJ_RECORD_SIZE
    requires r[..23] == EJCloseBody(Erased(EJ_RECORD_SIZE), v)
    ensures ParseEJClose(r) == v
  {
    var body := r[..23];
    DateRoundTrip(v.dateTime);
    Pow256Values();
    LeRoundTrip(v.lastRecOnClose, 4);
    LeRoundTrip(v.lastZOnClose, 2);
    assert Erased(EJ_RECORD_SIZE)[..8] == Erased(8);
    assert r[..8] == body[..8] && r[8..12] == body[8..12] && r[12..14] == body[12..14] && r[14] == body[14];
  }

  /** `writeEJClose`: nothing for a missing record. */
  method WriteEJClose(buf: array<byte>, off: nat, v: Option<EJCloseRecord>)
    requires off + EJ_RECORD_SIZE <= buf.Length && (v.Some? ==> EJCloseWritable(v.value))
    modifies buf
    ensures buf[..] == Splice(old(buf[..]), off, EJCloseImage(old(buf[off..off + EJ_RECORD_SIZE]), v))
  {
    ghost var b0 := buf[..];
    ghost var base := b0[off..off + EJ_RECORD_SIZE];
    if v.None? {
      SpliceSame(b0, off, EJ_RECORD_SIZE);
      return;
    }
    var x := v.value;
    WriteDateTime(buf, off, x.dateTime);
    ghost var done := DateField(b0[off..off + 8], x.dateTime);
    ghost var s := buf[..];
    PutU32(buf, off + 8, x.lastRecOnClose);
    SpliceStep(s, b0, off, done, off + 8, LeBytes(x.lastRecOnClose, 4));
    done, s := done + LeBytes(x.lastRecOnClose, 4), buf[..];
    PutU16(buf, off + 12, x.lastZOnClose);
    SpliceStep(s, b0, off, done, off + 12, LeBytes(x.lastZOnClose, 2));
    done, s := done + LeBytes(x.lastZOnClose, 2), buf[..];
    PutU8(buf, off + 14, x.lostOrBroken);
    SpliceStep(s, b0, off, done, off + 14, LeBytes(x.lostOrBroken, 1));
    done, s := done + LeBytes(x.lostOrBroken, 1), buf[..];
    Fill(buf, off + 15, off + 23, 0);
    SpliceStep(s, b0, off, done, off + 15, Repeat(0, off + 23 - (off + 15)));
    done := done + Repeat(0, off + 23 - (off + 15));
    assert done == EJCloseBody(base, x) by {
      SliceOfSlice(b0, off, off + EJ_RECORD_SIZE, 0, 8);
    }
    SealFields(buf, off, EJ_RECORD_SIZE, b0, done);
    assert EJCloseImage(base, v) == Sealed(done, base);
  }
}
