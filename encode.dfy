/**
 * `buildDP25FiscalMemory`: a 0x200000-byte buffer filled with 0xFF, then
 * one linear walk that writes the two singletons and, slot by slot, the
 * seven lists; the padding and the CPU id are skipped. The buffer it
 * returns is `EncodeImage(data)`.
 */
module Encoder {
  import opened Wrappers
  import opened Bytes
  import opened FiscalDate
  import opened Records
  import opened VatRates
  import opened ZReports
  import opened DateResolver
  import opened Slots
  import opened Layout

  /** `buildDP25FiscalMemory(data)`. */
  method Encode(d: DumpData) returns (buf: array<byte>)
    requires DataWritable(d)
    ensures fresh(buf) && buf[..] == EncodeImage(d)
  {
    buf := AllocErased(FILE_SIZE);
    ghost var ps := ImagePieces(d);
    EncodeStart(buf[..], ps);
    var offset := 0;
    offset := offset + TEST_SPACE_SIZE;
    offset := EncodeFront(buf, offset, d, ps);
    offset := EncodeJournal(buf, offset, d, ps);
    offset := offset + NOT_USED_SIZE;
    EncodeTail(buf[..], ps);
  }

  /** The test space is skipped: the erased buffer already holds it. */
  lemma EncodeStart(s: seq<byte>, ps: seq<seq<byte>>)
    requires Tiles(ps) && ps[0] == Erased(TEST_SPACE_SIZE) && s == Erased(FILE_SIZE)
    ensures s == Concat(ps[..1]) + Erased(FILE_SIZE - TEST_SPACE_SIZE)
  {
    assert ps[..0] == [];
    ConcatSnoc(ps, 0);
    ErasedJoin([], TEST_SPACE_SIZE, FILE_SIZE - TEST_SPACE_SIZE);
  }

  /** The padding and the CPU id are skipped: what is left erased completes the image. */
  lemma EncodeTail(s: seq<byte>, ps: seq<seq<byte>>)
    requires Tiles(ps) && ps[10] == Erased(NOT_USED_SIZE) && ps[11] == Erased(CPU_ID_SIZE)
    requires s == Concat(ps[..10]) + Erased(FILE_SIZE - NOT_USED_OFFSET)
    ensures s == Concat(ps)
  {
    ConcatSnoc(ps, 10);
    ConcatSnoc(ps, 11);
    assert ps[..12] == ps;
    ErasedJoin(Concat(ps[..10]), NOT_USED_SIZE, CPU_ID_SIZE);
  }

  /** The two singletons and the four change lists, in file order. */
  method EncodeFront(buf: array<byte>, offset: nat, d: DumpData, ghost ps: seq<seq<byte>>) returns (next: nat)
    requires buf.Length == FILE_SIZE && offset == SERIAL_OFFSET && Tiles(ps) && DataWritable(d)
    requires ps[1] == SerialSlot(d.serialRecord) && ps[2] == FiscalModeStartSlot(d.fiscalModeStart)
    requires ps[3] == FMRegion(d.fmNumbers) && ps[4] == TaxRegion(d.taxNumbers)
    requires ps[5] == VatRegion(d.vatRateChanges) && ps[6] == RamRegion(d.ramResets)
    requires buf[..] == Concat(ps[..1]) + Erased(FILE_SIZE - offset)
    modifies buf
    ensures next == Z_OFFSET && buf[..] == Concat(ps[..7]) + Erased(FILE_SIZE - next)
  {
    next := EncodeSerial(buf, offset, d.serialRecord, ps);
    next := EncodeFiscalModeStart(buf, next, d.fiscalModeStart, ps);
    next := EncodeChanges(buf, next, d.fmNumbers, d.taxNumbers, d.vatRateChanges, d.ramResets, ps);
  }

  /** The serial record, written once at its offset. */
  method EncodeSerial(buf: array<byte>, offset: nat, serial: Option<SerialRecord>, ghost ps: seq<seq<byte>>)
    returns (next: nat)
    requires buf.Length == FILE_SIZE && offset == SERIAL_OFFSET && Tiles(ps)
    requires serial.Some? ==> StampWritable(serial.value.dateTime)
    requires ps[1] == SerialSlot(serial)
    requires buf[..] == Concat(ps[..1]) + Erased(FILE_SIZE - offset)
    modifies buf
    ensures next == FMS_OFFSET && buf[..] == Concat(ps[..2]) + Erased(FILE_SIZE - next)
  {
    TiledPrefix(ps, 1);
    WriteOnErased(Concat(ps[..1]), FILE_SIZE - offset, ps[1]);
    WriteSerialRecord(buf, offset, serial);
    next := offset + SERIAL_RECORD_SIZE;
    ConcatSnoc(ps, 1);
  }

  /** The fiscal-mode start, written once at its offset. */
  method EncodeFiscalModeStart(buf: array<byte>, offset: nat, start: Option<FiscalModeStart>, ghost ps: seq<seq<byte>>)
    returns (next: nat)
    requires buf.Length == FILE_SIZE && offset == FMS_OFFSET && Tiles(ps)
    requires start.Some? ==> StampWritable(start.value.dateTime)
    requires ps[2] == FiscalModeStartSlot(start)
    requires buf[..] == Concat(ps[..2]) + Erased(FILE_SIZE - offset)
    modifies buf
    ensures next == FM_OFFSET && buf[..] == Concat(ps[..3]) + Erased(FILE_SIZE - next)
  {
    TiledPrefix(ps, 2);
    WriteOnErased(Concat(ps[..2]), FILE_SIZE - offset, ps[2]);
    WriteFiscalModeStart(buf, offset, start);
    next := offset + FISCAL_MODE_START_SIZE;
    ConcatSnoc(ps, 2);
  }

  /** The FM number, tax number, VAT-rate change and RAM reset loops. */
  method EncodeChanges(buf: array<byte>, offset: nat, fms: seq<Option<FMNumberRecord>>, taxes: seq<Option<TaxIdRecord>>,
                       vats: seq<Option<VatRateChange>>, resets: seq<Option<RamResetRecord>>,
                       ghost ps: seq<seq<byte>>) returns (next: nat)
    requires buf.Length == FILE_SIZE && offset == FM_OFFSET && Tiles(ps)
    requires ImagesFit(fms, FM_NUMBER_COUNT, FM_NUMBER_RECORD_SIZE, FMNumberSlot) && ps[3] == FMRegion(fms)
    requires ImagesFit(taxes, TAX_ID_COUNT, TAX_ID_RECORD_SIZE, TaxIdSlot) && ps[4] == TaxRegion(taxes)
    requires ImagesFit(vats, VAT_RATE_COUNT, VAT_RATE_RECORD_SIZE, VatSlot) && ps[5] == VatRegion(vats)
    requires ImagesFit(resets, RAM_RESET_COUNT, RAM_RESET_RECORD_SIZE, RamResetSlot) && ps[6] == RamRegion(resets)
    requires buf[..] == Concat(ps[..3]) + Erased(FILE_SIZE - offset)
    modifies buf
    ensures next == Z_OFFSET && buf[..] == Concat(ps[..7]) + Erased(FILE_SIZE - next)
  {
    TiledPrefix(ps, 3);
    next := EncodeFMNumbers(buf, offset, fms, Concat(ps[..3]));
    ConcatSnoc(ps, 3);
    TiledPrefix(ps, 4);
    next := EncodeTaxNumbers(buf, next, taxes, Concat(ps[..4]));
    ConcatSnoc(ps, 4);
    TiledPrefix(ps, 5);
    next := EncodeVatRateChanges(buf, next, vats, Concat(ps[..5]));
    ConcatSnoc(ps, 5);
    TiledPrefix(ps, 6);
    next := EncodeRamResets(buf, next, resets, Concat(ps[..6]));
    ConcatSnoc(ps, 6);
  }

  /** The Z report, EJ open and EJ close loops. */
  method EncodeJournal(buf: array<byte>, offset: nat, d: DumpData, ghost ps: seq<seq<byte>>) returns (next: nat)
    requires buf.Length == FILE_SIZE && offset == Z_OFFSET && Tiles(ps)
    requires ImagesFit(ZToWrite(d), Z_REPORT_COUNT, Z_REPORT_SIZE, ZSlot) && ps[7] == ZRegion(ZToWrite(d))
    requires ImagesFit(d.ejOpen, EJ_RECORD_COUNT, EJ_RECORD_SIZE, EJOpenSlot) && ps[8] == EJOpenRegion(d.ejOpen)
    requires ImagesFit(d.ejClose, EJ_RECORD_COUNT, EJ_RECORD_SIZE, EJCloseSlot) && ps[9] == EJCloseRegion(d.ejClose)
    requires buf[..] == Concat(ps[..7]) + Erased(FILE_SIZE - offset)
    modifies buf
    ensures next == NOT_USED_OFFSET && buf[..] == Concat(ps[..10]) + Erased(FILE_SIZE - next)
  {
    TiledPrefix(ps, 7);
    next := EncodeZReports(buf, offset, d, Concat(ps[..7]));
    ConcatSnoc(ps, 7);
    TiledPrefix(ps, 8);
    next := EncodeEJOpen(buf, next, d.ejOpen, Concat(ps[..8]));
    ConcatSnoc(ps, 8);
    TiledPrefix(ps, 9);
    next := EncodeEJClose(buf, next, d.ejClose, Concat(ps[..9]));
    ConcatSnoc(ps, 9);
  }

  /**
   * The Z report loop: a null or missing report leaves its slot as it is;
   * any other is written with its four change counters replaced by what
   * the one-based resolvers of the four change lists give for its instant.
   */
  method EncodeZReports(buf: array<byte>, offset: nat, d: DumpData, ghost prefix: seq<byte>) returns (next: nat)
    requires buf.Length == FILE_SIZE && offset == Z_OFFSET && |prefix| == offset
    requires ImagesFit(ZToWrite(d), Z_REPORT_COUNT, Z_REPORT_SIZE, ZSlot)
    requires buf[..] == prefix + Erased(FILE_SIZE - offset)
    modifies buf
    ensures next == EJ_OPEN_OFFSET
    ensures buf[..] == (prefix + ZRegion(ZToWrite(d))) + Erased(FILE_SIZE - next)
  {
    var fmTimes := TimesOf(d.fmNumbers, FMNumberDate);
    var taxTimes := TimesOf(d.taxNumbers, TaxIdDate);
    var vatTimes := TimesOf(d.vatRateChanges, VatDate);
    var resetTimes := TimesOf(d.ramResets, RamResetDate);
    ghost var zs := ZToWrite(d);
    ghost var imgs := SlotImages(zs, Z_REPORT_COUNT, Z_REPORT_SIZE, ZSlot);
    SpanIsProduct(Z_REPORT_SIZE, Z_REPORT_COUNT);
    ghost var m := FILE_SIZE - offset;
    assert prefix + Concat(imgs[..0]) == prefix;
    next := offset;
    for i := 0 to Z_REPORT_COUNT
      invariant next == offset + Span(Z_REPORT_SIZE, i) && Span(Z_REPORT_SIZE, i) <= m
      invariant buf[..] == (prefix + Concat(imgs[..i])) + Erased(m - Span(Z_REPORT_SIZE, i))
    {
      SpanMono(Z_REPORT_SIZE, i, Z_REPORT_COUNT);
      next := EncodeZTurn(buf, next, d, fmTimes, taxTimes, vatTimes, resetTimes, imgs, i, prefix, m);
    }
    assert imgs[..Z_REPORT_COUNT] == imgs;
    ImagesAreConcat(zs, Z_REPORT_COUNT, Z_REPORT_SIZE, ZSlot);
  }

  /**
   * One turn of the Z report loop: a missing report leaves slot `i` erased,
   * any other is counted against the four change lists and written there.
   */
  method EncodeZTurn(buf: array<byte>, offset: nat, d: DumpData, fmTimes: seq<Option<int>>, taxTimes: seq<Option<int>>,
                     vatTimes: seq<Option<int>>, resetTimes: seq<Option<int>>, ghost imgs: seq<seq<byte>>, i: nat,
                     ghost prefix: seq<byte>, ghost m: nat) returns (next: nat)
    requires fmTimes == TimesOf(d.fmNumbers, FMNumberDate) && taxTimes == TimesOf(d.taxNumbers, TaxIdDate)
    requires vatTimes == TimesOf(d.vatRateChanges, VatDate) && resetTimes == TimesOf(d.ramResets, RamResetDate)
    requires ImagesFit(ZToWrite(d), Z_REPORT_COUNT, Z_REPORT_SIZE, ZSlot) && i < Z_REPORT_COUNT
    requires imgs == SlotImages(ZToWrite(d), Z_REPORT_COUNT, Z_REPORT_SIZE, ZSlot)
    requires buf.Length == |prefix| + m && offset == |prefix| + Span(Z_REPORT_SIZE, i) && Span(Z_REPORT_SIZE, i) + Z_REPORT_SIZE <= m
    requires buf[..] == (prefix + Concat(imgs[..i])) + Erased(m - Span(Z_REPORT_SIZE, i))
    modifies buf
    ensures next == |prefix| + Span(Z_REPORT_SIZE, i + 1) && Span(Z_REPORT_SIZE, i + 1) <= m
    ensures buf[..] == (prefix + Concat(imgs[..i + 1])) + Erased(m - Span(Z_REPORT_SIZE, i + 1))
  {
    ghost var zs := ZToWrite(d);
    var zData := Entry(d.zReports, i);
    if zData.None? {
      assert imgs[i] == Erased(Z_REPORT_SIZE) by {
        assert Entry(zs, i) == None;
      }
      SkipConcat(buf[..], prefix, imgs, i, Z_REPORT_SIZE, m);
      next := offset + Z_REPORT_SIZE;
      return;
    }
    var zTime := ZDate(zData.value);
    var counted := zData.value.(fmNumChanges := Resolve(fmTimes, zTime, true),
                                taxNumChanges := Resolve(taxTimes, zTime, true),
                                vatChanges := Resolve(vatTimes, zTime, true),
                                ramResetsCount := Resolve(resetTimes, zTime, true));
    assert Entry(zs, i) == Some(counted);
    next := WriteZReportSlot(buf, offset, Some(counted), imgs, i, prefix, m);
  }

  /** One written turn of the Z report loop: slot `i`, still erased, receives the counted report. */
  method WriteZReportSlot(buf: array<byte>, offset: nat, v: Option<ZReport>, ghost imgs: seq<seq<byte>>, i: nat,
                         ghost prefix: seq<byte>, ghost m: nat) returns (next: nat)
    requires v.Some? ==> ZWritable(v.value)
    requires i < |imgs| && Uniform(imgs, Z_REPORT_SIZE) && imgs[i] == ZSlot(v)
    requires buf.Length == |prefix| + m && offset == |prefix| + Span(Z_REPORT_SIZE, i) && Span(Z_REPORT_SIZE, i) + Z_REPORT_SIZE <= m
    requires buf[..] == (prefix + Concat(imgs[..i])) + Erased(m - Span(Z_REPORT_SIZE, i))
    modifies buf
    ensures next == |prefix| + Span(Z_REPORT_SIZE, i + 1) && Span(Z_REPORT_SIZE, i + 1) <= m
    ensures buf[..] == (prefix + Concat(imgs[..i + 1])) + Erased(m - Span(Z_REPORT_SIZE, i + 1))
  {
    ghost var before := buf[..];
    StillErased(before, prefix, imgs, i, Z_REPORT_SIZE, m, offset);
    assert ZImage(before[offset..offset + Z_REPORT_SIZE], v) == imgs[i];
    WriteZReport(buf, offset, v);
    assert buf[..] == Splice(before, offset, imgs[i]);
    StepConcat(before, buf[..], prefix, imgs, i, Z_REPORT_SIZE, m, offset);
    next := offset + Z_REPORT_SIZE;
  }

  /** The FM number loop: entry `i` of the list (none past its end) is written to slot `i`. */
  method EncodeFMNumbers(buf: array<byte>, offset: nat, list: seq<Option<FMNumberRecord>>, ghost prefix: seq<byte>) returns (next: nat)
    requires buf.Length == FILE_SIZE && offset == FM_OFFSET && |prefix| == offset
    requires ImagesFit(list, FM_NUMBER_COUNT, FM_NUMBER_RECORD_SIZE, FMNumberSlot)
    requires buf[..] == prefix + Erased(FILE_SIZE - offset)
    modifies buf
    ensures next == TAX_OFFSET
    ensures buf[..] == (prefix + FMRegion(list)) + Erased(FILE_SIZE - next)
  {
    ghost var imgs := SlotImages(list, FM_NUMBER_COUNT, FM_NUMBER_RECORD_SIZE, FMNumberSlot);
    SpanIsProduct(FM_NUMBER_RECORD_SIZE, FM_NUMBER_COUNT);
    ghost var m := FILE_SIZE - offset;
    assert prefix + Concat(imgs[..0]) == prefix;
    next := offset;
    for i := 0 to FM_NUMBER_COUNT
      invariant next == offset + Span(FM_NUMBER_RECORD_SIZE, i) && Span(FM_NUMBER_RECORD_SIZE, i) <= m
      invariant buf[..] == (prefix + Concat(imgs[..i])) + Erased(m - Span(FM_NUMBER_RECORD_SIZE, i))
    {
      SpanMono(FM_NUMBER_RECORD_SIZE, i, FM_NUMBER_COUNT);
      next := WriteFMNumberSlot(buf, next, Entry(list, i), imgs, i, prefix, m);
    }
    assert imgs[..FM_NUMBER_COUNT] == imgs;
    ImagesAreConcat(list, FM_NUMBER_COUNT, FM_NUMBER_RECORD_SIZE, FMNumberSlot);
  }

  /** One turn of the FM number loop: slot `i`, still erased, receives its image. */
  method WriteFMNumberSlot(buf: array<byte>, offset: nat, v: Option<FMNumberRecord>, ghost imgs: seq<seq<byte>>, i: nat,
                         ghost prefix: seq<byte>, ghost m: nat) returns (next: nat)
    requires v.Some? ==> StampWritable(v.value.dateTime)
    requires i < |imgs| && Uniform(imgs, FM_NUMBER_RECORD_SIZE) && imgs[i] == FMNumberSlot(v)
    requires buf.Length == |prefix| + m && offset == |prefix| + Span(FM_NUMBER_RECORD_SIZE, i) && Span(FM_NUMBER_RECORD_SIZE, i) + FM_NUMBER_RECORD_SIZE <= m
    requires buf[..] == (prefix + Concat(imgs[..i])) + Erased(m - Span(FM_NUMBER_RECORD_SIZE, i))
    modifies buf
    ensures next == |prefix| + Span(FM_NUMBER_RECORD_SIZE, i + 1) && Span(FM_NUMBER_RECORD_SIZE, i + 1) <= m
    ensures buf[..] == (prefix + Concat(imgs[..i + 1])) + Erased(m - Span(FM_NUMBER_RECORD_SIZE, i + 1))
  {
    ghost var before := buf[..];
    StillErased(before, prefix, imgs, i, FM_NUMBER_RECORD_SIZE, m, offset);
    assert FMNumberImage(before[offset..offset + FM_NUMBER_RECORD_SIZE], v) == imgs[i];
    WriteFMNumberRecord(buf, offset, v);
    assert buf[..] == Splice(before, offset, imgs[i]);
    StepConcat(before, buf[..], prefix, imgs, i, FM_NUMBER_RECORD_SIZE, m, offset);
    next := offset + FM_NUMBER_RECORD_SIZE;
  }

  /** The tax number loop: entry `i` of the list (none past its end) is written to slot `i`. */
  method EncodeTaxNumbers(buf: array<byte>, offset: nat, list: seq<Option<TaxIdRecord>>, ghost prefix: seq<byte>) returns (next: nat)
    requires buf.Length == FILE_SIZE && offset == TAX_OFFSET && |prefix| == offset
    requires ImagesFit(list, TAX_ID_COUNT, TAX_ID_RECORD_SIZE, TaxIdSlot)
    requires buf[..] == prefix + Erased(FILE_SIZE - offset)
    modifies buf
    ensures next == VAT_OFFSET
    ensures buf[..] == (prefix + TaxRegion(list)) + Erased(FILE_SIZE - next)
  {
    ghost var imgs := SlotImages(list, TAX_ID_COUNT, TAX_ID_RECORD_SIZE, TaxIdSlot);
    SpanIsProduct(TAX_ID_RECORD_SIZE, TAX_ID_COUNT);
    ghost var m := FILE_SIZE - offset;
    assert prefix + Concat(imgs[..0]) == prefix;
    next := offset;
    for i := 0 to TAX_ID_COUNT
      invariant next == offset + Span(TAX_ID_RECORD_SIZE, i) && Span(TAX_ID_RECORD_SIZE, i) <= m
      invariant buf[..] == (prefix + Concat(imgs[..i])) + Erased(m - Span(TAX_ID_RECORD_SIZE, i))
    {
      SpanMono(TAX_ID_RECORD_SIZE, i, TAX_ID_COUNT);
      next := WriteTaxNumberSlot(buf, next, Entry(list, i), imgs, i, prefix, m);
    }
    assert imgs[..TAX_ID_COUNT] == imgs;
    ImagesAreConcat(list, TAX_ID_COUNT, TAX_ID_RECORD_SIZE, TaxIdSlot);
  }

  /** One turn of the tax number loop: slot `i`, still erased, receives its image. */
  method WriteTaxNumberSlot(buf: array<byte>, offset: nat, v: Option<TaxIdRecord>, ghost imgs: seq<seq<byte>>, i: nat,
                         ghost prefix: seq<byte>, ghost m: nat) returns (next: nat)
    requires v.Some? ==> TaxIdWritable(v.value)
    requires i < |imgs| && Uniform(imgs, TAX_ID_RECORD_SIZE) && imgs[i] == TaxIdSlot(v)
    requires buf.Length == |prefix| + m && offset == |prefix| + Span(TAX_ID_RECORD_SIZE, i) && Span(TAX_ID_RECORD_SIZE, i) + TAX_ID_RECORD_SIZE <= m
    requires buf[..] == (prefix + Concat(imgs[..i])) + Erased(m - Span(TAX_ID_RECORD_SIZE, i))
    modifies buf
    ensures next == |prefix| + Span(TAX_ID_RECORD_SIZE, i + 1) && Span(TAX_ID_RECORD_SIZE, i + 1) <= m
    ensures buf[..] == (prefix + Concat(imgs[..i + 1])) + Erased(m - Span(TAX_ID_RECORD_SIZE, i + 1))
  {
    ghost var before := buf[..];
    StillErased(before, prefix, imgs, i, TAX_ID_RECORD_SIZE, m, offset);
    assert TaxIdImage(before[offset..offset + TAX_ID_RECORD_SIZE], v) == imgs[i];
    WriteTaxIdRecord(buf, offset, v);
    assert buf[..] == Splice(before, offset, imgs[i]);
    StepConcat(before, buf[..], prefix, imgs, i, TAX_ID_RECORD_SIZE, m, offset);
    next := offset + TAX_ID_RECORD_SIZE;
  }

  /** The VAT-rate change loop: entry `i` of the list (none past its end) is written to slot `i`. */
  method EncodeVatRateChanges(buf: array<byte>, offset: nat, list: seq<Option<VatRateChange>>, ghost prefix: seq<byte>) returns (next: nat)
    requires buf.Length == FILE_SIZE && offset == VAT_OFFSET && |prefix| == offset
    requires ImagesFit(list, VAT_RATE_COUNT, VAT_RATE_RECORD_SIZE, VatSlot)
    requires buf[..] == prefix + Erased(FILE_SIZE - offset)
    modifies buf
    ensures next == RAM_OFFSET
    ensures buf[..] == (prefix + VatRegion(list)) + Erased(FILE_SIZE - next)
  {
    ghost var imgs := SlotImages(list, VAT_RATE_COUNT, VAT_RATE_RECORD_SIZE, VatSlot);
    SpanIsProduct(VAT_RATE_RECORD_SIZE, VAT_RATE_COUNT);
    ghost var m := FILE_SIZE - offset;
    assert prefix + Concat(imgs[..0]) == prefix;
    next := offset;
    for i := 0 to VAT_RATE_COUNT
      invariant next == offset + Span(VAT_RATE_RECORD_SIZE, i) && Span(VAT_RATE_RECORD_SIZE, i) <= m
      invariant buf[..] == (prefix + Concat(imgs[..i])) + Erased(m - Span(VAT_RATE_RECORD_SIZE, i))
    {
      SpanMono(VAT_RATE_RECORD_SIZE, i, VAT_RATE_COUNT);
      next := WriteVatRateChangeSlot(buf, next, Entry(list, i), imgs, i, prefix, m);
    }
    assert imgs[..VAT_RATE_COUNT] == imgs;
    ImagesAreConcat(list, VAT_RATE_COUNT, VAT_RATE_RECORD_SIZE, VatSlot);
  }

  /** One turn of the VAT-rate change loop: slot `i`, still erased, receives its image. */
  method WriteVatRateChangeSlot(buf: array<byte>, offset: nat, v: Option<VatRateChange>, ghost imgs: seq<seq<byte>>, i: nat,
                         ghost prefix: seq<byte>, ghost m: nat) returns (next: nat)
    requires v.Some? ==> VatWritable(v.value)
    requires i < |imgs| && Uniform(imgs, VAT_RATE_RECORD_SIZE) && imgs[i] == VatSlot(v)
    requires buf.Length == |prefix| + m && offset == |prefix| + Span(VAT_RATE_RECORD_SIZE, i) && Span(VAT_RATE_RECORD_SIZE, i) + VAT_RATE_RECORD_SIZE <= m
    requires buf[..] == (prefix + Concat(imgs[..i])) + Erased(m - Span(VAT_RATE_RECORD_SIZE, i))
    modifies buf
    ensures next == |prefix| + Span(VAT_RATE_RECORD_SIZE, i + 1) && Span(VAT_RATE_RECORD_SIZE, i + 1) <= m
    ensures buf[..] == (prefix + Concat(imgs[..i + 1])) + Erased(m - Span(VAT_RATE_RECORD_SIZE, i + 1))
  {
    ghost var before := buf[..];
    StillErased(before, prefix, imgs, i, VAT_RATE_RECORD_SIZE, m, offset);
    assert VatImage(before[offset..offset + VAT_RATE_RECORD_SIZE], v) == imgs[i];
    WriteVatRateChange(buf, offset, v);
    assert buf[..] == Splice(before, offset, imgs[i]);
    StepConcat(before, buf[..], prefix, imgs, i, VAT_RATE_RECORD_SIZE, m, offset);
    next := offset + VAT_RATE_RECORD_SIZE;
  }

  /** The RAM reset loop: entry `i` of the list (none past its end) is written to slot `i`. */
  method EncodeRamResets(buf: array<byte>, offset: nat, list: seq<Option<RamResetRecord>>, ghost prefix: seq<byte>) returns (next: nat)
    requires buf.Length == FILE_SIZE && offset == RAM_OFFSET && |prefix| == offset
    requires ImagesFit(list, RAM_RESET_COUNT, RAM_RESET_RECORD_SIZE, RamResetSlot)
    requires buf[..] == prefix + Erased(FILE_SIZE - offset)
    modifies buf
    ensures next == Z_OFFSET
    ensures buf[..] == (prefix + RamRegion(list)) + Erased(FILE_SIZE - next)
  {
    ghost var imgs := SlotImages(list, RAM_RESET_COUNT, RAM_RESET_RECORD_SIZE, RamResetSlot);
    SpanIsProduct(RAM_RESET_RECORD_SIZE, RAM_RESET_COUNT);
    ghost var m := FILE_SIZE - offset;
    assert prefix + Concat(imgs[..0]) == prefix;
    next := offset;
    for i := 0 to RAM_RESET_COUNT
      invariant next == offset + Span(RAM_RESET_RECORD_SIZE, i) && Span(RAM_RESET_RECORD_SIZE, i) <= m
      invariant buf[..] == (prefix + Concat(imgs[..i])) + Erased(m - Span(RAM_RESET_RECORD_SIZE, i))
    {
      SpanMono(RAM_RESET_RECORD_SIZE, i, RAM_RESET_COUNT);
      next := WriteRamResetSlot(buf, next, Entry(list, i), imgs, i, prefix, m);
    }
    assert imgs[..RAM_RESET_COUNT] == imgs;
    ImagesAreConcat(list, RAM_RESET_COUNT, RAM_RESET_RECORD_SIZE, RamResetSlot);
  }

  /** One turn of the RAM reset loop: slot `i`, still erased, receives its image. */
  method WriteRamResetSlot(buf: array<byte>, offset: nat, v: Option<RamResetRecord>, ghost imgs: seq<seq<byte>>, i: nat,
                         ghost prefix: seq<byte>, ghost m: nat) returns (next: nat)
    requires v.Some? ==> RamResetWritable(v.value)
    requires i < |imgs| && Uniform(imgs, RAM_RESET_RECORD_SIZE) && imgs[i] == RamResetSlot(v)
    requires buf.Length == |prefix| + m && offset == |prefix| + Span(RAM_RESET_RECORD_SIZE, i) && Span(RAM_RESET_RECORD_SIZE, i) + RAM_RESET_RECORD_SIZE <= m
    requires buf[..] == (prefix + Concat(imgs[..i])) + Erased(m - Span(RAM_RESET_RECORD_SIZE, i))
    modifies buf
    ensures next == |prefix| + Span(RAM_RESET_RECORD_SIZE, i + 1) && Span(RAM_RESET_RECORD_SIZE, i + 1) <= m
    ensures buf[..] == (prefix + Concat(imgs[..i + 1])) + Erased(m - Span(RAM_RESET_RECORD_SIZE, i + 1))
  {
    ghost var before := buf[..];
    StillErased(before, prefix, imgs, i, RAM_RESET_RECORD_SIZE, m, offset);
    assert RamResetImage(before[offset..offset + RAM_RESET_RECORD_SIZE], v) == imgs[i];
    WriteRamResetRecord(buf, offset, v);
    assert buf[..] == Splice(before, offset, imgs[i]);
    StepConcat(before, buf[..], prefix, imgs, i, RAM_RESET_RECORD_SIZE, m, offset);
    next := offset + RAM_RESET_RECORD_SIZE;
  }

  /** The EJ open loop: entry `i` of the list (none past its end) is written to slot `i`. */
  method EncodeEJOpen(buf: array<byte>, offset: nat, list: seq<Option<EJOpenRecord>>, ghost prefix: seq<byte>) returns (next: nat)
    requires buf.Length == FILE_SIZE && offset == EJ_OPEN_OFFSET && |prefix| == offset
    requires ImagesFit(list, EJ_RECORD_COUNT, EJ_RECORD_SIZE, EJOpenSlot)
    requires buf[..] == prefix + Erased(FILE_SIZE - offset)
    modifies buf
    ensures next == EJ_CLOSE_OFFSET
    ensures buf[..] == (prefix + EJOpenRegion(list)) + Erased(FILE_SIZE - next)
  {
    ghost var imgs := SlotImages(list, EJ_RECORD_COUNT, EJ_RECORD_SIZE, EJOpenSlot);
    SpanIsProduct(EJ_RECORD_SIZE, EJ_RECORD_COUNT);
    ghost var m := FILE_SIZE - offset;
    assert prefix + Concat(imgs[..0]) == prefix;
    next := offset;
    for i := 0 to EJ_RECORD_COUNT
      invariant next == offset + Span(EJ_RECORD_SIZE, i) && Span(EJ_RECORD_SIZE, i) <= m
      invariant buf[..] == (prefix + Concat(imgs[..i])) + Erased(m - Span(EJ_RECORD_SIZE, i))
    {
      SpanMono(EJ_RECORD_SIZE, i, EJ_RECORD_COUNT);
      next := WriteEJOpenSlot(buf, next, Entry(list, i), imgs, i, prefix, m);
    }
    assert imgs[..EJ_RECORD_COUNT] == imgs;
    ImagesAreConcat(list, EJ_RECORD_COUNT, EJ_RECORD_SIZE, EJOpenSlot);
  }

  /** One turn of the EJ open loop: slot `i`, still erased, receives its image. */
  method WriteEJOpenSlot(buf: array<byte>, offset: nat, v: Option<EJOpenRecord>, ghost imgs: seq<seq<byte>>, i: nat,
                         ghost prefix: seq<byte>, ghost m: nat) returns (next: nat)
    requires v.Some? ==> EJOpenWritable(v.value)
    requires i < |imgs| && Uniform(imgs, EJ_RECORD_SIZE) && imgs[i] == EJOpenSlot(v)
    requires buf.Length == |prefix| + m && offset == |prefix| + Span(EJ_RECORD_SIZE, i) && Span(EJ_RECORD_SIZE, i) + EJ_RECORD_SIZE <= m
    requires buf[..] == (prefix + Concat(imgs[..i])) + Erased(m - Span(EJ_RECORD_SIZE, i))
    modifies buf
    ensures next == |prefix| + Span(EJ_RECORD_SIZE, i + 1) && Span(EJ_RECORD_SIZE, i + 1) <= m
    ensures buf[..] == (prefix + Concat(imgs[..i + 1])) + Erased(m - Span(EJ_RECORD_SIZE, i + 1))
  {
    ghost var before := buf[..];
    StillErased(before, prefix, imgs, i, EJ_RECORD_SIZE, m, offset);
    assert EJOpenImage(before[offset..offset + EJ_RECORD_SIZE], v) == imgs[i];
    WriteEJOpen(buf, offset, v);
    assert buf[..] == Splice(before, offset, imgs[i]);
    StepConcat(before, buf[..], prefix, imgs, i, EJ_RECORD_SIZE, m, offset);
    next := offset + EJ_RECORD_SIZE;
  }

  /** The EJ close loop: entry `i` of the list (none past its end) is written to slot `i`. */
  method EncodeEJClose(buf: array<byte>, offset: nat, list: seq<Option<EJCloseRecord>>, ghost prefix: seq<byte>) returns (next: nat)
    requires buf.Length == FILE_SIZE && offset == EJ_CLOSE_OFFSET && |prefix| == offset
    requires ImagesFit(list, EJ_RECORD_COUNT, EJ_RECORD_SIZE, EJCloseSlot)
    requires buf[..] == prefix + Erased(FILE_SIZE - offset)
    modifies buf
    ensures next == NOT_USED_OFFSET
    ensures buf[..] == (prefix + EJCloseRegion(list)) + Erased(FILE_SIZE - next)
  {
    ghost var imgs := SlotImages(list, EJ_RECORD_COUNT, EJ_RECORD_SIZE, EJCloseSlot);
    SpanIsProduct(EJ_RECORD_SIZE, EJ_RECORD_COUNT);
    ghost var m := FILE_SIZE - offset;
    assert prefix + Concat(imgs[..0]) == prefix;
    next := offset;
    for i := 0 to EJ_RECORD_COUNT
      invariant next == offset + Span(EJ_RECORD_SIZE, i) && Span(EJ_RECORD_SIZE, i) <= m
      invariant buf[..] == (prefix + Concat(imgs[..i])) + Erased(m - Span(EJ_RECORD_SIZE, i))
    {
      SpanMono(EJ_RECORD_SIZE, i, EJ_RECORD_COUNT);
      next := WriteEJCloseSlot(buf, next, Entry(list, i), imgs, i, prefix, m);
    }
    assert imgs[..EJ_RECORD_COUNT] == imgs;
    ImagesAreConcat(list, EJ_RECORD_COUNT, EJ_RECORD_SIZE, EJCloseSlot);
  }

  /** One turn of the EJ close loop: slot `i`, still erased, receives its image. */
  method WriteEJCloseSlot(buf: array<byte>, offset: nat, v: Option<EJCloseRecord>, ghost imgs: seq<seq<byte>>, i: nat,
                         ghost prefix: seq<byte>, ghost m: nat) returns (next: nat)
    requires v.Some? ==> EJCloseWritable(v.value)
    requires i < |imgs| && Uniform(imgs, EJ_RECORD_SIZE) && imgs[i] == EJCloseSlot(v)
    requires buf.Length == |prefix| + m && offset == |prefix| + Span(EJ_RECORD_SIZE, i) && Span(EJ_RECORD_SIZE, i) + EJ_RECORD_SIZE <= m
    requires buf[..] == (prefix + Concat(imgs[..i])) + Erased(m - Span(EJ_RECORD_SIZE, i))
    modifies buf
    ensures next == |prefix| + Span(EJ_RECORD_SIZE, i + 1) && Span(EJ_RECORD_SIZE, i + 1) <= m
    ensures buf[..] == (prefix + Concat(imgs[..i + 1])) + Erased(m - Span(EJ_RECORD_SIZE, i + 1))
  {
    ghost var before := buf[..];
    StillErased(before, prefix, imgs, i, EJ_RECORD_SIZE, m, offset);
    assert EJCloseImage(before[offset..offset + EJ_RECORD_SIZE], v) == imgs[i];
    WriteEJClose(buf, offset, v);
    assert buf[..] == Splice(before, offset, imgs[i]);
    StepConcat(before, buf[..], prefix, imgs, i, EJ_RECORD_SIZE, m, offset);
    next := offset + EJ_RECORD_SIZE;
  }
}
