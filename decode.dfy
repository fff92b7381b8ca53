/**
 * `parseDP25FiscalMemory`: one linear walk over the image. The two
 * singletons are always parsed; each list keeps the records of its written
 * slots; every written record is checked, and the warnings are collected in
 * walk order.
 */
module Decoder {
  import opened Wrappers
  import opened Bytes
  import opened Checksum
  import opened FiscalDate
  import opened Records
  import opened VatRates
  import opened ZReports
  import opened Slots
  import opened Layout

  /** Why decoding throws: the input is not a buffer, or it is shorter than the image. */
  datatype DecodeError = NotABuffer | TooSmall

  /** The object `parseDP25FiscalMemory` returns. */
  datatype Dump = Dump(
    serialRecord: SerialRecord,
    fiscalModeStart: FiscalModeStart,
    fmNumbers: seq<FMNumberRecord>,
    taxNumbers: seq<TaxIdRecord>,
    vatRateChanges: seq<VatRateChange>,
    ramResets: seq<RamResetRecord>,
    zReports: seq<ZReport>,
    ejOpen: seq<EJOpenRecord>,
    ejClose: seq<EJCloseRecord>,
    cpuId: seq<byte>,
    warnings: seq<Warning>)

  // The singletons and the CPU id as the decoder reads them from an image `b`.
  function SerialOf(b: seq<byte>): SerialRecord
    requires |b| >= FILE_SIZE
  { ParseSerialRecord(b[SERIAL_OFFSET..FMS_OFFSET]) }

  function FiscalModeStartOf(b: seq<byte>): FiscalModeStart
    requires |b| >= FILE_SIZE
  { ParseFiscalModeStart(b[FMS_OFFSET..FM_OFFSET]) }

  function CpuIdOf(b: seq<byte>): (id: seq<byte>)
    requires |b| >= FILE_SIZE
  { b[CPU_ID_OFFSET..FILE_SIZE] }

  // What the decoder sees in each region of an image `b`.
  function SerialView(b: seq<byte>): SlotView<SerialRecord>
    requires |b| >= FILE_SIZE
  { ViewAt(b, SERIAL_OFFSET, SERIAL_RECORD_SIZE, ParseSerialRecord) }

  function FiscalModeStartView(b: seq<byte>): SlotView<FiscalModeStart>
    requires |b| >= FILE_SIZE
  { ViewAt(b, FMS_OFFSET, FISCAL_MODE_START_SIZE, ParseFiscalModeStart) }

  function FMViews(b: seq<byte>): (vs: seq<SlotView<FMNumberRecord>>)
    requires |b| >= FILE_SIZE
    ensures |vs| == FM_NUMBER_COUNT
  {
    SpanIsProduct(FM_NUMBER_RECORD_SIZE, FM_NUMBER_COUNT);
    Views(b, FM_OFFSET, FM_NUMBER_RECORD_SIZE, FM_NUMBER_COUNT, ParseFMNumberRecord)
  }

  function TaxViews(b: seq<byte>): (vs: seq<SlotView<TaxIdRecord>>)
    requires |b| >= FILE_SIZE
    ensures |vs| == TAX_ID_COUNT
  {
    SpanIsProduct(TAX_ID_RECORD_SIZE, TAX_ID_COUNT);
    Views(b, TAX_OFFSET, TAX_ID_RECORD_SIZE, TAX_ID_COUNT, ParseTaxIdRecord)
  }

  function VatViews(b: seq<byte>): (vs: seq<SlotView<VatRateChange>>)
    requires |b| >= FILE_SIZE
    ensures |vs| == VAT_RATE_COUNT
  {
    SpanIsProduct(VAT_RATE_RECORD_SIZE, VAT_RATE_COUNT);
    Views(b, VAT_OFFSET, VAT_RATE_RECORD_SIZE, VAT_RATE_COUNT, ParseVatRateChange)
  }

  function RamViews(b: seq<byte>): (vs: seq<SlotView<RamResetRecord>>)
    requires |b| >= FILE_SIZE
    ensures |vs| == RAM_RESET_COUNT
  {
    SpanIsProduct(RAM_RESET_RECORD_SIZE, RAM_RESET_COUNT);
    Views(b, RAM_OFFSET, RAM_RESET_RECORD_SIZE, RAM_RESET_COUNT, ParseRamResetRecord)
  }

  function ZViews(b: seq<byte>): (vs: seq<SlotView<ZReport>>)
    requires |b| >= FILE_SIZE
    ensures |vs| == Z_REPORT_COUNT
  {
    SpanIsProduct(Z_REPORT_SIZE, Z_REPORT_COUNT);
    Views(b, Z_OFFSET, Z_REPORT_SIZE, Z_REPORT_COUNT, ZReportOf)
  }

  function EJOpenViews(b: seq<byte>): (vs: seq<SlotView<EJOpenRecord>>)
    requires |b| >= FILE_SIZE
    ensures |vs| == EJ_RECORD_COUNT
  {
    SpanIsProduct(EJ_RECORD_SIZE, EJ_RECORD_COUNT);
    Views(b, EJ_OPEN_OFFSET, EJ_RECORD_SIZE, EJ_RECORD_COUNT, ParseEJOpen)
  }

  function EJCloseViews(b: seq<byte>): (vs: seq<SlotView<EJCloseRecord>>)
    requires |b| >= FILE_SIZE
    ensures |vs| == EJ_RECORD_COUNT
  {
    SpanIsProduct(EJ_RECORD_SIZE, EJ_RECORD_COUNT);
    Views(b, EJ_CLOSE_OFFSET, EJ_RECORD_SIZE, EJ_RECORD_COUNT, ParseEJClose)
  }

  /** The warnings of the two singletons; `now` is the decoder's clock. */
  function HeadWarnings(b: seq<byte>, now: int): seq<Warning>
    requires |b| >= FILE_SIZE
  {
    SlotWarnings(SerialView(b), 0, SerialDate, "SerialRecord", now)
      + SlotWarnings(FiscalModeStartView(b), 0, FiscalModeStartDate, "FiscalModeStart", now)
  }

  /** The warnings of the four change lists. */
  function ChangeWarnings(b: seq<byte>, now: int): seq<Warning>
    requires |b| >= FILE_SIZE
  {
    Checks(FMViews(b), FMNumberDate, "FMNumberRecord", now)
      + Checks(TaxViews(b), TaxIdDate, "TaxIDNum", now)
      + Checks(VatViews(b), VatDate, "VatRateChanges", now)
      + Checks(RamViews(b), RamResetDate, "RAMResetRecord", now)
  }

  /** The warnings of the Z reports and the journal records. */
  function JournalWarnings(b: seq<byte>, now: int): seq<Warning>
    requires |b| >= FILE_SIZE
  {
    Checks(ZViews(b), ZDate, "ZReport", now)
      + Checks(EJOpenViews(b), EJOpenDate, "EJOpen", now)
      + Checks(EJCloseViews(b), EJCloseDate, "EJClose", now)
  }

  /** The warnings of the walk, in walk order. */
  function DumpWarnings(b: seq<byte>, now: int): seq<Warning>
    requires |b| >= FILE_SIZE
  {
    HeadWarnings(b, now) + ChangeWarnings(b, now) + JournalWarnings(b, now)
  }

  /**
   * What decoding an image `b` of at least 0x200000 bytes yields: each
   * list holds at most its region's capacity, the CPU id is the 16 bytes
   * that end the image.
   */
  function DumpOf(b: seq<byte>, now: int): (d: Dump)
    requires |b| >= FILE_SIZE
    ensures |d.fmNumbers| <= FM_NUMBER_COUNT && |d.taxNumbers| <= TAX_ID_COUNT
    ensures |d.vatRateChanges| <= VAT_RATE_COUNT && |d.ramResets| <= RAM_RESET_COUNT
    ensures |d.zReports| <= Z_REPORT_COUNT
    ensures |d.ejOpen| <= EJ_RECORD_COUNT && |d.ejClose| <= EJ_RECORD_COUNT
  {
    Dump(
      SerialOf(b),
      FiscalModeStartOf(b),
      Slots.Records(FMViews(b)),
      Slots.Records(TaxViews(b)),
      Slots.Records(VatViews(b)),
      Slots.Records(RamViews(b)),
      Slots.Records(ZViews(b)),
      Slots.Records(EJOpenViews(b)),
      Slots.Records(EJCloseViews(b)),
      CpuIdOf(b),
      DumpWarnings(b, now))
  }

  /**
   * The warnings decoding an image raises, by record type: `w` is raised
   * exactly when its tag names one of the nine regions and slot `w.index`
   * of that region calls for it.
   */
  ghost predicate Raised(b: seq<byte>, now: int, w: Warning)
    requires |b| >= FILE_SIZE
  {
    if w.recordType == "SerialRecord" then
      Flags([SerialView(b)], SERIAL_OFFSET, SERIAL_RECORD_SIZE, SerialDate, now, w)
    else if w.recordType == "FiscalModeStart" then
      Flags([FiscalModeStartView(b)], FMS_OFFSET, FISCAL_MODE_START_SIZE, FiscalModeStartDate, now, w)
    else if w.recordType == "FMNumberRecord" then Flags(FMViews(b), FM_OFFSET, FM_NUMBER_RECORD_SIZE, FMNumberDate, now, w)
    else if w.recordType == "TaxIDNum" then Flags(TaxViews(b), TAX_OFFSET, TAX_ID_RECORD_SIZE, TaxIdDate, now, w)
    else if w.recordType == "VatRateChanges" then Flags(VatViews(b), VAT_OFFSET, VAT_RATE_RECORD_SIZE, VatDate, now, w)
    else if w.recordType == "RAMResetRecord" then Flags(RamViews(b), RAM_OFFSET, RAM_RESET_RECORD_SIZE, RamResetDate, now, w)
    else if w.recordType == "ZReport" then Flags(ZViews(b), Z_OFFSET, Z_REPORT_SIZE, ZDate, now, w)
    else if w.recordType == "EJOpen" then Flags(EJOpenViews(b), EJ_OPEN_OFFSET, EJ_RECORD_SIZE, EJOpenDate, now, w)
    else if w.recordType == "EJClose" then Flags(EJCloseViews(b), EJ_CLOSE_OFFSET, EJ_RECORD_SIZE, EJCloseDate, now, w)
    else false
  }

  lemma HeadMembership(b: seq<byte>, now: int, w: Warning)
    requires |b| >= FILE_SIZE
    ensures w in HeadWarnings(b, now) <==>
      || (w.recordType == "SerialRecord" && Flags([SerialView(b)], SERIAL_OFFSET, SERIAL_RECORD_SIZE, SerialDate, now, w))
      || (w.recordType == "FiscalModeStart" &&
          Flags([FiscalModeStartView(b)], FMS_OFFSET, FISCAL_MODE_START_SIZE, FiscalModeStartDate, now, w))
  {
    LayoutFillsFile();
    SingletonMembership(b, SERIAL_OFFSET, SERIAL_RECORD_SIZE, ParseSerialRecord, SerialDate, "SerialRecord", now, w);
    SingletonMembership(b, FMS_OFFSET, FISCAL_MODE_START_SIZE, ParseFiscalModeStart, FiscalModeStartDate,
                        "FiscalModeStart", now, w);
  }

  lemma ChangeMembership(b: seq<byte>, now: int, w: Warning)
    requires |b| >= FILE_SIZE
    ensures w in ChangeWarnings(b, now) <==>
      || (w.recordType == "FMNumberRecord" && Flags(FMViews(b), FM_OFFSET, FM_NUMBER_RECORD_SIZE, FMNumberDate, now, w))
      || (w.recordType == "TaxIDNum" && Flags(TaxViews(b), TAX_OFFSET, TAX_ID_RECORD_SIZE, TaxIdDate, now, w))
      || (w.recordType == "VatRateChanges" && Flags(VatViews(b), VAT_OFFSET, VAT_RATE_RECORD_SIZE, VatDate, now, w))
      || (w.recordType == "RAMResetRecord" && Flags(RamViews(b), RAM_OFFSET, RAM_RESET_RECORD_SIZE, RamResetDate, now, w))
  {
    LayoutFillsFile();
    SpanIsProduct(FM_NUMBER_RECORD_SIZE, FM_NUMBER_COUNT);
    SpanIsProduct(TAX_ID_RECORD_SIZE, TAX_ID_COUNT);
    SpanIsProduct(VAT_RATE_RECORD_SIZE, VAT_RATE_COUNT);
    SpanIsProduct(RAM_RESET_RECORD_SIZE, RAM_RESET_COUNT);
    RegionMembership(b, FM_OFFSET, FM_NUMBER_RECORD_SIZE, FM_NUMBER_COUNT, ParseFMNumberRecord, FMNumberDate,
                     "FMNumberRecord", now, w);
    RegionMembership(b, TAX_OFFSET, TAX_ID_RECORD_SIZE, TAX_ID_COUNT, ParseTaxIdRecord, TaxIdDate, "TaxIDNum", now, w);
    RegionMembership(b, VAT_OFFSET, VAT_RATE_RECORD_SIZE, VAT_RATE_COUNT, ParseVatRateChange, VatDate,
                     "VatRateChanges", now, w);
    RegionMembership(b, RAM_OFFSET, RAM_RESET_RECORD_SIZE, RAM_RESET_COUNT, ParseRamResetRecord, RamResetDate,
                     "RAMResetRecord", now, w);
  }

  lemma JournalMembership(b: seq<byte>, now: int, w: Warning)
    requires |b| >= FILE_SIZE
    ensures w in JournalWarnings(b, now) <==>
      || (w.recordType == "ZReport" && Flags(ZViews(b), Z_OFFSET, Z_REPORT_SIZE, ZDate, now, w))
      || (w.recordType == "EJOpen" && Flags(EJOpenViews(b), EJ_OPEN_OFFSET, EJ_RECORD_SIZE, EJOpenDate, now, w))
      || (w.recordType == "EJClose" && Flags(EJCloseViews(b), EJ_CLOSE_OFFSET, EJ_RECORD_SIZE, EJCloseDate, now, w))
  {
    LayoutFillsFile();
    SpanIsProduct(Z_REPORT_SIZE, Z_REPORT_COUNT);
    SpanIsProduct(EJ_RECORD_SIZE, EJ_RECORD_COUNT);
    RegionMembership(b, Z_OFFSET, Z_REPORT_SIZE, Z_REPORT_COUNT, ZReportOf, ZDate, "ZReport", now, w);
    RegionMembership(b, EJ_OPEN_OFFSET, EJ_RECORD_SIZE, EJ_RECORD_COUNT, ParseEJOpen, EJOpenDate, "EJOpen", now, w);
    RegionMembership(b, EJ_CLOSE_OFFSET, EJ_RECORD_SIZE, EJ_RECORD_COUNT, ParseEJClose, EJCloseDate, "EJClose", now, w);
  }

  /**
   * Decoding raises exactly the warnings the image calls for: one per
   * written slot that fails verification and one per written slot dated
   * after `now`, each naming its region, slot number and offset.
   */
  lemma WarningsExact(b: seq<byte>, now: int, w: Warning)
    requires |b| >= FILE_SIZE
    ensures w in DumpOf(b, now).warnings <==> Raised(b, now, w)
  {
    HeadMembership(b, now, w);
    ChangeMembership(b, now, w);
    JournalMembership(b, now, w);
  }

  /**
   * `parseDP25FiscalMemory(buffer)`: throws for anything but a buffer and
   * for a buffer shorter than the image; a longer one is accepted and only
   * its first 0x200000 bytes are read.
   */
  method Decode(buf: array?<byte>, now: int) returns (r: Result<Dump, DecodeError>)
    ensures buf == null ==> r == Failure(NotABuffer)
    ensures buf != null && buf.Length < FILE_SIZE ==> r == Failure(TooSmall)
    ensures buf != null && buf.Length >= FILE_SIZE ==> r == Success(DumpOf(buf[..], now))
  {
    if buf == null {
      return Failure(NotABuffer);
    }
    if buf.Length < FILE_SIZE {
      return Failure(TooSmall);
    }
    var d := DecodeImage(buf, now);
    return Success(d);
  }

  /** The walk over an image long enough to hold every region. */
  method DecodeImage(buf: array<byte>, now: int) returns (d: Dump)
    requires buf.Length >= FILE_SIZE
    ensures d == DumpOf(buf[..], now)
  {
    var offset: nat := TEST_SPACE_SIZE;
    var serialRecord, fiscalModeStart, warnings, offset1 := DecodeHead(buf, offset, now);
    var fmNumbers, taxNumbers, vatRateChanges, ramResets, ws1, offset2 := DecodeChanges(buf, offset1, now);
    warnings := warnings + ws1;
    var zReports, ejOpen, ejClose, ws2, offset3 := DecodeJournal(buf, offset2, now);
    warnings := warnings + ws2;
    var cpuId := ReadCpuId(buf, offset3 + NOT_USED_SIZE);
    d := Dump(serialRecord, fiscalModeStart, fmNumbers, taxNumbers, vatRateChanges, ramResets, zReports,
              ejOpen, ejClose, cpuId, warnings);
  }

  /** The 16 bytes of the CPU id, at `offset`. */
  method ReadCpuId(buf: array<byte>, offset: nat) returns (cpuId: seq<byte>)
    requires buf.Length >= FILE_SIZE && offset == CPU_ID_OFFSET
    ensures cpuId == CpuIdOf(buf[..])
  {
    LayoutFillsFile();
    cpuId := buf[offset..offset + CPU_ID_SIZE];
  }

  /** The walk over the serial record and the fiscal-mode start, from `offset` on. */
  method DecodeHead(buf: array<byte>, offset: nat, now: int)
    returns (serialRecord: SerialRecord, fiscalModeStart: FiscalModeStart, warnings: seq<Warning>, next: nat)
    requires buf.Length >= FILE_SIZE && offset == SERIAL_OFFSET
    ensures serialRecord == SerialOf(buf[..]) && fiscalModeStart == FiscalModeStartOf(buf[..])
    ensures warnings == HeadWarnings(buf[..], now) && next == FM_OFFSET
  {
    LayoutFillsFile();
    var ws;
    serialRecord, ws := DecodeSingleton(buf, offset, SERIAL_RECORD_SIZE, ParseSerialRecord, SerialDate,
                                        "SerialRecord", now);
    warnings := ws;
    next := offset + SERIAL_RECORD_SIZE;
    var ws1;
    fiscalModeStart, ws1 := DecodeSingleton(buf, next, FISCAL_MODE_START_SIZE, ParseFiscalModeStart,
                                            FiscalModeStartDate, "FiscalModeStart", now);
    warnings := warnings + ws1;
    next := next + FISCAL_MODE_START_SIZE;
  }

  /** The walk over the FM number, tax number, VAT rate and RAM reset slots, from `offset` on. */
  method DecodeChanges(buf: array<byte>, offset: nat, now: int)
    returns (fmNumbers: seq<FMNumberRecord>, taxNumbers: seq<TaxIdRecord>, vatRateChanges: seq<VatRateChange>,
             ramResets: seq<RamResetRecord>, warnings: seq<Warning>, next: nat)
    requires buf.Length >= FILE_SIZE && offset == FM_OFFSET
    ensures fmNumbers == Slots.Records(FMViews(buf[..])) && taxNumbers == Slots.Records(TaxViews(buf[..]))
    ensures vatRateChanges == Slots.Records(VatViews(buf[..])) && ramResets == Slots.Records(RamViews(buf[..]))
    ensures warnings == ChangeWarnings(buf[..], now) && next == Z_OFFSET
  {
    var ws;
    fmNumbers, warnings, next := DecodeFMNumbers(buf, offset, now);
    taxNumbers, ws, next := DecodeTaxNumbers(buf, next, now);
    warnings := warnings + ws;
    vatRateChanges, ws, next := DecodeVatRateChanges(buf, next, now);
    warnings := warnings + ws;
    ramResets, ws, next := DecodeRamResets(buf, next, now);
    warnings := warnings + ws;
  }

  /** The walk over the Z report, EJ open and EJ close slots, from `offset` on. */
  method DecodeJournal(buf: array<byte>, offset: nat, now: int)
    returns (zReports: seq<ZReport>, ejOpen: seq<EJOpenRecord>, ejClose: seq<EJCloseRecord>,
             warnings: seq<Warning>, next: nat)
    requires buf.Length >= FILE_SIZE && offset == Z_OFFSET
    ensures zReports == Slots.Records(ZViews(buf[..]))
    ensures ejOpen == Slots.Records(EJOpenViews(buf[..])) && ejClose == Slots.Records(EJCloseViews(buf[..]))
    ensures warnings == JournalWarnings(buf[..], now) && next == NOT_USED_OFFSET
  {
    var ws;
    zReports, warnings, next := DecodeZReports(buf, offset, now);
    ejOpen, ws, next := DecodeEJOpen(buf, next, now);
    warnings := warnings + ws;
    ejClose, ws, next := DecodeEJClose(buf, next, now);
    warnings := warnings + ws;
  }

  /** The loop over the FM number slots, from `offset` on; `next` is where the following region starts. */
  method DecodeFMNumbers(buf: array<byte>, offset: nat, now: int) returns (fmNumbers: seq<FMNumberRecord>, warnings: seq<Warning>, next: nat)
    requires buf.Length >= FILE_SIZE && offset == FM_OFFSET
    ensures fmNumbers == Slots.Records(FMViews(buf[..])) && warnings == Checks(FMViews(buf[..]), FMNumberDate, "FMNumberRecord", now)
    ensures next == TAX_OFFSET
  {
    LayoutFillsFile();
    SpanIsProduct(FM_NUMBER_RECORD_SIZE, FM_NUMBER_COUNT);
    fmNumbers, warnings := DecodeRegion(buf, offset, FM_NUMBER_RECORD_SIZE, FM_NUMBER_COUNT, ParseFMNumberRecord, FMNumberDate, "FMNumberRecord", now);
    next := offset + FM_NUMBER_RECORD_SIZE * FM_NUMBER_COUNT;
  }

  /** The loop over the tax number slots, from `offset` on; `next` is where the following region starts. */
  method DecodeTaxNumbers(buf: array<byte>, offset: nat, now: int) returns (taxNumbers: seq<TaxIdRecord>, warnings: seq<Warning>, next: nat)
    requires buf.Length >= FILE_SIZE && offset == TAX_OFFSET
    ensures taxNumbers == Slots.Records(TaxViews(buf[..])) && warnings == Checks(TaxViews(buf[..]), TaxIdDate, "TaxIDNum", now)
    ensures next == VAT_OFFSET
  {
    LayoutFillsFile();
    SpanIsProduct(TAX_ID_RECORD_SIZE, TAX_ID_COUNT);
    taxNumbers, warnings := DecodeRegion(buf, offset, TAX_ID_RECORD_SIZE, TAX_ID_COUNT, ParseTaxIdRecord, TaxIdDate, "TaxIDNum", now);
    next := offset + TAX_ID_RECORD_SIZE * TAX_ID_COUNT;
  }

  /** The loop over the VAT rate change slots, from `offset` on; `next` is where the following region starts. */
  method DecodeVatRateChanges(buf: array<byte>, offset: nat, now: int) returns (vatRateChanges: seq<VatRateChange>, warnings: seq<Warning>, next: nat)
    requires buf.Length >= FILE_SIZE && offset == VAT_OFFSET
    ensures vatRateChanges == Slots.Records(VatViews(buf[..])) && warnings == Checks(VatViews(buf[..]), VatDate, "VatRateChanges", now)
    ensures next == RAM_OFFSET
  {
    LayoutFillsFile();
    SpanIsProduct(VAT_RATE_RECORD_SIZE, VAT_RATE_COUNT);
    vatRateChanges, warnings := DecodeRegion(buf, offset, VAT_RATE_RECORD_SIZE, VAT_RATE_COUNT, ParseVatRateChange, VatDate, "VatRateChanges", now);
    next := offset + VAT_RATE_RECORD_SIZE * VAT_RATE_COUNT;
  }

  /** The loop over the RAM reset slots, from `offset` on; `next` is where the following region starts. */
  method DecodeRamResets(buf: array<byte>, offset: nat, now: int) returns (ramResets: seq<RamResetRecord>, warnings: seq<Warning>, next: nat)
    requires buf.Length >= FILE_SIZE && offset == RAM_OFFSET
    ensures ramResets == Slots.Records(RamViews(buf[..])) && warnings == Checks(RamViews(buf[..]), RamResetDate, "RAMResetRecord", now)
    ensures next == Z_OFFSET
  {
    LayoutFillsFile();
    SpanIsProduct(RAM_RESET_RECORD_SIZE, RAM_RESET_COUNT);
    ramResets, warnings := DecodeRegion(buf, offset, RAM_RESET_RECORD_SIZE, RAM_RESET_COUNT, ParseRamResetRecord, RamResetDate, "RAMResetRecord", now);
    next := offset + RAM_RESET_RECORD_SIZE * RAM_RESET_COUNT;
  }

  /** The loop over the Z report slots, from `offset` on; `next` is where the following region starts. */
  method DecodeZReports(buf: array<byte>, offset: nat, now: int) returns (zReports: seq<ZReport>, warnings: seq<Warning>, next: nat)
    requires buf.Length >= FILE_SIZE && offset == Z_OFFSET
    ensures zReports == Slots.Records(ZViews(buf[..])) && warnings == Checks(ZViews(buf[..]), ZDate, "ZReport", now)
    ensures next == EJ_OPEN_OFFSET
  {
    LayoutFillsFile();
    SpanIsProduct(Z_REPORT_SIZE, Z_REPORT_COUNT);
    zReports, warnings := DecodeRegion(buf, offset, Z_REPORT_SIZE, Z_REPORT_COUNT, ZReportOf, ZDate, "ZReport", now);
    next := offset + Z_REPORT_SIZE * Z_REPORT_COUNT;
  }

  /** The loop over the EJ open slots, from `offset` on; `next` is where the following region starts. */
  method DecodeEJOpen(buf: array<byte>, offset: nat, now: int) returns (ejOpen: seq<EJOpenRecord>, warnings: seq<Warning>, next: nat)
    requires buf.Length >= FILE_SIZE && offset == EJ_OPEN_OFFSET
    ensures ejOpen == Slots.Records(EJOpenViews(buf[..])) && warnings == Checks(EJOpenViews(buf[..]), EJOpenDate, "EJOpen", now)
    ensures next == EJ_CLOSE_OFFSET
  {
    LayoutFillsFile();
    SpanIsProduct(EJ_RECORD_SIZE, EJ_RECORD_COUNT);
    ejOpen, warnings := DecodeRegion(buf, offset, EJ_RECORD_SIZE, EJ_RECORD_COUNT, ParseEJOpen, EJOpenDate, "EJOpen", now);
    next := offset + EJ_RECORD_SIZE * EJ_RECORD_COUNT;
  }

  /** The loop over the EJ close slots, from `offset` on; `next` is where the following region starts. */
  method DecodeEJClose(buf: array<byte>, offset: nat, now: int) returns (ejClose: seq<EJCloseRecord>, warnings: seq<Warning>, next: nat)
    requires buf.Length >= FILE_SIZE && offset == EJ_CLOSE_OFFSET
    ensures ejClose == Slots.Records(EJCloseViews(buf[..])) && warnings == Checks(EJCloseViews(buf[..]), EJCloseDate, "EJClose", now)
    ensures next == NOT_USED_OFFSET
  {
    LayoutFillsFile();
    SpanIsProduct(EJ_RECORD_SIZE, EJ_RECORD_COUNT);
    ejClose, warnings := DecodeRegion(buf, offset, EJ_RECORD_SIZE, EJ_RECORD_COUNT, ParseEJClose, EJCloseDate, "EJClose", now);
    next := offset + EJ_RECORD_SIZE * EJ_RECORD_COUNT;
  }
}
