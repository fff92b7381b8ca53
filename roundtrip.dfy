/**
 * What `parseDP25FiscalMemory` makes of the image `buildDP25FiscalMemory`
 * writes. Records in the form the decoder itself produces come back as they
 * went in, Z reports with their four change counters recomputed, and no
 * record fails its checksum. An erased serial or fiscal-mode-start slot does
 * not survive a decode followed by an encode, because the decoder turns it
 * into a record all the same.
 */
module RoundTrip {
  import opened Wrappers
  import opened Bytes
  import opened Checksum
  import opened FiscalDate
  import opened Records
  import opened VatRates
  import opened ZReports
  import opened Slots
  import opened Layout
  import opened Decoder

  /** A list the editor hands back: no null entries, at most `n` of them, each as decoding produces it. */
  ghost predicate Ready<T>(list: seq<Option<T>>, n: nat, canonical: T -> bool)
  {
    |list| <= n && forall k | 0 <= k < |list| :: list[k].Some? && canonical(list[k].value)
  }

  /** The entries of a list without null entries. */
  function Present<T>(list: seq<Option<T>>): (xs: seq<T>)
    requires forall k | 0 <= k < |list| :: list[k].Some?
    ensures |xs| == |list| && forall k | 0 <= k < |list| :: list[k] == Some(xs[k])
  {
    seq(|list|, k requires 0 <= k < |list| => list[k].value)
  }

  /** Dump data in the form decoding produces it, with every list within its region's capacity. */
  ghost predicate DataReady(d: DumpData)
  {
    && d.serialRecord.Some? && SerialCanonical(d.serialRecord.value)
    && d.fiscalModeStart.Some? && CanonicalStamp(d.fiscalModeStart.value.dateTime)
    && Ready(d.fmNumbers, FM_NUMBER_COUNT, FMNumberCanonical)
    && Ready(d.taxNumbers, TAX_ID_COUNT, TaxIdCanonical)
    && Ready(d.vatRateChanges, VAT_RATE_COUNT, VatCanonical)
    && Ready(d.ramResets, RAM_RESET_COUNT, RamResetCanonical)
    && Ready(d.zReports, Z_REPORT_COUNT, ZCanonical)
    && Ready(d.ejOpen, EJ_RECORD_COUNT, EJOpenCanonical)
    && Ready(d.ejClose, EJ_RECORD_COUNT, EJCloseCanonical)
  }

  /** A serial slot written with `v` reads back as `v`, and its checksum holds. */
  lemma SerialReadsBack(b: seq<byte>, v: SerialRecord)
    requires |b| >= FILE_SIZE && SerialCanonical(v)
    requires StampWritable(v.dateTime) && b[SERIAL_OFFSET..FMS_OFFSET] == SerialSlot(Some(v))
    ensures SerialOf(b) == v
    ensures SerialView(b) == Written(SERIAL_OFFSET, v, true)
  {
    SerialRoundTrip(v);
  }

  /** A fiscal-mode-start slot written with `v` reads back as `v`, and its checksum holds. */
  lemma FiscalModeStartReadsBack(b: seq<byte>, v: FiscalModeStart)
    requires |b| >= FILE_SIZE && CanonicalStamp(v.dateTime)
    requires StampWritable(v.dateTime) && b[FMS_OFFSET..FM_OFFSET] == FiscalModeStartSlot(Some(v))
    ensures FiscalModeStartOf(b) == v
    ensures FiscalModeStartView(b) == Written(FMS_OFFSET, v, true)
  {
    FiscalModeStartRoundTrip(v);
  }

  /** A region the FM numbers were written into reads back as the list, in order, and every slot verifies. */
  lemma FMNumbersReadBack(b: seq<byte>, list: seq<Option<FMNumberRecord>>)
    requires |b| >= FILE_SIZE && ImagesFit(list, FM_NUMBER_COUNT, FM_NUMBER_RECORD_SIZE, FMNumberSlot) && Ready(list, FM_NUMBER_COUNT, FMNumberCanonical)
    requires b[FM_OFFSET..TAX_OFFSET] == FMRegion(list)
    ensures Slots.Records(FMViews(b)) == Present(list)
    ensures AllVerified(FMViews(b))
  {
    SpanIsProduct(FM_NUMBER_RECORD_SIZE, FM_NUMBER_COUNT);
    forall k | 0 <= k < |list|
      ensures list[k].Some? && !IsErased(FMNumberSlot(list[k])) && ChecksumOk(FMNumberSlot(list[k]))
      ensures ParseFMNumberRecord(FMNumberSlot(list[k])) == Present(list)[k]
    {
      FMNumberRoundTrip(list[k].value);
    }
    RegionRoundTrip(b, FM_OFFSET, list, FM_NUMBER_COUNT, FM_NUMBER_RECORD_SIZE, FMNumberSlot, ParseFMNumberRecord, Present(list));
  }

  /** A region the tax numbers were written into reads back as the list, in order, and every slot verifies. */
  lemma TaxNumbersReadBack(b: seq<byte>, list: seq<Option<TaxIdRecord>>)
    requires |b| >= FILE_SIZE && ImagesFit(list, TAX_ID_COUNT, TAX_ID_RECORD_SIZE, TaxIdSlot) && Ready(list, TAX_ID_COUNT, TaxIdCanonical)
    requires b[TAX_OFFSET..VAT_OFFSET] == TaxRegion(list)
    ensures Slots.Records(TaxViews(b)) == Present(list)
    ensures AllVerified(TaxViews(b))
  {
    SpanIsProduct(TAX_ID_RECORD_SIZE, TAX_ID_COUNT);
    forall k | 0 <= k < |list|
      ensures list[k].Some? && !IsErased(TaxIdSlot(list[k])) && ChecksumOk(TaxIdSlot(list[k]))
      ensures ParseTaxIdRecord(TaxIdSlot(list[k])) == Present(list)[k]
    {
      TaxIdRoundTrip(list[k].value);
    }
    RegionRoundTrip(b, TAX_OFFSET, list, TAX_ID_COUNT, TAX_ID_RECORD_SIZE, TaxIdSlot, ParseTaxIdRecord, Present(list));
  }

  /** A region the VAT-rate changes were written into reads back as the list, in order, and every slot verifies. */
  lemma VatRateChangesReadBack(b: seq<byte>, list: seq<Option<VatRateChange>>)
    requires |b| >= FILE_SIZE && ImagesFit(list, VAT_RATE_COUNT, VAT_RATE_RECORD_SIZE, VatSlot) && Ready(list, VAT_RATE_COUNT, VatCanonical)
    requires b[VAT_OFFSET..RAM_OFFSET] == VatRegion(list)
    ensures Slots.Records(VatViews(b)) == Present(list)
    ensures AllVerified(VatViews(b))
  {
    SpanIsProduct(VAT_RATE_RECORD_SIZE, VAT_RATE_COUNT);
    forall k | 0 <= k < |list|
      ensures list[k].Some? && !IsErased(VatSlot(list[k])) && ChecksumOk(VatSlot(list[k]))
      ensures ParseVatRateChange(VatSlot(list[k])) == Present(list)[k]
    {
      VatRoundTrip(list[k].value);
    }
    RegionRoundTrip(b, VAT_OFFSET, list, VAT_RATE_COUNT, VAT_RATE_RECORD_SIZE, VatSlot, ParseVatRateChange, Present(list));
  }

  /** A region the RAM resets were written into reads back as the list, in order, and every slot verifies. */
  lemma RamResetsReadBack(b: seq<byte>, list: seq<Option<RamResetRecord>>)
    requires |b| >= FILE_SIZE && ImagesFit(list, RAM_RESET_COUNT, RAM_RESET_RECORD_SIZE, RamResetSlot) && Ready(list, RAM_RESET_COUNT, RamResetCanonical)
    requires b[RAM_OFFSET..Z_OFFSET] == RamRegion(list)
    ensures Slots.Records(RamViews(b)) == Present(list)
    ensures AllVerified(RamViews(b))
  {
    SpanIsProduct(RAM_RESET_RECORD_SIZE, RAM_RESET_COUNT);
    forall k | 0 <= k < |list|
      ensures list[k].Some? && !IsErased(RamResetSlot(list[k])) && ChecksumOk(RamResetSlot(list[k]))
      ensures ParseRamResetRecord(RamResetSlot(list[k])) == Present(list)[k]
    {
      RamResetRoundTrip(list[k].value);
    }
    RegionRoundTrip(b, RAM_OFFSET, list, RAM_RESET_COUNT, RAM_RESET_RECORD_SIZE, RamResetSlot, ParseRamResetRecord, Present(list));
  }

  /** A region the EJ open records were written into reads back as the list, in order, and every slot verifies. */
  lemma EJOpenReadBack(b: seq<byte>, list: seq<Option<EJOpenRecord>>)
    requires |b| >= FILE_SIZE && ImagesFit(list, EJ_RECORD_COUNT, EJ_RECORD_SIZE, EJOpenSlot) && Ready(list, EJ_RECORD_COUNT, EJOpenCanonical)
    requires b[EJ_OPEN_OFFSET..EJ_CLOSE_OFFSET] == EJOpenRegion(list)
    ensures Slots.Records(EJOpenViews(b)) == Present(list)
    ensures AllVerified(EJOpenViews(b))
  {
    SpanIsProduct(EJ_RECORD_SIZE, EJ_RECORD_COUNT);
    forall k | 0 <= k < |list|
      ensures list[k].Some? && !IsErased(EJOpenSlot(list[k])) && ChecksumOk(EJOpenSlot(list[k]))
      ensures ParseEJOpen(EJOpenSlot(list[k])) == Present(list)[k]
    {
      EJOpenRoundTrip(list[k].value);
    }
    RegionRoundTrip(b, EJ_OPEN_OFFSET, list, EJ_RECORD_COUNT, EJ_RECORD_SIZE, EJOpenSlot, ParseEJOpen, Present(list));
  }

  /** A region the EJ close records were written into reads back as the list, in order, and every slot verifies. */
  lemma EJCloseReadBack(b: seq<byte>, list: seq<Option<EJCloseRecord>>)
    requires |b| >= FILE_SIZE && ImagesFit(list, EJ_RECORD_COUNT, EJ_RECORD_SIZE, EJCloseSlot) && Ready(list, EJ_RECORD_COUNT, EJCloseCanonical)
    requires b[EJ_CLOSE_OFFSET..NOT_USED_OFFSET] == EJCloseRegion(list)
    ensures Slots.Records(EJCloseViews(b)) == Present(list)
    ensures AllVerified(EJCloseViews(b))
  {
    SpanIsProduct(EJ_RECORD_SIZE, EJ_RECORD_COUNT);
    forall k | 0 <= k < |list|
      ensures list[k].Some? && !IsErased(EJCloseSlot(list[k])) && ChecksumOk(EJCloseSlot(list[k]))
      ensures ParseEJClose(EJCloseSlot(list[k])) == Present(list)[k]
    {
      EJCloseRoundTrip(list[k].value);
    }
    RegionRoundTrip(b, EJ_CLOSE_OFFSET, list, EJ_RECORD_COUNT, EJ_RECORD_SIZE, EJCloseSlot, ParseEJClose, Present(list));
  }

  /** What report `z` reads back as once counted and written: the counted report with the stored checksum. */
  function ZReadBack(d: DumpData, z: ZReport): (c: ZReport)
    requires ZWritable(Counted(d, z))
    ensures c.(checkSum := None) == Counted(d, z).(checkSum := None)
  {
    var r := ZSlot(Some(Counted(d, z)));
    Counted(d, z).(checkSum := Some(r[431]))
  }

  /** The Z list as it reads back: report `k` counted against `d`'s change lists. */
  function ZReadBacks(d: DumpData): (zs: seq<ZReport>)
    requires ImagesFit(ZToWrite(d), Z_REPORT_COUNT, Z_REPORT_SIZE, ZSlot) && Ready(d.zReports, Z_REPORT_COUNT, ZCanonical)
    ensures |zs| == |d.zReports|
  {
    assert forall k | 0 <= k < |d.zReports| :: ZWritable(Counted(d, d.zReports[k].value)) by {
      forall k | 0 <= k < |d.zReports|
        ensures ZWritable(Counted(d, d.zReports[k].value))
      {
        EntryFits(ZToWrite(d), Z_REPORT_COUNT, Z_REPORT_SIZE, ZSlot, k);
      }
    }
    seq(|d.zReports|, k requires 0 <= k < |d.zReports| => ZReadBack(d, d.zReports[k].value))
  }

  /** Report `k`, counted and written into an erased slot, is a verifying record that reads back as `ZReadBacks(d)[k]`. */
  lemma ZEntryReadsBack(d: DumpData, k: nat)
    requires ImagesFit(ZToWrite(d), Z_REPORT_COUNT, Z_REPORT_SIZE, ZSlot) && Ready(d.zReports, Z_REPORT_COUNT, ZCanonical)
    requires k < |d.zReports|
    ensures ZToWrite(d)[k].Some? && !IsErased(ZSlot(ZToWrite(d)[k])) && ChecksumOk(ZSlot(ZToWrite(d)[k]))
    ensures ZReportOf(ZSlot(ZToWrite(d)[k])) == ZReadBacks(d)[k]
  {
    var zs := ZToWrite(d);
    var c := Counted(d, d.zReports[k].value);
    assert zs[k] == Some(c);
    EntryFits(zs, Z_REPORT_COUNT, Z_REPORT_SIZE, ZSlot, k);
    ZRoundTrip(c);
  }

  /**
   * A region the Z reports were written into reads back as the list, in
   * order, each report with its four change counters as the encoder
   * recomputed them, and every slot verifies.
   */
  lemma ZReportsReadBack(b: seq<byte>, d: DumpData)
    requires |b| >= FILE_SIZE && ImagesFit(ZToWrite(d), Z_REPORT_COUNT, Z_REPORT_SIZE, ZSlot)
    requires Ready(d.zReports, Z_REPORT_COUNT, ZCanonical)
    requires b[Z_OFFSET..EJ_OPEN_OFFSET] == ZRegion(ZToWrite(d))
    ensures Slots.Records(ZViews(b)) == ZReadBacks(d)
    ensures AllVerified(ZViews(b))
  {
    var zs := ZToWrite(d);
    var out := ZReadBacks(d);
    SpanIsProduct(Z_REPORT_SIZE, Z_REPORT_COUNT);
    forall k | 0 <= k < |zs|
      ensures zs[k].Some? && !IsErased(ZSlot(zs[k])) && ChecksumOk(ZSlot(zs[k]))
      ensures ZReportOf(ZSlot(zs[k])) == out[k]
    {
      ZEntryReadsBack(d, k);
    }
    RegionRoundTrip(b, Z_OFFSET, zs, Z_REPORT_COUNT, Z_REPORT_SIZE, ZSlot, ZReportOf, out);
  }

  /** A slot that is blank or verifies raises at most a future-date warning. */
  lemma SlotOnlyFuture<T>(v: SlotView<T>, j: nat, date: T -> Option<int>, recordType: string, now: int)
    requires v.Written? ==> v.verified
    ensures forall w | w in SlotWarnings(v, j, date, recordType, now) :: w.kind == FutureDate
  {
    if v.Written? {
      var iso := date(v.record);
      assert CheckRecord(recordType, j, v.offset, true, iso, now)
        == if iso.Some? && iso.value > now then [Warning(FutureDate, recordType, j, v.offset)] else [];
    }
  }

  /** Checksums that hold raise no checksum warning anywhere in the image. */
  lemma OnlyFutureWarnings(b: seq<byte>, now: int)
    requires |b| >= FILE_SIZE
    requires SerialView(b).Written? ==> SerialView(b).verified
    requires FiscalModeStartView(b).Written? ==> FiscalModeStartView(b).verified
    requires AllVerified(FMViews(b)) && AllVerified(TaxViews(b)) && AllVerified(VatViews(b))
    requires AllVerified(RamViews(b)) && AllVerified(ZViews(b))
    requires AllVerified(EJOpenViews(b)) && AllVerified(EJCloseViews(b))
    ensures forall w | w in DumpWarnings(b, now) :: w.kind == FutureDate
  {
    assert forall w | w in HeadWarnings(b, now) :: w.kind == FutureDate by {
      SlotOnlyFuture(SerialView(b), 0, SerialDate, "SerialRecord", now);
      SlotOnlyFuture(FiscalModeStartView(b), 0, FiscalModeStartDate, "FiscalModeStart", now);
    }
    assert forall w | w in ChangeWarnings(b, now) :: w.kind == FutureDate by {
      NoChecksumWarnings(FMViews(b), FMNumberDate, "FMNumberRecord", now);
      NoChecksumWarnings(TaxViews(b), TaxIdDate, "TaxIDNum", now);
      NoChecksumWarnings(VatViews(b), VatDate, "VatRateChanges", now);
      NoChecksumWarnings(RamViews(b), RamResetDate, "RAMResetRecord", now);
    }
    assert forall w | w in JournalWarnings(b, now) :: w.kind == FutureDate by {
      NoChecksumWarnings(ZViews(b), ZDate, "ZReport", now);
      NoChecksumWarnings(EJOpenViews(b), EJOpenDate, "EJOpen", now);
      NoChecksumWarnings(EJCloseViews(b), EJCloseDate, "EJClose", now);
    }
  }

  /** The dump decoding should give back for `d`, apart from its warnings. */
  function ReadBack(d: DumpData, warnings: seq<Warning>): (out: Dump)
    requires DataWritable(d) && DataReady(d)
    ensures out.warnings == warnings
  {
    Dump(d.serialRecord.value, d.fiscalModeStart.value,
         Present(d.fmNumbers), Present(d.taxNumbers), Present(d.vatRateChanges), Present(d.ramResets),
         ZReadBacks(d), Present(d.ejOpen), Present(d.ejClose), Erased(CPU_ID_SIZE), warnings)
  }

  /**
   * Decoding an image whose regions hold what the encoder writes for `d`:
   * every record comes back as it went in (Z reports with recomputed
   * counters and the stored checksum), and the only warnings are future dates.
   */
  lemma DecodeWritten(b: seq<byte>, d: DumpData, now: int)
    requires DataWritable(d) && DataReady(d) && |b| == FILE_SIZE
    requires b[SERIAL_OFFSET..FMS_OFFSET] == SerialSlot(d.serialRecord)
    requires b[FMS_OFFSET..FM_OFFSET] == FiscalModeStartSlot(d.fiscalModeStart)
    requires b[FM_OFFSET..TAX_OFFSET] == FMRegion(d.fmNumbers)
    requires b[TAX_OFFSET..VAT_OFFSET] == TaxRegion(d.taxNumbers)
    requires b[VAT_OFFSET..RAM_OFFSET] == VatRegion(d.vatRateChanges)
    requires b[RAM_OFFSET..Z_OFFSET] == RamRegion(d.ramResets)
    requires b[Z_OFFSET..EJ_OPEN_OFFSET] == ZRegion(ZToWrite(d))
    requires b[EJ_OPEN_OFFSET..EJ_CLOSE_OFFSET] == EJOpenRegion(d.ejOpen)
    requires b[EJ_CLOSE_OFFSET..NOT_USED_OFFSET] == EJCloseRegion(d.ejClose)
    requires b[CPU_ID_OFFSET..FILE_SIZE] == Erased(CPU_ID_SIZE)
    ensures DumpOf(b, now) == ReadBack(d, DumpOf(b, now).warnings)
    ensures forall w | w in DumpOf(b, now).warnings :: w.kind == FutureDate
  {
    var out := DumpOf(b, now);
    assert out.serialRecord == d.serialRecord.value && SerialView(b).verified by {
      SerialReadsBack(b, d.serialRecord.value);
    }
    assert out.fiscalModeStart == d.fiscalModeStart.value && FiscalModeStartView(b).verified by {
      FiscalModeStartReadsBack(b, d.fiscalModeStart.value);
    }
    assert out.fmNumbers == Present(d.fmNumbers) && AllVerified(FMViews(b)) by {
      FMNumbersReadBack(b, d.fmNumbers);
    }
    assert out.taxNumbers == Present(d.taxNumbers) && AllVerified(TaxViews(b)) by {
      TaxNumbersReadBack(b, d.taxNumbers);
    }
    assert out.vatRateChanges == Present(d.vatRateChanges) && AllVerified(VatViews(b)) by {
      VatRateChangesReadBack(b, d.vatRateChanges);
    }
    assert out.ramResets == Present(d.ramResets) && AllVerified(RamViews(b)) by {
      RamResetsReadBack(b, d.ramResets);
    }
    assert out.zReports == ZReadBacks(d) && AllVerified(ZViews(b)) by {
      ZReportsReadBack(b, d);
    }
    assert out.ejOpen == Present(d.ejOpen) && AllVerified(EJOpenViews(b)) by {
      EJOpenReadBack(b, d.ejOpen);
    }
    assert out.ejClose == Present(d.ejClose) && AllVerified(EJCloseViews(b)) by {
      EJCloseReadBack(b, d.ejClose);
    }
    OnlyFutureWarnings(b, now);
  }

  /**
   * Encode, then decode: every record comes back as it went in (Z reports
   * with recomputed counters and the stored checksum), the CPU id is
   * erased, and the only warnings left are future dates.
   */
  lemma EncodeThenDecode(d: DumpData, now: int)
    requires DataWritable(d) && DataReady(d)
    ensures DumpOf(EncodeImage(d), now) == ReadBack(d, DumpOf(EncodeImage(d), now).warnings)
    ensures forall w | w in DumpOf(EncodeImage(d), now).warnings :: w.kind == FutureDate
  {
    var b := EncodeImage(d);
    FlatRegions(RegionsOf(d));
    DecodeWritten(b, d, now);
  }

  /**
   * An image whose serial slot is erased still decodes to a serial record,
   * and writing that record back leaves the slot no longer erased: the
   * reserved bytes become zeros and the last byte a checksum.
   */
  lemma ErasedSerialRewritten(b: seq<byte>)
    requires |b| >= FILE_SIZE && b[SERIAL_OFFSET..FMS_OFFSET] == Erased(SERIAL_RECORD_SIZE)
    ensures StampWritable(SerialOf(b).dateTime)
    ensures SerialSlot(Some(SerialOf(b))) != b[SERIAL_OFFSET..FMS_OFFSET]
  {
    assert Erased(SERIAL_RECORD_SIZE)[10..18] == Erased(8);
    assert SerialSlot(Some(SerialOf(b)))[18] == 0;
  }

  /** The same for the fiscal-mode start. */
  lemma ErasedFiscalModeStartRewritten(b: seq<byte>)
    requires |b| >= FILE_SIZE && b[FMS_OFFSET..FM_OFFSET] == Erased(FISCAL_MODE_START_SIZE)
    ensures StampWritable(FiscalModeStartOf(b).dateTime)
    ensures FiscalModeStartSlot(Some(FiscalModeStartOf(b))) != b[FMS_OFFSET..FM_OFFSET]
  {
    assert Erased(FISCAL_MODE_START_SIZE)[..8] == Erased(8);
    assert FiscalModeStartSlot(Some(FiscalModeStartOf(b)))[8] == 0;
  }

  /**
   * So a dump without a serial record or a fiscal-mode start does not
   * survive decoding and re-encoding: its image has the slot erased, and
   * what the decoder returns for it is written back as a record.
   */
  lemma AbsentSingletonsNotStable(d: DumpData, now: int)
    requires DataWritable(d)
    ensures d.serialRecord.None? ==>
      && EncodeImage(d)[SERIAL_OFFSET..FMS_OFFSET] == Erased(SERIAL_RECORD_SIZE)
      && StampWritable(DumpOf(EncodeImage(d), now).serialRecord.dateTime)
      && SerialSlot(Some(DumpOf(EncodeImage(d), now).serialRecord)) != Erased(SERIAL_RECORD_SIZE)
    ensures d.fiscalModeStart.None? ==>
      && EncodeImage(d)[FMS_OFFSET..FM_OFFSET] == Erased(FISCAL_MODE_START_SIZE)
      && StampWritable(DumpOf(EncodeImage(d), now).fiscalModeStart.dateTime)
      && FiscalModeStartSlot(Some(DumpOf(EncodeImage(d), now).fiscalModeStart)) != Erased(FISCAL_MODE_START_SIZE)
  {
    var b := EncodeImage(d);
    FlatRegions(RegionsOf(d));
    if d.serialRecord.None? {
      ErasedSerialRewritten(b);
    }
    if d.fiscalModeStart.None? {
      ErasedFiscalModeStartRewritten(b);
    }
  }

  /** A list none of whose entries is null. */
  predicate NoNulls<T>(list: seq<Option<T>>)
  {
    forall k | 0 <= k < |list| :: list[k].Some?
  }

  /** Each element of a list, as a present entry. */
  function Somes<T>(xs: seq<T>): (list: seq<Option<T>>)
    ensures |list| == |xs| && NoNulls(list) && Present(list) == xs
  {
    var list := seq(|xs|, k requires 0 <= k < |xs| => Some(xs[k]));
    assert Present(list) == xs;
    list
  }

  /** A list without null entries is its present entries, each wrapped again. */
  lemma SomesOfPresent<T>(list: seq<Option<T>>)
    requires forall k | 0 <= k < |list| :: list[k].Some?
    ensures Somes(Present(list)) == list
  {
    var back := Somes(Present(list));
    assert forall k | 0 <= k < |list| :: back[k] == list[k] by {
      forall k | 0 <= k < |list|
        ensures back[k] == list[k]
      {
        assert Present(back)[k] == Present(list)[k];
      }
    }
  }

  /**
   * A decoded dump handed back to `buildDP25FiscalMemory` unchanged: both
   * singletons present and every list made of the records decoding returned.
   * The CPU id and the warnings are not part of what the encoder reads.
   */
  function DataOf(dump: Dump): (d: DumpData)
    ensures d.serialRecord == Some(dump.serialRecord) && d.fiscalModeStart == Some(dump.fiscalModeStart)
    ensures NoNulls(d.fmNumbers) && Present(d.fmNumbers) == dump.fmNumbers
    ensures NoNulls(d.taxNumbers) && Present(d.taxNumbers) == dump.taxNumbers
    ensures NoNulls(d.vatRateChanges) && Present(d.vatRateChanges) == dump.vatRateChanges
    ensures NoNulls(d.ramResets) && Present(d.ramResets) == dump.ramResets
    ensures NoNulls(d.zReports) && Present(d.zReports) == dump.zReports
    ensures NoNulls(d.ejOpen) && Present(d.ejOpen) == dump.ejOpen
    ensures NoNulls(d.ejClose) && Present(d.ejClose) == dump.ejClose
  {
    DumpData(Some(dump.serialRecord), Some(dump.fiscalModeStart),
             Somes(dump.fmNumbers), Somes(dump.taxNumbers), Somes(dump.vatRateChanges), Somes(dump.ramResets),
             Somes(dump.zReports), Somes(dump.ejOpen), Somes(dump.ejClose))
  }

  /**
   * The data of the dump expected back for `d` is `d` itself, except that
   * each Z report is replaced by what it reads back as.
   */
  lemma DataOfReadBack(d: DumpData, warnings: seq<Warning>)
    requires DataWritable(d) && DataReady(d)
    ensures var e := DataOf(ReadBack(d, warnings));
      && e.serialRecord == d.serialRecord && e.fiscalModeStart == d.fiscalModeStart
      && e.fmNumbers == d.fmNumbers && e.taxNumbers == d.taxNumbers
      && e.vatRateChanges == d.vatRateChanges && e.ramResets == d.ramResets
      && e.ejOpen == d.ejOpen && e.ejClose == d.ejClose
      && |e.zReports| == |d.zReports|
      && forall k | 0 <= k < |d.zReports| :: e.zReports[k] == Some(ZReadBack(d, d.zReports[k].value))
  {
    SomesOfPresent(d.fmNumbers);
    SomesOfPresent(d.taxNumbers);
    SomesOfPresent(d.vatRateChanges);
    SomesOfPresent(d.ramResets);
    SomesOfPresent(d.ejOpen);
    SomesOfPresent(d.ejClose);
  }

  /**
   * Counting a report again against the same change lists changes nothing,
   * and the stored checksum plays no part in the count.
   */
  lemma CountedAgain(d: DumpData, z: ZReport, c: Option<int>)
    ensures Counted(d, Counted(d, z).(checkSum := c)) == Counted(d, z).(checkSum := c)
  {
  }

  /** `writeZReport` computes its own checksum: the one a report carries is never written. */
  lemma ZSlotIgnoresCheckSum(z: ZReport, c: Option<int>)
    requires ZWritable(z)
    ensures ZWritable(z.(checkSum := c)) && ZSlot(Some(z.(checkSum := c))) == ZSlot(Some(z))
  {
  }

  /** Both dumps count against the same change lists and agree on report `k` apart from its stored checksum. */
  ghost predicate SameZCounting(d: DumpData, e: DumpData)
  {
    && Ready(d.zReports, Z_REPORT_COUNT, ZCanonical)
    && e.fmNumbers == d.fmNumbers && e.taxNumbers == d.taxNumbers
    && e.vatRateChanges == d.vatRateChanges && e.ramResets == d.ramResets
    && |e.zReports| == |d.zReports|
    && forall k | 0 <= k < |d.zReports| ::
      e.zReports[k].Some? && e.zReports[k].value.(checkSum := None) == Counted(d, d.zReports[k].value).(checkSum := None)
  }

  /** Report `k` of such a dump is written exactly as report `k` of the other. */
  lemma ZEntryAlike(d: DumpData, e: DumpData, k: nat)
    requires ImagesFit(ZToWrite(d), Z_REPORT_COUNT, Z_REPORT_SIZE, ZSlot) && SameZCounting(d, e)
    requires k < |d.zReports|
    ensures ZToWrite(e)[k].Some? && ZWritable(ZToWrite(e)[k].value)
    ensures ZSlot(ZToWrite(e)[k]) == ZSlot(ZToWrite(d)[k])
  {
    EntryFits(ZToWrite(d), Z_REPORT_COUNT, Z_REPORT_SIZE, ZSlot, k);
    var z := d.zReports[k].value;
    var c := e.zReports[k].value.checkSum;
    assert e.zReports[k].value == Counted(d, z).(checkSum := c) by {
      assert e.zReports[k].value == e.zReports[k].value.(checkSum := None).(checkSum := c);
    }
    CountedAgain(d, z, c);
    assert Counted(e, e.zReports[k].value) == Counted(d, e.zReports[k].value);
    ZSlotIgnoresCheckSum(Counted(d, z), c);
  }

  /** So the two dumps write the same Z region. */
  lemma ZRegionsAlike(d: DumpData, e: DumpData)
    requires ImagesFit(ZToWrite(d), Z_REPORT_COUNT, Z_REPORT_SIZE, ZSlot) && SameZCounting(d, e)
    ensures ImagesFit(ZToWrite(e), Z_REPORT_COUNT, Z_REPORT_SIZE, ZSlot)
    ensures ZRegion(ZToWrite(e)) == ZRegion(ZToWrite(d))
  {
    var n := Z_REPORT_COUNT;
    forall k | 0 <= k < |d.zReports|
      ensures ZToWrite(e)[k].Some? && ZWritable(ZToWrite(e)[k].value)
      ensures ZSlot(ZToWrite(e)[k]) == ZSlot(ZToWrite(d)[k])
    {
      ZEntryAlike(d, e, k);
    }
    assert ImagesFit(ZToWrite(e), n, Z_REPORT_SIZE, ZSlot);
    forall k | 0 <= k < n
      ensures ZSlot.requires(Entry(ZToWrite(e), k)) && ZSlot.requires(Entry(ZToWrite(d), k))
      ensures ZSlot(Entry(ZToWrite(e), k)) == ZSlot(Entry(ZToWrite(d), k))
    {
      if k < |d.zReports| {
        EntryFits(ZToWrite(d), n, Z_REPORT_SIZE, ZSlot, k);
      }
    }
    ImagesAlike(ZToWrite(e), ZToWrite(d), n, Z_REPORT_SIZE, ZSlot);
  }

  /**
   * Decoding the image of data in the form decoding produces, then encoding
   * what came back unchanged, writes the same image again: the Z counters
   * recomputed the second time are the ones written the first time, and the
   * checksums read back are never written.
   */
  lemma ReencodeStable(d: DumpData, now: int)
    requires DataWritable(d) && DataReady(d)
    ensures DataWritable(DataOf(DumpOf(EncodeImage(d), now))) && DataReady(DataOf(DumpOf(EncodeImage(d), now)))
    ensures EncodeImage(DataOf(DumpOf(EncodeImage(d), now))) == EncodeImage(d)
  {
    EncodeThenDecode(d, now);
    var w := DumpOf(EncodeImage(d), now).warnings;
    var e := DataOf(ReadBack(d, w));
    DataOfReadBack(d, w);
    assert SameZCounting(d, e);
    ZRegionsAlike(d, e);
    assert Ready(e.zReports, Z_REPORT_COUNT, ZCanonical) by {
      forall k | 0 <= k < |d.zReports|
        ensures ZCanonical(e.zReports[k].value)
      {
        EntryFits(ZToWrite(d), Z_REPORT_COUNT, Z_REPORT_SIZE, ZSlot, k);
      }
    }
    assert RegionsOf(e) == RegionsOf(d);
  }
}
