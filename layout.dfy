/**
 * The 2 MiB fiscal-memory image: twelve consecutive regions (test space,
 * serial record, fiscal-mode start, six record lists, padding, CPU id), the
 * data `buildDP25FiscalMemory` is given, and the image it builds from them.
 */
module Layout {
  import opened Wrappers
  import opened Bytes
  import opened FiscalDate
  import opened Records
  import opened VatRates
  import opened ZReports
  import opened DateResolver
  import opened Slots

  const FILE_SIZE: nat := 0x200000
  const TEST_SPACE_SIZE: nat := 24 * 16
  const FM_NUMBER_COUNT: nat := 8
  const TAX_ID_COUNT: nat := 8
  const VAT_RATE_COUNT: nat := 32
  const RAM_RESET_COUNT: nat := 100
  const Z_REPORT_COUNT: nat := 4500
  const EJ_RECORD_COUNT: nat := 20
  const NOT_USED_SIZE: nat := 148168
  const CPU_ID_SIZE: nat := 16

  // Where each region starts: the running `offset` of the decoder and encoder.
  const SERIAL_OFFSET: nat := 384
  const FMS_OFFSET: nat := 408
  const FM_OFFSET: nat := 424
  const TAX_OFFSET: nat := 616
  const VAT_OFFSET: nat := 872
  const RAM_OFFSET: nat := 2408
  const Z_OFFSET: nat := 4008
  const EJ_OPEN_OFFSET: nat := 1_948_008
  const EJ_CLOSE_OFFSET: nat := 1_948_488
  const NOT_USED_OFFSET: nat := 1_948_968
  const CPU_ID_OFFSET: nat := 0x1F_FFF0

  /**
   * Each region starts where the one before it ends, and the regions tile
   * the file exactly: the CPU id ends at byte 0x200000.
   */
  lemma LayoutFillsFile()
    ensures SERIAL_OFFSET == TEST_SPACE_SIZE
    ensures FMS_OFFSET == SERIAL_OFFSET + SERIAL_RECORD_SIZE
    ensures FM_OFFSET == FMS_OFFSET + FISCAL_MODE_START_SIZE
    ensures TAX_OFFSET == FM_OFFSET + FM_NUMBER_RECORD_SIZE * FM_NUMBER_COUNT
    ensures VAT_OFFSET == TAX_OFFSET + TAX_ID_RECORD_SIZE * TAX_ID_COUNT
    ensures RAM_OFFSET == VAT_OFFSET + VAT_RATE_RECORD_SIZE * VAT_RATE_COUNT
    ensures Z_OFFSET == RAM_OFFSET + RAM_RESET_RECORD_SIZE * RAM_RESET_COUNT
    ensures EJ_OPEN_OFFSET == Z_OFFSET + Z_REPORT_SIZE * Z_REPORT_COUNT
    ensures EJ_CLOSE_OFFSET == EJ_OPEN_OFFSET + EJ_RECORD_SIZE * EJ_RECORD_COUNT
    ensures NOT_USED_OFFSET == EJ_CLOSE_OFFSET + EJ_RECORD_SIZE * EJ_RECORD_COUNT
    ensures CPU_ID_OFFSET == NOT_USED_OFFSET + NOT_USED_SIZE
    ensures CPU_ID_OFFSET + CPU_ID_SIZE == FILE_SIZE
  {
  }

  /**
   * What `buildDP25FiscalMemory` reads from its argument: the two singletons
   * and the seven lists, any of whose entries may be null. A missing list is
   * the empty list.
   */
  datatype DumpData = DumpData(
    serialRecord: Option<SerialRecord>,
    fiscalModeStart: Option<FiscalModeStart>,
    fmNumbers: seq<Option<FMNumberRecord>>,
    taxNumbers: seq<Option<TaxIdRecord>>,
    vatRateChanges: seq<Option<VatRateChange>>,
    ramResets: seq<Option<RamResetRecord>>,
    zReports: seq<Option<ZReport>>,
    ejOpen: seq<Option<EJOpenRecord>>,
    ejClose: seq<Option<EJCloseRecord>>)

  // The instant of each record kind (`rec?.dateTime?.iso`, `rec?.DateTime?.iso` for Z reports).
  function SerialDate(v: SerialRecord): Option<int> { Instant(v.dateTime) }
  function FiscalModeStartDate(v: FiscalModeStart): Option<int> { Instant(v.dateTime) }
  function FMNumberDate(v: FMNumberRecord): Option<int> { Instant(v.dateTime) }
  function TaxIdDate(v: TaxIdRecord): Option<int> { Instant(v.dateTime) }
  function VatDate(v: VatRateChange): Option<int> { Instant(v.dateTime) }
  function RamResetDate(v: RamResetRecord): Option<int> { Instant(v.dateTime) }
  function ZDate(v: ZReport): Option<int> { Instant(v.dateTime) }
  function EJOpenDate(v: EJOpenRecord): Option<int> { Instant(v.dateTime) }
  function EJCloseDate(v: EJCloseRecord): Option<int> { Instant(v.dateTime) }

  /** The instants `createDateResolver` reads from a list; a null entry has none. */
  function TimesOf<T>(list: seq<Option<T>>, date: T -> Option<int>): (times: seq<Option<int>>)
    ensures |times| == |list|
    ensures forall j | 0 <= j < |list| :: times[j] == if list[j].Some? then date(list[j].value) else None
  {
    seq(|list|, j requires 0 <= j < |list| => if list[j].Some? then date(list[j].value) else None)
  }

  /**
   * The report `writeZReport` receives: the given one with its four change
   * counters replaced by the one-based resolvers of the four lists, applied
   * to the report's own instant.
   */
  function Counted(d: DumpData, z: ZReport): (c: ZReport)
    ensures c == z.(fmNumChanges := c.fmNumChanges, taxNumChanges := c.taxNumChanges,
                    vatChanges := c.vatChanges, ramResetsCount := c.ramResetsCount)
    ensures c.fmNumChanges == Resolve(TimesOf(d.fmNumbers, FMNumberDate), ZDate(z), true)
    ensures c.taxNumChanges == Resolve(TimesOf(d.taxNumbers, TaxIdDate), ZDate(z), true)
    ensures c.vatChanges == Resolve(TimesOf(d.vatRateChanges, VatDate), ZDate(z), true)
    ensures c.ramResetsCount == Resolve(TimesOf(d.ramResets, RamResetDate), ZDate(z), true)
  {
    z.(fmNumChanges := Resolve(TimesOf(d.fmNumbers, FMNumberDate), ZDate(z), true),
       taxNumChanges := Resolve(TimesOf(d.taxNumbers, TaxIdDate), ZDate(z), true),
       vatChanges := Resolve(TimesOf(d.vatRateChanges, VatDate), ZDate(z), true),
       ramResetsCount := Resolve(TimesOf(d.ramResets, RamResetDate), ZDate(z), true))
  }

  /** The Z list as written: null entries stay null, the others are counted. */
  function ZToWrite(d: DumpData): (zs: seq<Option<ZReport>>)
    ensures |zs| == |d.zReports|
    ensures forall j | 0 <= j < |zs| ::
      zs[j] == if d.zReports[j].Some? then Some(Counted(d, d.zReports[j].value)) else None
  {
    seq(|d.zReports|, j requires 0 <= j < |d.zReports| =>
      if d.zReports[j].Some? then Some(Counted(d, d.zReports[j].value)) else None)
  }

  // Each writer applied to an erased slot.
  function SerialSlot(v: Option<SerialRecord>): (r: seq<byte>)
    requires v.Some? ==> StampWritable(v.value.dateTime)
    ensures |r| == SERIAL_RECORD_SIZE
  { SerialImage(Erased(SERIAL_RECORD_SIZE), v) }

  function FiscalModeStartSlot(v: Option<FiscalModeStart>): (r: seq<byte>)
    requires v.Some? ==> StampWritable(v.value.dateTime)
    ensures |r| == FISCAL_MODE_START_SIZE
  { FiscalModeStartImage(Erased(FISCAL_MODE_START_SIZE), v) }

  function FMNumberSlot(v: Option<FMNumberRecord>): (r: seq<byte>)
    requires v.Some? ==> StampWritable(v.value.dateTime)
    ensures |r| == FM_NUMBER_RECORD_SIZE
  { FMNumberImage(Erased(FM_NUMBER_RECORD_SIZE), v) }

  function TaxIdSlot(v: Option<TaxIdRecord>): (r: seq<byte>)
    requires v.Some? ==> TaxIdWritable(v.value)
    ensures |r| == TAX_ID_RECORD_SIZE
  { TaxIdImage(Erased(TAX_ID_RECORD_SIZE), v) }

  function VatSlot(v: Option<VatRateChange>): (r: seq<byte>)
    requires v.Some? ==> VatWritable(v.value)
    ensures |r| == VAT_RATE_RECORD_SIZE
  { VatImage(Erased(VAT_RATE_RECORD_SIZE), v) }

  function RamResetSlot(v: Option<RamResetRecord>): (r: seq<byte>)
    requires v.Some? ==> RamResetWritable(v.value)
    ensures |r| == RAM_RESET_RECORD_SIZE
  { RamResetImage(Erased(RAM_RESET_RECORD_SIZE), v) }

  function ZSlot(v: Option<ZReport>): (r: seq<byte>)
    requires v.Some? ==> ZWritable(v.value)
    ensures |r| == Z_REPORT_SIZE
  { ZImage(Erased(Z_REPORT_SIZE), v) }

  function EJOpenSlot(v: Option<EJOpenRecord>): (r: seq<byte>)
    requires v.Some? ==> EJOpenWritable(v.value)
    ensures |r| == EJ_RECORD_SIZE
  { EJOpenImage(Erased(EJ_RECORD_SIZE), v) }

  function EJCloseSlot(v: Option<EJCloseRecord>): (r: seq<byte>)
    requires v.Some? ==> EJCloseWritable(v.value)
    ensures |r| == EJ_RECORD_SIZE
  { EJCloseImage(Erased(EJ_RECORD_SIZE), v) }

  /**
   * Every value the encoder writes fits the width it is written in (Node's
   * `writeUInt*` throws otherwise): each singleton, and each list entry that
   * has a slot, satisfies its writer's precondition. Entries past a
   * region's capacity are never written.
   */
  ghost predicate DataWritable(d: DumpData)
  {
    && (d.serialRecord.Some? ==> StampWritable(d.serialRecord.value.dateTime))
    && (d.fiscalModeStart.Some? ==> StampWritable(d.fiscalModeStart.value.dateTime))
    && ImagesFit(d.fmNumbers, FM_NUMBER_COUNT, FM_NUMBER_RECORD_SIZE, FMNumberSlot)
    && ImagesFit(d.taxNumbers, TAX_ID_COUNT, TAX_ID_RECORD_SIZE, TaxIdSlot)
    && ImagesFit(d.vatRateChanges, VAT_RATE_COUNT, VAT_RATE_RECORD_SIZE, VatSlot)
    && ImagesFit(d.ramResets, RAM_RESET_COUNT, RAM_RESET_RECORD_SIZE, RamResetSlot)
    && ImagesFit(ZToWrite(d), Z_REPORT_COUNT, Z_REPORT_SIZE, ZSlot)
    && ImagesFit(d.ejOpen, EJ_RECORD_COUNT, EJ_RECORD_SIZE, EJOpenSlot)
    && ImagesFit(d.ejClose, EJ_RECORD_COUNT, EJ_RECORD_SIZE, EJCloseSlot)
  }

  /** Where each of the twelve regions starts, and the end of the file. */
  const REGION_STARTS: seq<nat> := [0, SERIAL_OFFSET, FMS_OFFSET, FM_OFFSET, TAX_OFFSET, VAT_OFFSET, RAM_OFFSET,
                                    Z_OFFSET, EJ_OPEN_OFFSET, EJ_CLOSE_OFFSET, NOT_USED_OFFSET, CPU_ID_OFFSET, FILE_SIZE]

  /** The FM number region: slot `i` holds entry `i`, erased where there is none. */
  function FMRegion(list: seq<Option<FMNumberRecord>>): (r: seq<byte>)
    requires ImagesFit(list, FM_NUMBER_COUNT, FM_NUMBER_RECORD_SIZE, FMNumberSlot)
    ensures |r| == FM_NUMBER_RECORD_SIZE * FM_NUMBER_COUNT
  {
    SpanIsProduct(FM_NUMBER_RECORD_SIZE, FM_NUMBER_COUNT);
    Images(list, FM_NUMBER_COUNT, FM_NUMBER_RECORD_SIZE, FMNumberSlot)
  }

  /** The tax number region: slot `i` holds entry `i`, erased where there is none. */
  function TaxRegion(list: seq<Option<TaxIdRecord>>): (r: seq<byte>)
    requires ImagesFit(list, TAX_ID_COUNT, TAX_ID_RECORD_SIZE, TaxIdSlot)
    ensures |r| == TAX_ID_RECORD_SIZE * TAX_ID_COUNT
  {
    SpanIsProduct(TAX_ID_RECORD_SIZE, TAX_ID_COUNT);
    Images(list, TAX_ID_COUNT, TAX_ID_RECORD_SIZE, TaxIdSlot)
  }

  /** The VAT rate region: slot `i` holds entry `i`, erased where there is none. */
  function VatRegion(list: seq<Option<VatRateChange>>): (r: seq<byte>)
    requires ImagesFit(list, VAT_RATE_COUNT, VAT_RATE_RECORD_SIZE, VatSlot)
    ensures |r| == VAT_RATE_RECORD_SIZE * VAT_RATE_COUNT
  {
    SpanIsProduct(VAT_RATE_RECORD_SIZE, VAT_RATE_COUNT);
    Images(list, VAT_RATE_COUNT, VAT_RATE_RECORD_SIZE, VatSlot)
  }

  /** The RAM reset region: slot `i` holds entry `i`, erased where there is none. */
  function RamRegion(list: seq<Option<RamResetRecord>>): (r: seq<byte>)
    requires ImagesFit(list, RAM_RESET_COUNT, RAM_RESET_RECORD_SIZE, RamResetSlot)
    ensures |r| == RAM_RESET_RECORD_SIZE * RAM_RESET_COUNT
  {
    SpanIsProduct(RAM_RESET_RECORD_SIZE, RAM_RESET_COUNT);
    Images(list, RAM_RESET_COUNT, RAM_RESET_RECORD_SIZE, RamResetSlot)
  }

  /** The Z report region: slot `i` holds entry `i`, erased where there is none. */
  function ZRegion(list: seq<Option<ZReport>>): (r: seq<byte>)
    requires ImagesFit(list, Z_REPORT_COUNT, Z_REPORT_SIZE, ZSlot)
    ensures |r| == Z_REPORT_SIZE * Z_REPORT_COUNT
  {
    SpanIsProduct(Z_REPORT_SIZE, Z_REPORT_COUNT);
    Images(list, Z_REPORT_COUNT, Z_REPORT_SIZE, ZSlot)
  }

  /** The EJ open region: slot `i` holds entry `i`, erased where there is none. */
  function EJOpenRegion(list: seq<Option<EJOpenRecord>>): (r: seq<byte>)
    requires ImagesFit(list, EJ_RECORD_COUNT, EJ_RECORD_SIZE, EJOpenSlot)
    ensures |r| == EJ_RECORD_SIZE * EJ_RECORD_COUNT
  {
    SpanIsProduct(EJ_RECORD_SIZE, EJ_RECORD_COUNT);
    Images(list, EJ_RECORD_COUNT, EJ_RECORD_SIZE, EJOpenSlot)
  }

  /** The EJ close region: slot `i` holds entry `i`, erased where there is none. */
  function EJCloseRegion(list: seq<Option<EJCloseRecord>>): (r: seq<byte>)
    requires ImagesFit(list, EJ_RECORD_COUNT, EJ_RECORD_SIZE, EJCloseSlot)
    ensures |r| == EJ_RECORD_SIZE * EJ_RECORD_COUNT
  {
    SpanIsProduct(EJ_RECORD_SIZE, EJ_RECORD_COUNT);
    Images(list, EJ_RECORD_COUNT, EJ_RECORD_SIZE, EJCloseSlot)
  }

  /** Twelve byte strings, each exactly as long as its region. */
  predicate Tiles(ps: seq<seq<byte>>)
  {
    && |ps| == 12
    && |ps[0]| == 384 && |ps[1]| == 24 && |ps[2]| == 16 && |ps[3]| == 192 && |ps[4]| == 256
    && |ps[5]| == 1536 && |ps[6]| == 1600 && |ps[7]| == 1_944_000 && |ps[8]| == 480 && |ps[9]| == 480
    && |ps[10]| == 148_168 && |ps[11]| == 16
  }

  lemma {:induction false} TiledPrefix(ps: seq<seq<byte>>, k: nat)
    requires Tiles(ps) && k <= 12
    ensures |Concat(ps[..k])| == REGION_STARTS[k]
  {
    if k == 0 {
      assert ps[..0] == [];
    } else {
      TiledPrefix(ps, k - 1);
      ConcatSnoc(ps, k - 1);
      var j := k - 1;
      assert REGION_STARTS[j] + |ps[j]| == REGION_STARTS[k] by {
        if j == 0 {} else if j == 1 {} else if j == 2 {} else if j == 3 {} else if j == 4 {} else if j == 5 {}
        else if j == 6 {} else if j == 7 {} else if j == 8 {} else if j == 9 {} else if j == 10 {} else {}
      }
    }
  }

  /** In tiling pieces, piece `k` occupies region `k` of the file. */
  lemma TiledRegion(ps: seq<seq<byte>>, k: nat)
    requires Tiles(ps) && k < 12
    ensures |Concat(ps)| == FILE_SIZE
    ensures Concat(ps)[REGION_STARTS[k]..REGION_STARTS[k + 1]] == ps[k]
  {
    TiledPrefix(ps, 12);
    assert ps[..12] == ps;
    TiledPrefix(ps, k);
    ConcatAt(ps, k);
  }

  /** The twelve regions of an image, in file order. */
  datatype Regions = Regions(
    testSpace: seq<byte>, serial: seq<byte>, fiscalModeStart: seq<byte>,
    fmNumbers: seq<byte>, taxNumbers: seq<byte>, vatRateChanges: seq<byte>, ramResets: seq<byte>,
    zReports: seq<byte>, ejOpen: seq<byte>, ejClose: seq<byte>, notUsed: seq<byte>, cpuId: seq<byte>)

  function Parts(g: Regions): (ps: seq<seq<byte>>)
    ensures |ps| == 12
  {
    [g.testSpace, g.serial, g.fiscalModeStart, g.fmNumbers, g.taxNumbers, g.vatRateChanges, g.ramResets,
     g.zReports, g.ejOpen, g.ejClose, g.notUsed, g.cpuId]
  }

  /** Every region has its size. */
  predicate RegionsFit(g: Regions)
  {
    && |g.testSpace| == TEST_SPACE_SIZE && |g.serial| == SERIAL_RECORD_SIZE
    && |g.fiscalModeStart| == FISCAL_MODE_START_SIZE
    && |g.fmNumbers| == FM_NUMBER_RECORD_SIZE * FM_NUMBER_COUNT
    && |g.taxNumbers| == TAX_ID_RECORD_SIZE * TAX_ID_COUNT
    && |g.vatRateChanges| == VAT_RATE_RECORD_SIZE * VAT_RATE_COUNT
    && |g.ramResets| == RAM_RESET_RECORD_SIZE * RAM_RESET_COUNT
    && |g.zReports| == Z_REPORT_SIZE * Z_REPORT_COUNT
    && |g.ejOpen| == EJ_RECORD_SIZE * EJ_RECORD_COUNT && |g.ejClose| == EJ_RECORD_SIZE * EJ_RECORD_COUNT
    && |g.notUsed| == NOT_USED_SIZE && |g.cpuId| == CPU_ID_SIZE
  }

  /** The regions laid out one after the other. */
  function Flat(g: Regions): (r: seq<byte>)
    requires RegionsFit(g)
    ensures |r| == FILE_SIZE
  {
    TiledRegion(Parts(g), 0);
    Concat(Parts(g))
  }

  /** Each region of the flat image sits at its offset. */
  lemma FlatRegions(g: Regions)
    requires RegionsFit(g)
    ensures Flat(g)[..SERIAL_OFFSET] == g.testSpace
    ensures Flat(g)[SERIAL_OFFSET..FMS_OFFSET] == g.serial
    ensures Flat(g)[FMS_OFFSET..FM_OFFSET] == g.fiscalModeStart
    ensures Flat(g)[FM_OFFSET..TAX_OFFSET] == g.fmNumbers
    ensures Flat(g)[TAX_OFFSET..VAT_OFFSET] == g.taxNumbers
    ensures Flat(g)[VAT_OFFSET..RAM_OFFSET] == g.vatRateChanges
    ensures Flat(g)[RAM_OFFSET..Z_OFFSET] == g.ramResets
    ensures Flat(g)[Z_OFFSET..EJ_OPEN_OFFSET] == g.zReports
    ensures Flat(g)[EJ_OPEN_OFFSET..EJ_CLOSE_OFFSET] == g.ejOpen
    ensures Flat(g)[EJ_CLOSE_OFFSET..NOT_USED_OFFSET] == g.ejClose
    ensures Flat(g)[NOT_USED_OFFSET..CPU_ID_OFFSET] == g.notUsed
    ensures Flat(g)[CPU_ID_OFFSET..FILE_SIZE] == g.cpuId
  {
    var ps := Parts(g);
    TiledRegion(ps, 0); TiledRegion(ps, 1); TiledRegion(ps, 2); TiledRegion(ps, 3);
    TiledRegion(ps, 4); TiledRegion(ps, 5); TiledRegion(ps, 6); TiledRegion(ps, 7);
    TiledRegion(ps, 8); TiledRegion(ps, 9); TiledRegion(ps, 10); TiledRegion(ps, 11);
  }

  /** What the encoder leaves in each region. */
  function RegionsOf(d: DumpData): (g: Regions)
    requires DataWritable(d)
    ensures RegionsFit(g)
  {
    Regions(
      Erased(TEST_SPACE_SIZE),
      SerialSlot(d.serialRecord),
      FiscalModeStartSlot(d.fiscalModeStart),
      FMRegion(d.fmNumbers),
      TaxRegion(d.taxNumbers),
      VatRegion(d.vatRateChanges),
      RamRegion(d.ramResets),
      ZRegion(ZToWrite(d)),
      EJOpenRegion(d.ejOpen),
      EJCloseRegion(d.ejClose),
      Erased(NOT_USED_SIZE),
      Erased(CPU_ID_SIZE))
  }

  /** The buffer `buildDP25FiscalMemory` returns: every region as the encoder leaves it. */
  function EncodeImage(d: DumpData): (r: seq<byte>)
    requires DataWritable(d)
    ensures |r| == FILE_SIZE
  {
    Flat(RegionsOf(d))
  }

  /** The image as its twelve regions, each as the encoder leaves it. */
  lemma ImagePieces(d: DumpData) returns (ps: seq<seq<byte>>)
    requires DataWritable(d)
    ensures Tiles(ps) && Concat(ps) == EncodeImage(d)
    ensures ps[0] == Erased(TEST_SPACE_SIZE)
    ensures ps[1] == SerialSlot(d.serialRecord) && ps[2] == FiscalModeStartSlot(d.fiscalModeStart)
    ensures ps[3] == FMRegion(d.fmNumbers) && ps[4] == TaxRegion(d.taxNumbers)
    ensures ps[5] == VatRegion(d.vatRateChanges) && ps[6] == RamRegion(d.ramResets)
    ensures ps[7] == ZRegion(ZToWrite(d)) && ps[8] == EJOpenRegion(d.ejOpen) && ps[9] == EJCloseRegion(d.ejClose)
    ensures ps[10] == Erased(NOT_USED_SIZE) && ps[11] == Erased(CPU_ID_SIZE)
  {
    var g := RegionsOf(d);
    PartsTile(g);
    ps := Parts(g);
  }

  /** The parts of regions that fit tile the file, and laid out they are the flat image. */
  lemma PartsTile(g: Regions)
    requires RegionsFit(g)
    ensures Tiles(Parts(g)) && Concat(Parts(g)) == Flat(g)
    ensures Parts(g)[0] == g.testSpace && Parts(g)[1] == g.serial && Parts(g)[2] == g.fiscalModeStart
    ensures Parts(g)[3] == g.fmNumbers && Parts(g)[4] == g.taxNumbers && Parts(g)[5] == g.vatRateChanges
    ensures Parts(g)[6] == g.ramResets && Parts(g)[7] == g.zReports && Parts(g)[8] == g.ejOpen
    ensures Parts(g)[9] == g.ejClose && Parts(g)[10] == g.notUsed && Parts(g)[11] == g.cpuId
  {
  }

  /**
   * The test space, the unused padding and the CPU id are never written:
   * they stay 0xFF as `Buffer.alloc(FILE_SIZE, 0xff)` left them.
   */
  lemma UnwrittenRegionsErased(d: DumpData)
    requires DataWritable(d)
    ensures EncodeImage(d)[..SERIAL_OFFSET] == Erased(TEST_SPACE_SIZE)
    ensures EncodeImage(d)[NOT_USED_OFFSET..CPU_ID_OFFSET] == Erased(NOT_USED_SIZE)
    ensures EncodeImage(d)[CPU_ID_OFFSET..FILE_SIZE] == Erased(CPU_ID_SIZE)
  {
    FlatRegions(RegionsOf(d));
  }

  /** Slot `i` of the Z region of a flat image. */
  lemma ZSlotOfFlat(g: Regions, zs: seq<Option<ZReport>>, i: nat)
    requires RegionsFit(g) && ImagesFit(zs, Z_REPORT_COUNT, Z_REPORT_SIZE, ZSlot) && i < Z_REPORT_COUNT
    requires g.zReports == Images(zs, Z_REPORT_COUNT, Z_REPORT_SIZE, ZSlot)
    ensures Z_OFFSET + Z_REPORT_SIZE * i + Z_REPORT_SIZE <= FILE_SIZE
    ensures Flat(g)[Z_OFFSET + Z_REPORT_SIZE * i..Z_OFFSET + Z_REPORT_SIZE * i + Z_REPORT_SIZE] == ZSlot(Entry(zs, i))
  {
    FlatRegions(g);
    SpanIsProduct(Z_REPORT_SIZE, Z_REPORT_COUNT);
    SpanIsProduct(Z_REPORT_SIZE, i);
    SlotOfImages(Flat(g), Z_OFFSET, zs, Z_REPORT_COUNT, Z_REPORT_SIZE, ZSlot, i);
  }

  /**
   * Z report `i` lands in slot `i` of the Z region with its four change
   * counters recomputed; a null or missing report leaves the slot erased.
   */
  lemma ZReportLandsInSlot(d: DumpData, i: nat)
    requires DataWritable(d) && i < Z_REPORT_COUNT
    ensures var o := Z_OFFSET + Z_REPORT_SIZE * i;
      EncodeImage(d)[o..o + Z_REPORT_SIZE] == ZSlot(Entry(ZToWrite(d), i))
  {
    ZSlotOfFlat(RegionsOf(d), ZToWrite(d), i);
  }
}
