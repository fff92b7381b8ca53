/**
 * The daily Z report record (432 bytes): Z number, date, the four change
 * counters, two reserved bytes, the last document numbers and receipt
 * counts, 48 u64 accumulators (the ObigVat, SumaVat and ZbirVat totals of
 * the eight VAT groups, sales then storno), fifteen reserved bytes and the
 * checksum.
 */
module ZReports {
  import opened Wrappers
  import opened Bytes
  import opened Checksum
  import opened FiscalDate
  import opened Records

  const Z_REPORT_SIZE := 432
  /** Number of u64 accumulators (ObigVatA .. ZbirVatHStorno). */
  const TOTALS_COUNT := 48

  /**
   * A Z report. `totals` holds the accumulators in the order of the record;
   * the source keeps them as decimal strings of BigInts. `checkSum` is the
   * stored last byte (absent on a report made in the editor), reported by the
   * parser and ignored by the writer.
   */
  datatype ZReport = ZReport(
    zNumber: int,
    dateTime: Option<Stamp>,
    fmNumChanges: int,
    taxNumChanges: int,
    vatChanges: int,
    ramResetsCount: int,
    lastDocument: int,
    lastFiscal: int,
    lastStorno: int,
    fiscalCount: int,
    stornoCount: int,
    totals: seq<int>,
    checkSum: Option<int>)

  /** The fixed-width fields fit (Node's `writeUInt*` throws otherwise). */
  predicate ZFieldsFit(z: ZReport)
  {
    && 0 <= z.zNumber < 0x1_0000
    && 0 <= z.fmNumChanges < 256 && 0 <= z.taxNumChanges < 256
    && 0 <= z.vatChanges < 256 && 0 <= z.ramResetsCount < 256
    && 0 <= z.lastDocument < 0x1_0000_0000 && 0 <= z.lastFiscal < 0x1_0000_0000
    && 0 <= z.lastStorno < 0x1_0000_0000
    && 0 <= z.fiscalCount < 0x1_0000 && 0 <= z.stornoCount < 0x1_0000
  }

  predicate ZWritable(z: ZReport)
  {
    ZFieldsFit(z) && |z.totals| == TOTALS_COUNT && StampWritable(z.dateTime)
  }

  /** Bytes 0..15: Z number, date, the four counters, two reserved zeros. */
  function ZCounters(date: seq<byte>, z: ZReport): (head: seq<byte>)
    requires |date| == 8 && ZWritable(z)
    ensures |head| == 16
    ensures head[..2] == LeBytes(z.zNumber, 2) && head[2..10] == DateField(date, z.dateTime)
    ensures head[10] == z.fmNumChanges && head[11] == z.taxNumChanges
    ensures head[12] == z.vatChanges && head[13] == z.ramResetsCount
    ensures head[14..] == Zeros(2)
  {
    LeBytes(z.zNumber, 2) + DateField(date, z.dateTime)
      + LeBytes(z.fmNumChanges, 1) + LeBytes(z.taxNumChanges, 1)
      + LeBytes(z.vatChanges, 1) + LeBytes(z.ramResetsCount, 1) + Zeros(2)
  }

  /** Bytes 16..31: last document, last fiscal and last storno numbers, receipt counts. */
  function ZDocuments(z: ZReport): (docs: seq<byte>)
    requires ZWritable(z)
    ensures |docs| == 16
    ensures docs[..4] == LeBytes(z.lastDocument, 4) && docs[4..8] == LeBytes(z.lastFiscal, 4)
    ensures docs[8..12] == LeBytes(z.lastStorno, 4)
    ensures docs[12..14] == LeBytes(z.fiscalCount, 2) && docs[14..] == LeBytes(z.stornoCount, 2)
  {
    LeBytes(z.lastDocument, 4) + LeBytes(z.lastFiscal, 4) + LeBytes(z.lastStorno, 4)
      + LeBytes(z.fiscalCount, 2) + LeBytes(z.stornoCount, 2)
  }

  function ZBody(base: seq<byte>, z: ZReport): (body: seq<byte>)
    requires |base| == Z_REPORT_SIZE && ZWritable(z)
    ensures |body| == Z_REPORT_SIZE - 1
    ensures body[..16] == ZCounters(base[2..10], z) && body[16..32] == ZDocuments(z)
    ensures body[32..416] == U64Words(z.totals) && body[416..] == Zeros(15)
  {
    ZCounters(base[2..10], z) + ZDocuments(z) + U64Words(z.totals) + Zeros(15)
  }

  /** The 432 bytes `writeZReport` leaves where `base` was. */
  function ZImage(base: seq<byte>, v: Option<ZReport>): (r: seq<byte>)
    requires |base| == Z_REPORT_SIZE && (v.Some? ==> ZWritable(v.value))
    ensures |r| == Z_REPORT_SIZE
    ensures v.None? ==> r == base
    ensures v.Some? ==> !IsErased(r) && ChecksumOk(r)
  {
    if v.None? then base else
      SealedRecord(ZBody(base, v.value), base);
      Sealed(ZBody(base, v.value), base)
  }

  /** What `parseZReport` returns for the record's bytes. */
  function ZReportOf(r: seq<byte>): (z: ZReport)
    requires |r| == Z_REPORT_SIZE
    ensures |z.totals| == TOTALS_COUNT && forall j | 0 <= j < TOTALS_COUNT :: 0 <= z.totals[j] < TWO_64
    ensures z.checkSum == Some(r[431])
  {
    var totals := WordsOf(r[32..416], 8, TOTALS_COUNT);
    assert forall j | 0 <= j < TOTALS_COUNT :: totals[j] < TWO_64 by {
      WordsBelow(r[32..416], 8, TOTALS_COUNT);
      Pow256Values();
    }
    ZReport(
      LeValue(r[..2]), ParseDateTime(r[2..10]),
      r[10], r[11], r[12], r[13],
      LeValue(r[16..20]), LeValue(r[20..24]), LeValue(r[24..28]),
      LeValue(r[28..30]), LeValue(r[30..32]),
      totals, Some(r[431]))
  }

  /** The field spans of a record at `off`, seen from the whole buffer. */
  lemma ZSlices(b: seq<byte>, off: nat)
    requires off + Z_REPORT_SIZE <= |b|
    ensures var r := b[off..off + Z_REPORT_SIZE];
      && r[..2] == b[off..off + 2] && r[2..10] == b[off + 2..off + 10]
      && r[16..20] == b[off + 16..off + 20] && r[20..24] == b[off + 20..off + 24]
      && r[24..28] == b[off + 24..off + 28] && r[28..30] == b[off + 28..off + 30]
      && r[30..32] == b[off + 30..off + 32] && r[32..416] == b[off + 32..off + 416]
  {
    var r := b[off..off + Z_REPORT_SIZE];
    assert r == b[off..][..Z_REPORT_SIZE];
    SubSlice(b, off, 0, 2);
    SubSlice(b, off, 2, 10);
    SubSlice(b, off, 16, 20);
    SubSlice(b, off, 20, 24);
    SubSlice(b, off, 24, 28);
    SubSlice(b, off, 28, 30);
    SubSlice(b, off, 30, 32);
    SubSlice(b, off, 32, 416);
  }

  /**
   * `parseZReport`: walks a cursor over the record, reading each field in
   * turn and then the 48 accumulators.
   */
  method ParseZReport(buf: array<byte>, off: nat) returns (z: ZReport)
    requires off + Z_REPORT_SIZE <= buf.Length
    ensures z == ZReportOf(buf[off..off + Z_REPORT_SIZE])
  {
    ghost var r := buf[off..off + Z_REPORT_SIZE];
    ZSlices(buf[..], off);
    var cursor := off;
    var zNumber := GetU16(buf, cursor);
    cursor := cursor + 2;
    var dateTime := ParseDateTime(buf[cursor..cursor + 8]);
    cursor := cursor + 8;
    var fmNumChanges := buf[cursor];
    var taxNumChanges := buf[cursor + 1];
    var vatChanges := buf[cursor + 2];
    var ramResetsCount := buf[cursor + 3];
    cursor := cursor + 4;
    cursor := cursor + 2; // Filler[2]
    var lastDocument := GetU32(buf, cursor);
    cursor := cursor + 4;
    var lastFiscal := GetU32(buf, cursor);
    cursor := cursor + 4;
    var lastStorno := GetU32(buf, cursor);
    cursor := cursor + 4;
    var fiscalCount := GetU16(buf, cursor);
    cursor := cursor + 2;
    var stornoCount := GetU16(buf, cursor);
    cursor := cursor + 2;
    var totals := GetU64s(buf, cursor, TOTALS_COUNT);
    cursor := cursor + 8 * TOTALS_COUNT;
    cursor := cursor + 15; // Filler2[15]
    var checkSum := Some(buf[cursor]);
    z := ZReport(zNumber, dateTime, fmNumChanges, taxNumChanges, vatChanges, ramResetsCount,
      lastDocument, lastFiscal, lastStorno, fiscalCount, stornoCount, totals, checkSum);
  }

  predicate ZCanonical(z: ZReport)
  {
    && ZFieldsFit(z) && |z.totals| == TOTALS_COUNT
    && (forall j | 0 <= j < TOTALS_COUNT :: 0 <= z.totals[j] < TWO_64)
    && CanonicalStamp(z.dateTime)
  }

  /**
   * A report as decoding produces it, written into erased flash, parses back
   * unchanged except for the checksum byte, which is now the record's own.
   */
  lemma ZRoundTrip(z: ZReport)
    requires ZCanonical(z)
    ensures ZWritable(z)
    ensures var r := ZImage(Erased(Z_REPORT_SIZE), Some(z));
      ZReportOf(r) == z.(checkSum := Some(r[431])) && r[431] == ChecksumOf(r)
  {
    DateRoundTrip(z.dateTime);
    var base := Erased(Z_REPORT_SIZE);
    var r := ZImage(base, Some(z));
    var body := ZBody(base, z);
    assert r[..431] == body;
    assert base[2..10] == Erased(8);
    ParseZBody(z, r);
    SealVerifies(body + [base[431]]);
  }

  /** The parser reads back the fields of bytes 0..31. */
  lemma ParseZHead(z: ZReport, r: seq<byte>)
    requires ZCanonical(z) && |r| == Z_REPORT_SIZE
    requires r[..16] == ZCounters(Erased(8), z) && r[16..32] == ZDocuments(z)
    ensures LeValue(r[..2]) == z.zNumber && ParseDateTime(r[2..10]) == z.dateTime
    ensures r[10] == z.fmNumChanges && r[11] == z.taxNumChanges
    ensures r[12] == z.vatChanges && r[13] == z.ramResetsCount
    ensures LeValue(r[16..20]) == z.lastDocument && LeValue(r[20..24]) == z.lastFiscal
    ensures LeValue(r[24..28]) == z.lastStorno
    ensures LeValue(r[28..30]) == z.fiscalCount && LeValue(r[30..32]) == z.stornoCount
  {
    DateRoundTrip(z.dateTime);
    var head := r[..16];
    var docs := r[16..32];
    assert r[..2] == head[..2] && r[2..10] == head[2..10];
    assert r[10] == head[10] && r[11] == head[11] && r[12] == head[12] && r[13] == head[13];
    LeRoundTrip(z.zNumber, 2);
    ParseZDocuments(z, r[16..32]);
    SliceOfSlice(r, 16, 32, 0, 4);
    SliceOfSlice(r, 16, 32, 4, 8);
    SliceOfSlice(r, 16, 32, 8, 12);
    SliceOfSlice(r, 16, 32, 12, 14);
    SliceOfSlice(r, 16, 32, 14, 16);
    assert docs[14..] == docs[14..16];
  }

  lemma ParseZDocuments(z: ZReport, docs: seq<byte>)
    requires ZWritable(z) && docs == ZDocuments(z)
    ensures LeValue(docs[..4]) == z.lastDocument && LeValue(docs[4..8]) == z.lastFiscal
    ensures LeValue(docs[8..12]) == z.lastStorno
    ensures LeValue(docs[12..14]) == z.fiscalCount && LeValue(docs[14..]) == z.stornoCount
  {
    Pow256Values();
    LeRoundTrip(z.lastDocument, 4);
    LeRoundTrip(z.lastFiscal, 4);
    LeRoundTrip(z.lastStorno, 4);
    LeRoundTrip(z.fiscalCount, 2);
    LeRoundTrip(z.stornoCount, 2);
  }

  /** The parser reads back the 48 accumulators, each reduced to 64 bits. */
  lemma ParseZTotals(totals: seq<int>)
    requires forall j | 0 <= j < |totals| :: 0 <= totals[j] < TWO_64
    ensures WordsOf(U64Words(totals), 8, |totals|) == totals
  {
    var m := Mod64(totals);
    Mod64Small(totals);
    U64WordsMod(totals);
    Pow256Values();
    assert forall j | 0 <= j < |m| :: m[j] < Pow256(8);
    WordsRoundTrip(m, 8);
  }

  /** The parser reads back every field the writer laid out before the checksum. */
  lemma ParseZBody(z: ZReport, r: seq<byte>)
    requires ZCanonical(z) && |r| == Z_REPORT_SIZE
    requires r[..431] == ZBody(Erased(Z_REPORT_SIZE), z)
    ensures ZReportOf(r) == z.(checkSum := Some(r[431]))
  {
    var body := r[..431];
    assert Erased(Z_REPORT_SIZE)[2..10] == Erased(8);
    assert r[..16] == body[..16] && r[16..32] == body[16..32];
    ParseZHead(z, r);
    assert r[32..416] == body[32..416];
    ParseZTotals(z.totals);
  }

  /** Bytes 0..15 of `writeZReport`. */
  method WriteZCounters(buf: array<byte>, off: nat, z: ZReport)
    requires off + 16 <= buf.Length && ZWritable(z)
    modifies buf
    ensures buf[..] == Splice(old(buf[..]), off, ZCounters(old(buf[off + 2..off + 10]), z))
  {
    ghost var b0 := buf[..];
    ghost var date := b0[off + 2..off + 10];
    var cursor := off;
    PutU16(buf, cursor, z.zNumber);
    ghost var number := LeBytes(z.zNumber, 2);
    ghost var s1 := buf[..];
    cursor := cursor + 2;
    WriteDateTime(buf, cursor, z.dateTime);
    ghost var stamp := DateField(s1[cursor..cursor + 8], z.dateTime);
    SpliceStep(s1, b0, off, number, cursor, stamp);
    ghost var done := number + stamp;
    ghost var s := buf[..];
    cursor := cursor + 8;
    PutU8(buf, cursor, z.fmNumChanges);
    SpliceStep(s, b0, off, done, cursor, LeBytes(z.fmNumChanges, 1));
    done, s := done + LeBytes(z.fmNumChanges, 1), buf[..];
    PutU8(buf, cursor + 1, z.taxNumChanges);
    SpliceStep(s, b0, off, done, cursor + 1, LeBytes(z.taxNumChanges, 1));
    done, s := done + LeBytes(z.taxNumChanges, 1), buf[..];
    PutU8(buf, cursor + 2, z.vatChanges);
    SpliceStep(s, b0, off, done, cursor + 2, LeBytes(z.vatChanges, 1));
    done, s := done + LeBytes(z.vatChanges, 1), buf[..];
    PutU8(buf, cursor + 3, z.ramResetsCount);
    SpliceStep(s, b0, off, done, cursor + 3, LeBytes(z.ramResetsCount, 1));
    done, s := done + LeBytes(z.ramResetsCount, 1), buf[..];
    cursor := cursor + 4;
    Fill(buf, cursor, cursor + 2, 0); // Filler[2]
    SpliceStep(s, b0, off, done, cursor, Repeat(0, cursor + 2 - cursor));
    done := done + Repeat(0, cursor + 2 - cursor);
    assert done == ZCounters(date, z) by {
      SpliceBeyond(b0, off, number, off + 2, off + 10);
    }
  }

  /** Bytes 16..31 of `writeZReport`. */
  method WriteZDocuments(buf: array<byte>, off: nat, z: ZReport)
    requires off + 16 <= buf.Length && ZWritable(z)
    modifies buf
    ensures buf[..] == Splice(old(buf[..]), off, ZDocuments(z))
  {
    ghost var b0 := buf[..];
    var cursor := off;
    PutU32(buf, cursor, z.lastDocument);
    ghost var done := LeBytes(z.lastDocument, 4);
    ghost var s := buf[..];
    cursor := cursor + 4;
    PutU32(buf, cursor, z.lastFiscal);
    SpliceStep(s, b0, off, done, cursor, LeBytes(z.lastFiscal, 4));
    done, s := done + LeBytes(z.lastFiscal, 4), buf[..];
    cursor := cursor + 4;
    PutU32(buf, cursor, z.lastStorno);
    SpliceStep(s, b0, off, done, cursor, LeBytes(z.lastStorno, 4));
    done, s := done + LeBytes(z.lastStorno, 4), buf[..];
    cursor := cursor + 4;
    PutU16(buf, cursor, z.fiscalCount);
    SpliceStep(s, b0, off, done, cursor, LeBytes(z.fiscalCount, 2));
    done, s := done + LeBytes(z.fiscalCount, 2), buf[..];
    cursor := cursor + 2;
    PutU16(buf, cursor, z.stornoCount);
    SpliceStep(s, b0, off, done, cursor, LeBytes(z.stornoCount, 2));
    done := done + LeBytes(z.stornoCount, 2);
  }

  /** `writeZReport`: nothing for a missing report; the stored checksum field is not written. */
  method WriteZReport(buf: array<byte>, off: nat, v: Option<ZReport>)
    requires off + Z_REPORT_SIZE <= buf.Length && (v.Some? ==> ZWritable(v.value))
    modifies buf
    ensures buf[..] == Splice(old(buf[..]), off, ZImage(old(buf[off..off + Z_REPORT_SIZE]), v))
  {
    ghost var b0 := buf[..];
    ghost var base := b0[off..off + Z_REPORT_SIZE];
    if v.None? {
      SpliceSame(b0, off, Z_REPORT_SIZE);
      return;
    }
    var z := v.value;
    WriteZCounters(buf, off, z);
    ghost var done := ZCounters(b0[off + 2..off + 10], z);
    ghost var s := buf[..];
    WriteZDocuments(buf, off + 16, z);
    SpliceStep(s, b0, off, done, off + 16, ZDocuments(z));
    done, s := done + ZDocuments(z), buf[..];
    PutU64s(buf, off + 32, z.totals);
    SpliceStep(s, b0, off, done, off + 32, U64Words(z.totals));
    done, s := done + U64Words(z.totals), buf[..];
    Fill(buf, off + 416, off + 431, 0); // Filler2[15]
    SpliceStep(s, b0, off, done, off + 416, Repeat(0, off + 431 - (off + 416)));
    done := done + Repeat(0, off + 431 - (off + 416));
    assert done == ZBody(base, z) by {
      SliceOfSlice(b0, off, off + Z_REPORT_SIZE, 2, 10);
    }
    SealFields(buf, off, Z_REPORT_SIZE, b0, done);
    assert ZImage(base, v) == Sealed(done, base);
  }
}
