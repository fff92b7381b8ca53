/**
 * VAT rate change record (48 bytes): the eight rates VatA..VatH and the
 * eight levy rates VatAzbir..VatHzbir (u16 each), the date of the change,
 * the next Z number (u16), the "VAT excluded" and decimal-point bytes,
 * three reserved bytes and the checksum.
 */
module VatRates {
  import opened Wrappers
  import opened Bytes
  import opened Checksum
  import opened FiscalDate
  import opened Records

  const VAT_RATE_RECORD_SIZE := 48

  datatype VatRateChange = VatRateChange(
    vat: seq<nat>,        // VatA .. VatH
    vatZbir: seq<nat>,    // VatAzbir .. VatHzbir
    dateTime: Option<Stamp>,
    nextZNumber: int,
    vatExcluded: int,
    decPoint: int)

  predicate U16s(s: seq<nat>)
  {
    forall j | 0 <= j < |s| :: s[j] < 0x1_0000
  }

  predicate VatWritable(v: VatRateChange)
  {
    && |v.vat| == 8 && |v.vatZbir| == 8 && U16s(v.vat) && U16s(v.vatZbir)
    && 0 <= v.nextZNumber < 0x1_0000 && 0 <= v.vatExcluded < 256 && 0 <= v.decPoint < 256
    && StampWritable(v.dateTime)
  }

  function VatBody(base: seq<byte>, v: VatRateChange): (body: seq<byte>)
    requires |base| == VAT_RATE_RECORD_SIZE && VatWritable(v)
    ensures |body| == VAT_RATE_RECORD_SIZE - 1
    ensures body[..32] == Words(v.vat + v.vatZbir, 2) && body[32..40] == DateField(base[32..40], v.dateTime)
    ensures body[40..42] == LeBytes(v.nextZNumber, 2) && body[42] == v.vatExcluded && body[43] == v.decPoint
    ensures body[44..] == Zeros(3)
  {
    Words(v.vat + v.vatZbir, 2) + DateField(base[32..40], v.dateTime)
      + LeBytes(v.nextZNumber, 2) + LeBytes(v.vatExcluded, 1) + LeBytes(v.decPoint, 1) + Zeros(3)
  }

  /** The 48 bytes `writeVatRateChange` leaves where `base` was. */
  function VatImage(base: seq<byte>, v: Option<VatRateChange>): (r: seq<byte>)
    requires |base| == VAT_RATE_RECORD_SIZE && (v.Some? ==> VatWritable(v.value))
    ensures |r| == VAT_RATE_RECORD_SIZE
    ensures v.None? ==> r == base
    ensures v.Some? ==> !IsErased(r) && ChecksumOk(r)
  {
    if v.None? then base else
      SealedRecord(VatBody(base, v.value), base);
      Sealed(VatBody(base, v.value), base)
  }

  /** `parseVatRateChange`. */
  function ParseVatRateChange(r: seq<byte>): (v: VatRateChange)
    requires |r| == VAT_RATE_RECORD_SIZE
    ensures |v.vat| == 8 && |v.vatZbir| == 8 && v.vat + v.vatZbir == WordsOf(r, 2, 16)
    ensures v.dateTime == ParseDateTime(r[32..40]) && v.nextZNumber == LeValue(r[40..42])
    ensures v.vatExcluded == r[42] && v.decPoint == r[43]
  {
    var rates := WordsOf(r, 2, 16);
    assert rates == rates[..8] + rates[8..];
    VatRateChange(rates[..8], rates[8..], ParseDateTime(r[32..40]), LeValue(r[40..42]), r[42], r[43])
  }

  predicate VatCanonical(v: VatRateChange)
  {
    && |v.vat| == 8 && |v.vatZbir| == 8 && U16s(v.vat) && U16s(v.vatZbir)
    && 0 <= v.nextZNumber < 0x1_0000 && 0 <= v.vatExcluded < 256 && 0 <= v.decPoint < 256
    && CanonicalStamp(v.dateTime)
  }

  lemma VatRoundTrip(v: VatRateChange)
    requires VatCanonical(v)
    ensures VatWritable(v)
    ensures ParseVatRateChange(VatImage(Erased(VAT_RATE_RECORD_SIZE), Some(v))) == v
  {
    var base := Erased(VAT_RATE_RECORD_SIZE);
    var r := VatImage(base, Some(v));
    assert r[..47] == VatBody(base, v);
    ParseVatBody(v, r);
  }

  /** The parser reads back every field the writer laid out before the checksum. */
  lemma ParseVatBody(v: VatRateChange, r: seq<byte>)
    requires VatCanonical(v) && |r| == VAT_RATE_RECORD_SIZE
    requires r[..47] == VatBody(Erased(VAT_RATE_RECORD_SIZE), v)
    ensures ParseVatRateChange(r) == v
  {
    var rates := v.vat + v.vatZbir;
    var body := r[..47];
    assert WordsOf(r, 2, 16) == rates by {
      Pow256Values();
      WordsRoundTrip(rates, 2);
      assert r[..32] == body[..32];
      WordsOfPrefix(r[..32], r[32..], 2, 16);
      assert r == r[..32] + r[32..];
    }
    assert ParseDateTime(r[32..40]) == v.dateTime by {
      DateRoundTrip(v.dateTime);
      assert Erased(VAT_RATE_RECORD_SIZE)[32..40] == Erased(8);
      assert r[32..40] == body[32..40];
    }
    assert LeValue(r[40..42]) == v.nextZNumber by {
      LeRoundTrip(v.nextZNumber, 2);
      assert r[40..42] == body[40..42];
    }
    assert r[42] == body[42] && r[43] == body[43];
    var p := ParseVatRateChange(r);
    assert p.vat == (p.vat + p.vatZbir)[..8] == rates[..8] == v.vat;
    assert p.vatZbir == (p.vat + p.vatZbir)[8..] == rates[8..] == v.vatZbir;
    SameVatRateChange(p, v);
  }

  lemma SameVatRateChange(p: VatRateChange, v: VatRateChange)
    requires p.vat == v.vat && p.vatZbir == v.vatZbir && p.dateTime == v.dateTime
    requires p.nextZNumber == v.nextZNumber && p.vatExcluded == v.vatExcluded && p.decPoint == v.decPoint
    ensures p == v
  {
  }

  /** `writeVatRateChange`: nothing for a missing record. */
  method WriteVatRateChange(buf: array<byte>, off: nat, v: Option<VatRateChange>)
    requires off + VAT_RATE_RECORD_SIZE <= buf.Length && (v.Some? ==> VatWritable(v.value))
    modifies buf
    ensures buf[..] == Splice(old(buf[..]), off, VatImage(old(buf[off..off + VAT_RATE_RECORD_SIZE]), v))
  {
    ghost var b0 := buf[..];
    ghost var base := b0[off..off + VAT_RATE_RECORD_SIZE];
    if v.None? {
      SpliceSame(b0, off, VAT_RATE_RECORD_SIZE);
      return;
    }
    var x := v.value;
    PutU16s(buf, off, x.vat + x.vatZbir);
    ghost var rates := Words(x.vat + x.vatZbir, 2);
    ghost var s1 := buf[..];
    WriteDateTime(buf, off + 32, x.dateTime);
    ghost var date := DateField(s1[off + 32..off + 40], x.dateTime);
    SpliceStep(s1, b0, off, rates, off + 32, date);
    ghost var done := rates + date;
    ghost var s := buf[..];
    PutU16(buf, off + 40, x.nextZNumber);
    SpliceStep(s, b0, off, done, off + 40, LeBytes(x.nextZNumber, 2));
    done, s := done + LeBytes(x.nextZNumber, 2), buf[..];
    PutU8(buf, off + 42, x.vatExcluded);
    SpliceStep(s, b0, off, done, off + 42, LeBytes(x.vatExcluded, 1));
    done, s := done + LeBytes(x.vatExcluded, 1), buf[..];
    PutU8(buf, off + 43, x.decPoint);
    SpliceStep(s, b0, off, done, off + 43, LeBytes(x.decPoint, 1));
    done, s := done + LeBytes(x.decPoint, 1), buf[..];
    Fill(buf, off + 44, off + 47, 0);
    SpliceStep(s, b0, off, done, off + 44, Repeat(0, off + 47 - (off + 44)));
    done := done + Repeat(0, off + 47 - (off + 44));
    assert done == VatBody(base, x) by {
      SpliceBeyond(b0, off, rates, off + 32, off + 40);
      SliceOfSlice(b0, off, off + VAT_RATE_RECORD_SIZE, 32, 40);
    }
    SealFields(buf, off, VAT_RATE_RECORD_SIZE, b0, done);
    assert VatImage(base, v) == Sealed(done, base);
  }
}
