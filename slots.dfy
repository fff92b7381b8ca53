/**
 * Regions of equal-size record slots, as `parseDP25FiscalMemory` walks them
 * and `buildDP25FiscalMemory` fills them: a region of `n` slots of `size`
 * bytes at `off` spans `Span(size, n)` bytes, and slot `j` starts at
 * `off + Span(size, j)`.
 *
 * The decoder sees each slot either as blank (never written: every byte
 * before the last is 0xFF) or as a written record at its offset, together
 * with the outcome of its checksum verification. The records a region
 * yields and the warnings it raises are functions of those views.
 */
module Slots {
  import opened Wrappers
  import opened Bytes
  import opened Checksum

  datatype WarningKind = ChecksumMismatch | FutureDate

  /** A decode warning (the text of its message is not modelled). */
  datatype Warning = Warning(kind: WarningKind, recordType: string, index: nat, offset: nat)

  /** What the decoder sees in one slot. */
  datatype SlotView<T> = Blank | Written(offset: nat, record: T, verified: bool)

  /** The bytes `n` slots of `size` bytes occupy. */
  function Span(size: nat, n: nat): nat
  {
    if n == 0 then 0 else size + Span(size, n - 1)
  }

  lemma {:induction false} SpanIsProduct(size: nat, n: nat)
    ensures Span(size, n) == size * n
  {
    if n > 0 {
      SpanIsProduct(size, n - 1);
    }
  }

  /** One more slot adds `size` bytes at the end. */
  lemma {:induction false} SpanSnoc(size: nat, n: nat)
    ensures Span(size, n + 1) == Span(size, n) + size
  {
    if n > 0 {
      SpanSnoc(size, n - 1);
    }
  }

  /** Slot `j` of `n` lies inside the region. */
  lemma {:induction false} SpanMono(size: nat, j: nat, n: nat)
    requires j < n
    ensures Span(size, j) + size <= Span(size, n)
  {
    if j > 0 {
      SpanMono(size, j - 1, n - 1);
    }
  }

  /** `parse` can be applied to every record of `size` bytes. */
  ghost predicate Parses<T>(size: nat, parse: seq<byte> --> T)
  {
    forall r: seq<byte> | |r| == size :: parse.requires(r)
  }

  /**
   * The slot at `o`: blank when `isRecordEmpty` holds, otherwise the parsed
   * record and whether `verifyChecksum` holds.
   */
  function ViewAt<T>(b: seq<byte>, o: nat, size: nat, parse: seq<byte> --> T): (v: SlotView<T>)
    requires 1 <= size && o + size <= |b| && Parses(size, parse)
  {
    var r := b[o..o + size];
    if IsErased(r) then Blank else Written(o, parse(r), ChecksumOk(r))
  }

  /** The first `n` slots from `off` on. */
  function Views<T>(b: seq<byte>, off: nat, size: nat, n: nat, parse: seq<byte> --> T): (vs: seq<SlotView<T>>)
    requires 1 <= size && off + Span(size, n) <= |b| && Parses(size, parse)
    ensures |vs| == n
    decreases n
  {
    if n == 0 then [] else
      SpanSnoc(size, n - 1);
      Views(b, off, size, n - 1, parse) + [ViewAt(b, off + Span(size, n - 1), size, parse)]
  }

  /** Slot `j` of a region is the slot at `off + Span(size, j)`. */
  lemma {:induction false} ViewsAt<T>(b: seq<byte>, off: nat, size: nat, n: nat, parse: seq<byte> --> T, j: nat)
    requires 1 <= size && off + Span(size, n) <= |b| && Parses(size, parse) && j < n
    ensures off + Span(size, j) + size <= |b|
    ensures Views(b, off, size, n, parse)[j] == ViewAt(b, off + Span(size, j), size, parse)
    decreases n
  {
    SpanMono(size, j, n);
    SpanSnoc(size, n - 1);
    if j < n - 1 {
      ViewsAt(b, off, size, n - 1, parse, j);
    }
  }

  /** One more slot appends the view of the slot after the last. */
  lemma ViewsSnoc<T>(b: seq<byte>, off: nat, size: nat, n: nat, parse: seq<byte> --> T)
    requires 1 <= size && off + Span(size, n + 1) <= |b| && Parses(size, parse)
    ensures off + Span(size, n) + size <= |b|
    ensures Views(b, off, size, n + 1, parse) == Views(b, off, size, n, parse) + [ViewAt(b, off + Span(size, n), size, parse)]
  {
    SpanSnoc(size, n);
  }

  /** The records of the written slots, in slot order: the list the decoder returns. */
  function Records<T>(vs: seq<SlotView<T>>): (list: seq<T>)
    ensures |list| <= |vs|
  {
    if vs == [] then [] else Records(vs[..|vs| - 1]) + Kept(vs[|vs| - 1])
  }

  /** What one slot adds to the decoded list: its record, unless it is blank. */
  function Kept<T>(v: SlotView<T>): (r: seq<T>)
  {
    if v.Written? then [v.record] else []
  }

  /**
   * `checkRecord` once the record's `verifyChecksum` result is known: a
   * checksum warning when it failed, then a future-date warning when the
   * record's instant is later than `now`.
   */
  function CheckRecord(recordType: string, index: nat, offset: nat, verified: bool, iso: Option<int>, now: int)
    : (ws: seq<Warning>)
    ensures Warning(ChecksumMismatch, recordType, index, offset) in ws <==> !verified
    ensures Warning(FutureDate, recordType, index, offset) in ws <==> iso.Some? && iso.value > now
    ensures forall w | w in ws :: w.recordType == recordType && w.index == index && w.offset == offset
  {
    (if verified then [] else [Warning(ChecksumMismatch, recordType, index, offset)])
      + (if iso.Some? && iso.value > now then [Warning(FutureDate, recordType, index, offset)] else [])
  }

  /** The warnings `checkRecord` raises for slot `j`: none for a blank slot. */
  function SlotWarnings<T>(v: SlotView<T>, j: nat, date: T -> Option<int>, recordType: string, now: int): seq<Warning>
  {
    if v.Blank? then [] else CheckRecord(recordType, j, v.offset, v.verified, date(v.record), now)
  }

  /** The warnings of a region: each written slot `j` is checked with the instant `date` reads from its record. */
  function Checks<T>(vs: seq<SlotView<T>>, date: T -> Option<int>, recordType: string, now: int): (ws: seq<Warning>)
  {
    if vs == [] then [] else
      var j := |vs| - 1;
      Checks(vs[..j], date, recordType, now) + SlotWarnings(vs[j], j, date, recordType, now)
  }

  /**
   * Every warning names a written slot by its number and offset; a checksum
   * warning names one that fails verification, a future-date warning one
   * whose record is dated after `now`.
   */
  lemma {:induction false} WarningSound<T>(vs: seq<SlotView<T>>, date: T -> Option<int>, recordType: string, now: int,
                                           w: Warning)
    requires w in Checks(vs, date, recordType, now)
    ensures w.recordType == recordType && w.index < |vs| && vs[w.index].Written? && w.offset == vs[w.index].offset
    ensures w.kind == ChecksumMismatch ==> !vs[w.index].verified
    ensures w.kind == FutureDate ==>
      var iso := date(vs[w.index].record); iso.Some? && iso.value > now
  {
    var j := |vs| - 1;
    if w in Checks(vs[..j], date, recordType, now) {
      WarningSound(vs[..j], date, recordType, now, w);
    }
  }

  /** Every written slot that fails verification gets a checksum warning. */
  lemma {:induction false} ChecksumWarningComplete<T>(vs: seq<SlotView<T>>, date: T -> Option<int>, recordType: string,
                                                      now: int, j: nat)
    requires j < |vs| && vs[j].Written? && !vs[j].verified
    ensures Warning(ChecksumMismatch, recordType, j, vs[j].offset) in Checks(vs, date, recordType, now)
  {
    var n := |vs| - 1;
    if j < n {
      assert vs[..n][j] == vs[j];
      ChecksumWarningComplete(vs[..n], date, recordType, now, j);
    }
  }

  /** Every written slot whose record is dated after `now` gets a future-date warning. */
  lemma {:induction false} FutureWarningComplete<T>(vs: seq<SlotView<T>>, date: T -> Option<int>, recordType: string,
                                                    now: int, j: nat)
    requires j < |vs| && vs[j].Written? && date(vs[j].record).Some? && date(vs[j].record).value > now
    ensures Warning(FutureDate, recordType, j, vs[j].offset) in Checks(vs, date, recordType, now)
  {
    var n := |vs| - 1;
    if j < n {
      assert vs[..n][j] == vs[j];
      FutureWarningComplete(vs[..n], date, recordType, now, j);
    }
  }

  /** Every written slot passes `verifyChecksum`. */
  predicate AllVerified<T>(vs: seq<SlotView<T>>)
  {
    forall j | 0 <= j < |vs| :: vs[j].Written? ==> vs[j].verified
  }

  /** Slots that all verify raise no checksum warning. */
  lemma NoChecksumWarnings<T>(vs: seq<SlotView<T>>, date: T -> Option<int>, recordType: string, now: int)
    requires AllVerified(vs)
    ensures forall w | w in Checks(vs, date, recordType, now) :: w.kind == FutureDate
  {
    forall w | w in Checks(vs, date, recordType, now)
      ensures w.kind == FutureDate
    {
      WarningSound(vs, date, recordType, now, w);
    }
  }

  /** `checkRecord` on the record at `offset`. */
  method CheckRecordAt(buf: array<byte>, recordType: string, index: nat, offset: nat, length: nat, iso: Option<int>, now: int)
    returns (ws: seq<Warning>)
    requires 1 <= length && offset + length <= buf.Length
    ensures ws == CheckRecord(recordType, index, offset, ChecksumOk(buf[offset..offset + length]), iso, now)
  {
    ws := [];
    var ok := VerifyChecksum(buf, offset, length);
    if !ok {
      ws := ws + [Warning(ChecksumMismatch, recordType, index, offset)];
    }
    if iso.Some? && iso.value > now {
      ws := ws + [Warning(FutureDate, recordType, index, offset)];
    }
  }

  lemma RecordsSnoc<T>(vs: seq<SlotView<T>>, v: SlotView<T>)
    ensures Records(vs + [v]) == Records(vs) + Kept(v)
  {
    assert (vs + [v])[..|vs|] == vs;
  }

  lemma ChecksSnoc<T>(vs: seq<SlotView<T>>, v: SlotView<T>, date: T -> Option<int>, recordType: string, now: int)
    ensures Checks(vs + [v], date, recordType, now)
      == Checks(vs, date, recordType, now) + SlotWarnings(v, |vs|, date, recordType, now)
  {
    assert (vs + [v])[..|vs|] == vs;
  }

  /**
   * The body of a list loop for slot `index` at `offset`: nothing when
   * `isRecordEmpty` holds; otherwise the parsed record and the warnings of
   * `checkRecord`.
   */
  method DecodeSlot<T>(buf: array<byte>, offset: nat, size: nat, index: nat, parse: seq<byte> --> T,
                       date: T -> Option<int>, recordType: string, now: int, ghost b: seq<byte>)
    returns (kept: seq<T>, ws: seq<Warning>)
    requires 1 <= size && offset + size <= buf.Length && Parses(size, parse) && buf[..] == b
    ensures var v := ViewAt(b, offset, size, parse);
      kept == Kept(v) && ws == SlotWarnings(v, index, date, recordType, now)
  {
    ghost var v := ViewAt(b, offset, size, parse);
    assert b[offset..offset + size] == buf[offset..offset + size];
    var empty := IsRecordEmpty(buf, offset, size);
    if empty {
      return [], [];
    }
    var record := parse(buf[offset..offset + size]);
    kept := [record];
    ws := CheckRecordAt(buf, recordType, index, offset, size, date(record), now);
  }

  /**
   * One list loop of `parseDP25FiscalMemory`: for each of `count` slots,
   * a blank slot is skipped; any other is parsed, kept, and checked.
   */
  method DecodeRegion<T>(buf: array<byte>, off: nat, size: nat, count: nat, parse: seq<byte> --> T,
                         date: T -> Option<int>, recordType: string, now: int)
    returns (list: seq<T>, warnings: seq<Warning>)
    requires 1 <= size && off + Span(size, count) <= buf.Length && Parses(size, parse)
    ensures list == Records(Views(buf[..], off, size, count, parse))
    ensures warnings == Checks(Views(buf[..], off, size, count, parse), date, recordType, now)
  {
    ghost var b := buf[..];
    list := [];
    warnings := [];
    var offset: nat := off;
    for i := 0 to count
      invariant offset == off + Span(size, i) && offset <= off + Span(size, count)
      invariant buf[..] == b
      invariant list == Records(Views(b, off, size, i, parse))
      invariant warnings == Checks(Views(b, off, size, i, parse), date, recordType, now)
    {
      SpanMono(size, i, count);
      list, warnings := DecodeNext(buf, off, offset, size, count, i, parse, date, recordType, now, list, warnings, b);
      offset := offset + size;
    }
  }

  /** One turn of a list loop: slot `i` is decoded and its record and warnings appended. */
  method DecodeNext<T>(buf: array<byte>, off: nat, offset: nat, size: nat, count: nat, i: nat, parse: seq<byte> --> T,
                       date: T -> Option<int>, recordType: string, now: int, list: seq<T>, warnings: seq<Warning>,
                       ghost b: seq<byte>)
    returns (list': seq<T>, warnings': seq<Warning>)
    requires 1 <= size && off + Span(size, count) <= buf.Length && Parses(size, parse) && i < count
    requires buf[..] == b
    requires offset == off + Span(size, i) && Span(size, i) + size <= Span(size, count)
    requires list == Records(Views(b, off, size, i, parse))
    requires warnings == Checks(Views(b, off, size, i, parse), date, recordType, now)
    ensures offset + size == off + Span(size, i + 1) && offset + size <= off + Span(size, count)
    ensures list' == Records(Views(b, off, size, i + 1, parse))
    ensures warnings' == Checks(Views(b, off, size, i + 1, parse), date, recordType, now)
  {
    var kept, ws := DecodeSlot(buf, offset, size, i, parse, date, recordType, now, b);
    SpanSnoc(size, i);
    DecodeStep(b, off, size, i, parse, date, recordType, now);
    list' := list + kept;
    warnings' := warnings + ws;
  }

  /** One turn of a list loop: the next slot's view, record and warnings are appended. */
  lemma DecodeStep<T>(b: seq<byte>, off: nat, size: nat, i: nat, parse: seq<byte> --> T,
                      date: T -> Option<int>, recordType: string, now: int)
    requires 1 <= size && off + Span(size, i + 1) <= |b| && Parses(size, parse)
    ensures off + Span(size, i) + size <= |b|
    ensures Records(Views(b, off, size, i + 1, parse))
      == Records(Views(b, off, size, i, parse)) + Kept(ViewAt(b, off + Span(size, i), size, parse))
    ensures Checks(Views(b, off, size, i + 1, parse), date, recordType, now)
      == Checks(Views(b, off, size, i, parse), date, recordType, now)
         + SlotWarnings(ViewAt(b, off + Span(size, i), size, parse), i, date, recordType, now)
  {
    var vs, v := Views(b, off, size, i, parse), ViewAt(b, off + Span(size, i), size, parse);
    ViewsSnoc(b, off, size, i, parse);
    RecordsSnoc(vs, v);
    ChecksSnoc(vs, v, date, recordType, now);
  }

  /**
   * A singleton record (serial number, fiscal-mode start): always parsed,
   * and checked as record 0 unless its slot is blank.
   */
  method DecodeSingleton<T>(buf: array<byte>, offset: nat, size: nat, parse: seq<byte> --> T,
                            date: T -> Option<int>, recordType: string, now: int)
    returns (record: T, ws: seq<Warning>)
    requires 1 <= size && offset + size <= buf.Length && Parses(size, parse)
    ensures record == parse(buf[offset..offset + size])
    ensures ws == SlotWarnings(ViewAt(buf[..], offset, size, parse), 0, date, recordType, now)
  {
    assert buf[..][offset..offset + size] == buf[offset..offset + size];
    record := parse(buf[offset..offset + size]);
    var empty := IsRecordEmpty(buf, offset, size);
    ws := [];
    if !empty {
      ws := CheckRecordAt(buf, recordType, 0, offset, size, date(record), now);
    }
  }

  /** The numbers of the written slots, in slot order. */
  function WrittenSlots<T>(vs: seq<SlotView<T>>): (idx: seq<nat>)
  {
    if vs == [] then [] else
      var n := |vs| - 1;
      WrittenSlots(vs[..n]) + (if vs[n].Written? then [n] else [])
  }

  /**
   * The records a region yields are those of its written slots and no
   * other, one per written slot, in slot order.
   */
  lemma {:induction false} RecordsInSlotOrder<T>(vs: seq<SlotView<T>>)
    ensures var idx := WrittenSlots(vs);
      && |Records(vs)| == |idx|
      && (forall i | 0 <= i < |idx| :: idx[i] < |vs| && vs[idx[i]].Written? && Records(vs)[i] == vs[idx[i]].record)
      && (forall i, j | 0 <= i < j < |idx| :: idx[i] < idx[j])
      && (forall j | 0 <= j < |vs| && vs[j].Written? :: j in idx)
  {
    if vs != [] {
      var n := |vs| - 1;
      var front := vs[..n];
      RecordsInSlotOrder(front);
      var idx0 := WrittenSlots(front);
      var rs0 := Records(front);
      var idx := WrittenSlots(vs);
      var rs := Records(vs);
      assert idx == idx0 + (if vs[n].Written? then [n] else []);
      assert rs == rs0 + (if vs[n].Written? then [vs[n].record] else []);
      forall i | 0 <= i < |idx|
        ensures idx[i] < |vs| && vs[idx[i]].Written? && rs[i] == vs[idx[i]].record
      {
        if i < |idx0| {
          assert idx[i] == idx0[i] && rs[i] == rs0[i] && front[idx0[i]] == vs[idx0[i]];
        }
      }
      forall j | 0 <= j < |vs| && vs[j].Written?
        ensures j in idx
      {
        if j < n {
          assert front[j] == vs[j];
        }
      }
    }
  }

  /**
   * What a view says about the bytes of its slot: blank exactly when the
   * slot is erased, and otherwise the record parsed from the slot and the
   * outcome of its checksum verification.
   */
  lemma ViewBytes<T>(b: seq<byte>, o: nat, size: nat, parse: seq<byte> --> T)
    requires 1 <= size && o + size <= |b| && Parses(size, parse)
    ensures ViewAt(b, o, size, parse).Blank? <==> IsErased(b[o..o + size])
    ensures var v := ViewAt(b, o, size, parse);
      v.Written? ==> v.offset == o && v.record == parse(b[o..o + size]) && v.verified == ChecksumOk(b[o..o + size])
  {
  }

  /** A written slot of a region reports the offset of its slot. */
  lemma ViewsOffset<T>(b: seq<byte>, off: nat, size: nat, n: nat, parse: seq<byte> --> T, j: nat)
    requires 1 <= size && off + Span(size, n) <= |b| && Parses(size, parse) && j < n
    ensures Views(b, off, size, n, parse)[j].Written? ==> Views(b, off, size, n, parse)[j].offset == off + Span(size, j)
  {
    ViewsAt(b, off, size, n, parse, j);
  }

  /**
   * A warning of a region names one of its written slots by number and by
   * that slot's offset; a checksum warning one that fails verification, a
   * future-date warning one whose record is dated after `now`.
   */
  lemma RegionWarningSound<T>(b: seq<byte>, off: nat, size: nat, n: nat, parse: seq<byte> --> T,
                              date: T -> Option<int>, recordType: string, now: int, w: Warning)
    requires 1 <= size && off + Span(size, n) <= |b| && Parses(size, parse)
    requires w in Checks(Views(b, off, size, n, parse), date, recordType, now)
    ensures w.recordType == recordType && w.index < n && w.offset == off + Span(size, w.index)
    ensures var v := Views(b, off, size, n, parse)[w.index];
      && v.Written?
      && (w.kind == ChecksumMismatch ==> !v.verified)
      && (w.kind == FutureDate ==> date(v.record).Some? && date(v.record).value > now)
  {
    WarningSound(Views(b, off, size, n, parse), date, recordType, now, w);
    ViewsOffset(b, off, size, n, parse, w.index);
  }

  /**
   * Every written slot of a region that fails verification gets a checksum
   * warning, and every one dated after `now` a future-date warning, each
   * naming the slot's number and offset.
   */
  lemma RegionWarningComplete<T>(b: seq<byte>, off: nat, size: nat, n: nat, parse: seq<byte> --> T,
                                 date: T -> Option<int>, recordType: string, now: int, j: nat)
    requires 1 <= size && off + Span(size, n) <= |b| && Parses(size, parse) && j < n
    ensures var v := Views(b, off, size, n, parse)[j];
      var ws := Checks(Views(b, off, size, n, parse), date, recordType, now);
      && (v.Written? && !v.verified ==> Warning(ChecksumMismatch, recordType, j, off + Span(size, j)) in ws)
      && (v.Written? && date(v.record).Some? && date(v.record).value > now ==>
            Warning(FutureDate, recordType, j, off + Span(size, j)) in ws)
  {
    var vs := Views(b, off, size, n, parse);
    ViewsOffset(b, off, size, n, parse, j);
    if vs[j].Written? && !vs[j].verified {
      ChecksumWarningComplete(vs, date, recordType, now, j);
    }
    if vs[j].Written? && date(vs[j].record).Some? && date(vs[j].record).value > now {
      FutureWarningComplete(vs, date, recordType, now, j);
    }
  }

  /**
   * `w` is a warning `checkRecord` raises for slot `w.index` of a region
   * seen as `vs`, whose slots of `size` bytes start at `off`: the slot is
   * written, the warning carries the slot's offset, a checksum warning
   * marks a slot that fails verification and a future-date warning one
   * dated after `now`.
   */
  ghost predicate Flags<T>(vs: seq<SlotView<T>>, off: nat, size: nat, date: T -> Option<int>, now: int, w: Warning)
  {
    && w.index < |vs|
    && w.offset == off + Span(size, w.index)
    && vs[w.index].Written?
    && (w.kind == ChecksumMismatch ==> !vs[w.index].verified)
    && (w.kind == FutureDate ==> date(vs[w.index].record).Some? && date(vs[w.index].record).value > now)
  }

  /** The warnings of a region are exactly the ones its slots call for, tagged with the region's record type. */
  lemma RegionMembership<T>(b: seq<byte>, off: nat, size: nat, n: nat, parse: seq<byte> --> T,
                            date: T -> Option<int>, recordType: string, now: int, w: Warning)
    requires 1 <= size && off + Span(size, n) <= |b| && Parses(size, parse)
    ensures w in Checks(Views(b, off, size, n, parse), date, recordType, now) <==>
      w.recordType == recordType && Flags(Views(b, off, size, n, parse), off, size, date, now, w)
  {
    var vs := Views(b, off, size, n, parse);
    if w in Checks(vs, date, recordType, now) {
      RegionWarningSound(b, off, size, n, parse, date, recordType, now, w);
    }
    if w.recordType == recordType && Flags(vs, off, size, date, now, w) {
      var j := w.index;
      RegionWarningComplete(b, off, size, n, parse, date, recordType, now, j);
      if w.kind == ChecksumMismatch {
        assert w == Warning(ChecksumMismatch, recordType, j, off + Span(size, j));
      } else {
        assert w == Warning(FutureDate, recordType, j, off + Span(size, j));
      }
    }
  }

  /** The same for a region of one slot, which `checkRecord` numbers 0. */
  lemma SingletonMembership<T>(b: seq<byte>, o: nat, size: nat, parse: seq<byte> --> T,
                               date: T -> Option<int>, recordType: string, now: int, w: Warning)
    requires 1 <= size && o + size <= |b| && Parses(size, parse)
    ensures w in SlotWarnings(ViewAt(b, o, size, parse), 0, date, recordType, now) <==>
      w.recordType == recordType && Flags([ViewAt(b, o, size, parse)], o, size, date, now, w)
  {
    ViewBytes(b, o, size, parse);
    var v := ViewAt(b, o, size, parse);
    if v.Written? {
      assert w == Warning(w.kind, w.recordType, w.index, w.offset);
    }
  }

  /**
   * `list?.[i]` for a list whose entries may be null: the entry, or none
   * past the end of the list.
   */
  function Entry<T>(list: seq<Option<T>>, i: nat): (v: Option<T>)
    ensures i >= |list| ==> v.None?
    ensures i < |list| ==> v == list[i]
  {
    if i < |list| then list[i] else None
  }

  /** `image` gives a `size`-byte slot for no value and for each of the first `n` entries of `list`. */
  ghost predicate ImagesFit<T>(list: seq<Option<T>>, n: nat, size: nat, image: Option<T> --> seq<byte>)
  {
    && image.requires(None) && |image(None)| == size
    && forall k | 0 <= k < n && k < |list| :: image.requires(list[k]) && |image(list[k])| == size
  }

  /** The first `n` slots as a write loop leaves them: slot `i` holds the image of entry `i`. */
  function Images<T>(list: seq<Option<T>>, n: nat, size: nat, image: Option<T> --> seq<byte>): (r: seq<byte>)
    requires ImagesFit(list, n, size, image)
    ensures |r| == Span(size, n)
    decreases n
  {
    if n == 0 then [] else
      SpanSnoc(size, n - 1);
      Images(list, n - 1, size, image) + image(Entry(list, n - 1))
  }

  /** Slot `k` of the first `n` written slots holds the image of entry `k`. */
  lemma {:induction false} ImagesAt<T>(list: seq<Option<T>>, n: nat, size: nat, image: Option<T> --> seq<byte>, k: nat)
    requires ImagesFit(list, n, size, image) && k < n
    ensures Span(size, k) + size <= Span(size, n)
    ensures Images(list, n, size, image)[Span(size, k)..Span(size, k) + size] == image(Entry(list, k))
    decreases n
  {
    SpanMono(size, k, n);
    SpanSnoc(size, n - 1);
    var prefix := Images(list, n - 1, size, image);
    if k < n - 1 {
      ImagesAt(list, n - 1, size, image, k);
      SpanMono(size, k, n - 1);
      assert (prefix + image(Entry(list, n - 1)))[Span(size, k)..Span(size, k) + size]
        == prefix[Span(size, k)..Span(size, k) + size];
    } else {
      assert (prefix + image(Entry(list, n - 1)))[|prefix|..] == image(Entry(list, n - 1));
    }
  }

  /** The entries past the region's capacity never reach it. */
  lemma {:induction false} ImagesIgnoreOverflow<T>(list: seq<Option<T>>, n: nat, size: nat, image: Option<T> --> seq<byte>)
    requires ImagesFit(list, n, size, image)
    ensures ImagesFit(list[..Min(|list|, n)], n, size, image)
    ensures Images(list, n, size, image) == Images(list[..Min(|list|, n)], n, size, image)
    decreases n
  {
    var cut := list[..Min(|list|, n)];
    assert forall k | 0 <= k < n && k < |cut| :: cut[k] == list[k];
    if n > 0 {
      ImagesIgnoreOverflow(list, n - 1, size, image);
      var cut' := list[..Min(|list|, n - 1)];
      assert Images(cut', n - 1, size, image) == Images(cut, n - 1, size, image) by {
        ImagesAgree(cut', cut, n - 1, size, image);
      }
      assert Entry(list, n - 1) == Entry(cut, n - 1);
    }
  }

  /** Two lists that agree on their first `n` entries fill `n` slots alike. */
  lemma {:induction false} ImagesAgree<T>(a: seq<Option<T>>, b: seq<Option<T>>, n: nat, size: nat,
                                          image: Option<T> --> seq<byte>)
    requires ImagesFit(a, n, size, image) && ImagesFit(b, n, size, image)
    requires forall k | 0 <= k < n :: Entry(a, k) == Entry(b, k)
    ensures Images(a, n, size, image) == Images(b, n, size, image)
    decreases n
  {
    if n > 0 {
      ImagesAgree(a, b, n - 1, size, image);
      assert Entry(a, n - 1) == Entry(b, n - 1);
    }
  }

  /** Two lists whose first `n` entries have the same images fill `n` slots alike. */
  lemma {:induction false} ImagesAlike<T>(a: seq<Option<T>>, b: seq<Option<T>>, n: nat, size: nat,
                                          image: Option<T> --> seq<byte>)
    requires ImagesFit(a, n, size, image) && ImagesFit(b, n, size, image)
    requires forall k | 0 <= k < n ::
      image.requires(Entry(a, k)) && image.requires(Entry(b, k)) && image(Entry(a, k)) == image(Entry(b, k))
    ensures Images(a, n, size, image) == Images(b, n, size, image)
    decreases n
  {
    if n > 0 {
      ImagesAlike(a, b, n - 1, size, image);
    }
  }

  /** Every piece is one slot long. */
  predicate Uniform(imgs: seq<seq<byte>>, size: nat)
  {
    forall k | 0 <= k < |imgs| :: |imgs[k]| == size
  }

  lemma {:induction false} ConcatUniform(imgs: seq<seq<byte>>, size: nat, n: nat)
    requires Uniform(imgs, size) && n <= |imgs|
    ensures |Concat(imgs[..n])| == Span(size, n)
  {
    if n == 0 {
      assert imgs[..0] == [];
    } else {
      ConcatUniform(imgs, size, n - 1);
      ConcatSnoc(imgs, n - 1);
    }
  }

  /** The image of each of the first `n` entries, slot by slot. */
  function SlotImages<T>(list: seq<Option<T>>, n: nat, size: nat, image: Option<T> --> seq<byte>): (imgs: seq<seq<byte>>)
    requires ImagesFit(list, n, size, image)
    ensures |imgs| == n && Uniform(imgs, size)
    ensures forall k | 0 <= k < n :: imgs[k] == image(Entry(list, k))
  {
    var imgs := seq(n, k requires 0 <= k < n => EntryFits(list, n, size, image, k); image(Entry(list, k)));
    assert Uniform(imgs, size) by {
      forall k | 0 <= k < n
        ensures |imgs[k]| == size
      {
        EntryFits(list, n, size, image, k);
      }
    }
    imgs
  }

  lemma EntryFits<T>(list: seq<Option<T>>, n: nat, size: nat, image: Option<T> --> seq<byte>, k: nat)
    requires ImagesFit(list, n, size, image) && k < n
    ensures image.requires(Entry(list, k)) && |image(Entry(list, k))| == size
  {
    if k < |list| {
      assert Entry(list, k) == list[k];
    }
  }

  /** The written slots are the slot images one after the other. */
  lemma {:induction false} ImagesAreConcat<T>(list: seq<Option<T>>, n: nat, size: nat, image: Option<T> --> seq<byte>)
    requires ImagesFit(list, n, size, image)
    ensures Images(list, n, size, image) == Concat(SlotImages(list, n, size, image))
  {
    if n > 0 {
      ImagesAreConcat(list, n - 1, size, image);
      var imgs := SlotImages(list, n, size, image);
      assert imgs[..n - 1] == SlotImages(list, n - 1, size, image);
      SpanSnoc(size, n - 1);
      calc {
        Images(list, n, size, image);
        Images(list, n - 1, size, image) + image(Entry(list, n - 1));
        Concat(imgs[..n - 1]) + imgs[n - 1];
        Concat(imgs);
      }
    }
  }

  /** Before a turn of a write loop, the slot it writes is still erased. */
  lemma StillErased(before: seq<byte>, done: seq<byte>, imgs: seq<seq<byte>>, i: nat, size: nat, m: nat, at: nat)
    requires Uniform(imgs, size) && i < |imgs| && Span(size, i) + size <= m && at == |done| + Span(size, i)
    requires before == (done + Concat(imgs[..i])) + Erased(m - Span(size, i))
    ensures at + size <= |before| && before[at..at + size] == Erased(size)
  {
    ConcatUniform(imgs, size, i);
    WriteOnErased(done + Concat(imgs[..i]), m - Span(size, i), Erased(size));
  }

  /**
   * One turn of a write loop: with the first `i` slots written and the rest
   * erased, writing image `i` over slot `i` (at `at`) gives the state with
   * the first `i + 1` slots written.
   */
  lemma StepConcat(before: seq<byte>, after: seq<byte>, done: seq<byte>, imgs: seq<seq<byte>>, i: nat, size: nat, m: nat,
                   at: nat)
    requires Uniform(imgs, size) && i < |imgs| && Span(size, i) + size <= m && at == |done| + Span(size, i)
    requires before == (done + Concat(imgs[..i])) + Erased(m - Span(size, i))
    requires at + size <= |before| && after == Splice(before, at, imgs[i])
    ensures Span(size, i + 1) == Span(size, i) + size
    ensures after == (done + Concat(imgs[..i + 1])) + Erased(m - Span(size, i + 1))
  {
    SpanSnoc(size, i);
    ConcatUniform(imgs, size, i);
    var written := done + Concat(imgs[..i]);
    WriteOnErased(written, m - Span(size, i), imgs[i]);
    ConcatSnoc(imgs, i);
  }

  /** A loop turn that leaves an erased slot alone also moves to the next slot. */
  lemma SkipConcat(s: seq<byte>, done: seq<byte>, imgs: seq<seq<byte>>, i: nat, size: nat, m: nat)
    requires Uniform(imgs, size) && i < |imgs| && Span(size, i) + size <= m && imgs[i] == Erased(size)
    requires s == (done + Concat(imgs[..i])) + Erased(m - Span(size, i))
    ensures Span(size, i + 1) == Span(size, i) + size
    ensures s == (done + Concat(imgs[..i + 1])) + Erased(m - Span(size, i + 1))
  {
    var at := |done| + Span(size, i);
    StillErased(s, done, imgs, i, size, m, at);
    SpliceSame(s, at, size);
    StepConcat(s, s, done, imgs, i, size, m, at);
  }

  /**
   * A region that a write loop filled, seen by the decoder: slot `k` holds
   * entry `k` as it parses back (`out[k]`), verified, while there are
   * entries; the slots past the end of the list are blank.
   */
  lemma ViewsOfImages<T>(b: seq<byte>, off: nat, list: seq<Option<T>>, n: nat, size: nat,
                         image: Option<T> --> seq<byte>, parse: seq<byte> --> T, out: seq<T>)
    requires 1 <= size && ImagesFit(list, n, size, image) && image(None) == Erased(size) && Parses(size, parse)
    requires off + Span(size, n) <= |b| && b[off..off + Span(size, n)] == Images(list, n, size, image)
    requires |out| == |list|
    requires forall k | 0 <= k < n && k < |list| ::
      && list[k].Some? && !IsErased(image(list[k])) && ChecksumOk(image(list[k]))
      && parse(image(list[k])) == out[k]
    ensures forall k | 0 <= k < n ::
      var v := Views(b, off, size, n, parse)[k];
      (v.Written? <==> k < |list|) && (v.Written? ==> v.record == out[k] && v.verified)
  {
    forall k | 0 <= k < n
      ensures var v := Views(b, off, size, n, parse)[k];
        (v.Written? <==> k < |list|) && (v.Written? ==> v.record == out[k] && v.verified)
    {
      SlotOfImages(b, off, list, n, size, image, k);
      ViewOfSlot(b, off, size, n, parse, k, image(Entry(list, k)));
    }
  }

  /** Slot `k` of a filled region holds the image of entry `k`. */
  lemma SlotOfImages<T>(b: seq<byte>, off: nat, list: seq<Option<T>>, n: nat, size: nat,
                        image: Option<T> --> seq<byte>, k: nat)
    requires ImagesFit(list, n, size, image) && k < n
    requires off + Span(size, n) <= |b| && b[off..off + Span(size, n)] == Images(list, n, size, image)
    ensures off + Span(size, k) + size <= |b|
    ensures b[off + Span(size, k)..off + Span(size, k) + size] == image(Entry(list, k))
  {
    ImagesAt(list, n, size, image, k);
    SliceOfSlice(b, off, off + Span(size, n), Span(size, k), Span(size, k) + size);
  }

  /** The decoder's view of slot `k` is determined by the slot's bytes. */
  lemma ViewOfSlot<T>(b: seq<byte>, off: nat, size: nat, n: nat, parse: seq<byte> --> T, k: nat, img: seq<byte>)
    requires 1 <= size && off + Span(size, n) <= |b| && Parses(size, parse) && k < n
    requires off + Span(size, k) + size <= |b| && b[off + Span(size, k)..off + Span(size, k) + size] == img
    ensures Views(b, off, size, n, parse)[k]
      == if IsErased(img) then Blank else Written(off + Span(size, k), parse(img), ChecksumOk(img))
  {
    ViewsAt(b, off, size, n, parse, k);
  }

  /**
   * Decoding slots whose views are known: the records are what each entry
   * parses back as, in list order, up to the region's capacity, and no
   * slot fails verification.
   */
  lemma {:induction false} RecordsOfViews<T>(vs: seq<SlotView<T>>, out: seq<T>)
    requires forall k | 0 <= k < |vs| ::
      (vs[k].Written? <==> k < |out|) && (vs[k].Written? ==> vs[k].record == out[k] && vs[k].verified)
    ensures Records(vs) == out[..Min(|vs|, |out|)]
    ensures AllVerified(vs)
  {
    if vs != [] {
      var n := |vs| - 1;
      RecordsOfViews(vs[..n], out);
      if n < |out| {
        assert out[..n + 1] == out[..n] + [out[n]];
      }
    }
  }

  /**
   * Round trip of one region: when every entry of `list` is present, its
   * image is a written, verifying record that parses back as `out[k]`, and
   * the list fits the region, decoding the filled region yields `out`, and
   * no record in it fails verification.
   */
  lemma RegionRoundTrip<T>(b: seq<byte>, off: nat, list: seq<Option<T>>, n: nat, size: nat,
                           image: Option<T> --> seq<byte>, parse: seq<byte> --> T, out: seq<T>)
    requires 1 <= size && ImagesFit(list, n, size, image) && image(None) == Erased(size) && Parses(size, parse)
    requires off + Span(size, n) <= |b| && b[off..off + Span(size, n)] == Images(list, n, size, image)
    requires |out| == |list| <= n
    requires forall k | 0 <= k < |list| ::
      && list[k].Some? && !IsErased(image(list[k])) && ChecksumOk(image(list[k]))
      && parse(image(list[k])) == out[k]
    ensures Records(Views(b, off, size, n, parse)) == out
    ensures AllVerified(Views(b, off, size, n, parse))
  {
    ViewsOfImages(b, off, list, n, size, image, parse, out);
    RecordsOfViews(Views(b, off, size, n, parse), out);
    assert out[..Min(n, |out|)] == out;
  }
}
