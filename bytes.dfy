/**
 * Bytes, fixed-width little-endian integers and the in-place buffer
 * primitives (Node's `Buffer.fill` and `writeUInt8/16/32LE`) that the
 * fiscal-memory codec is written against.
 */
module Bytes {

  type byte = x: int | 0 <= x < 256

  const TWO_64: nat := 0x1_0000_0000_0000_0000

  function Pow256(n: nat): (p: nat)
    ensures p >= 1
  {
    if n == 0 then 1 else 256 * Pow256(n - 1)
  }

  /** The ranges of the 1-, 2-, 4- and 8-byte fields. */
  lemma Pow256Values()
    ensures Pow256(1) == 256 && Pow256(2) == 0x1_0000
    ensures Pow256(4) == 0x1_0000_0000 && Pow256(8) == TWO_64
  {
    assert Pow256(1) == 256;
    assert Pow256(2) == 0x1_0000;
    assert Pow256(3) == 0x100_0000;
    assert Pow256(4) == 0x1_0000_0000;
    assert Pow256(6) == 0x1_0000_0000_0000;
    assert Pow256(8) == TWO_64;
  }

  function Min(a: nat, b: nat): nat { if a <= b then a else b }

  /** `n` copies of `v`. */
  function Repeat(v: byte, n: nat): (r: seq<byte>)
    ensures |r| == n && forall k | 0 <= k < n :: r[k] == v
  {
    seq(n, _ => v)
  }

  /** The erased-flash pattern. */
  function Erased(n: nat): (r: seq<byte>)
    ensures |r| == n && forall k | 0 <= k < n :: r[k] == 0xFF
  {
    Repeat(0xFF, n)
  }

  function Zeros(n: nat): (r: seq<byte>)
    ensures |r| == n && forall k | 0 <= k < n :: r[k] == 0
  {
    Repeat(0, n)
  }

  /** The `n` low-order bytes of `v`, least significant first. */
  function LeBytes(v: nat, n: nat): (r: seq<byte>)
    ensures |r| == n
  {
    if n == 0 then [] else [v % 256] + LeBytes(v / 256, n - 1)
  }

  /** The unsigned value of little-endian bytes. */
  function LeValue(s: seq<byte>): (v: nat)
    ensures v < Pow256(|s|)
  {
    if s == [] then 0 else s[0] + 256 * LeValue(s[1..])
  }

  /** Writing a value that fits and reading it back gives the value. */
  lemma {:induction false} LeRoundTrip(v: nat, n: nat)
    requires v < Pow256(n)
    ensures LeValue(LeBytes(v, n)) == v
  {
    if n > 0 {
      var s := LeBytes(v, n);
      assert s[0] == v % 256 && s[1..] == LeBytes(v / 256, n - 1);
      LeRoundTrip(v / 256, n - 1);
    }
  }

  /** Bytes are recovered from their value: the encoding is injective. */
  lemma {:induction false} LeBytesOfValue(s: seq<byte>)
    ensures LeBytes(LeValue(s), |s|) == s
  {
    if s != [] {
      var v := LeValue(s);
      assert v % 256 == s[0] && v / 256 == LeValue(s[1..]);
      LeBytesOfValue(s[1..]);
    }
  }

  lemma MulSucc(w: nat, n: nat)
    requires n > 0
    ensures w * (n - 1) + w == w * n
  {
  }

  lemma MulShift(a: int, x: int, p: int)
    ensures 256 * (a + x * p) == 256 * a + x * (256 * p)
  {
  }

  /** Accumulating bytes least significant first, as a shift-and-or loop does. */
  lemma {:induction false} LeValueSnoc(s: seq<byte>, i: nat)
    requires i < |s|
    ensures LeValue(s[..i + 1]) == LeValue(s[..i]) + s[i] * Pow256(i)
  {
    if i > 0 {
      LeValueSnoc(s[1..], i - 1);
      assert s[..i + 1][1..] == s[1..][..i];
      assert s[..i][1..] == s[1..][..i - 1];
      var a := LeValue(s[1..][..i - 1]);
      var p := Pow256(i - 1);
      var x := s[i];
      assert LeValue(s[..i + 1]) == s[0] + 256 * (a + x * p);
      assert LeValue(s[..i]) == s[0] + 256 * a;
      MulShift(a, x, p);
    } else {
      assert s[..1] == [s[0]];
    }
  }

  /** `s` with the bytes from `off` on replaced by `r`: the effect of an in-place write. */
  function Splice(s: seq<byte>, off: nat, r: seq<byte>): (t: seq<byte>)
    requires off + |r| <= |s|
    ensures |t| == |s|
  {
    s[..off] + r + s[off + |r|..]
  }

  lemma SpliceSlices(s: seq<byte>, off: nat, r: seq<byte>)
    requires off + |r| <= |s|
    ensures Splice(s, off, r)[..off] == s[..off]
    ensures Splice(s, off, r)[off..off + |r|] == r
    ensures Splice(s, off, r)[off + |r|..] == s[off + |r|..]
  {
  }

  /** Two writes at consecutive positions are one write of the concatenation. */
  lemma SpliceAppend(s: seq<byte>, off: nat, p: seq<byte>, q: seq<byte>)
    requires off + |p| + |q| <= |s|
    ensures Splice(Splice(s, off, p), off + |p|, q) == Splice(s, off, p + q)
  {
  }

  /**
   * One more write straight after the bytes already written from `off`: the
   * bytes `s` before it are `done` over `b0`, after it `done + x` over `b0`.
   */
  lemma SpliceStep(s: seq<byte>, b0: seq<byte>, off: nat, done: seq<byte>, at: nat, x: seq<byte>)
    requires off + |done| <= |b0| && s == Splice(b0, off, done) && at == off + |done| && at + |x| <= |b0|
    ensures Splice(s, at, x) == Splice(b0, off, done + x)
  {
    SpliceAppend(b0, off, done, x);
  }

  /** A write that covers the whole buffer leaves only what was written. */
  lemma SpliceWhole(s: seq<byte>, r: seq<byte>)
    requires |r| == |s|
    ensures Splice(s, 0, r) == r
  {
  }

  /** A second write over the same span hides the first. */
  lemma SpliceOver(s: seq<byte>, off: nat, p: seq<byte>, q: seq<byte>)
    requires off + |p| <= |s| && |q| == |p|
    ensures Splice(Splice(s, off, p), off, q) == Splice(s, off, q)
  {
  }

  /** A second write over the front of a span hides that part of the first. */
  lemma SpliceOverPrefix(s: seq<byte>, off: nat, p: seq<byte>, rest: seq<byte>, q: seq<byte>)
    requires off + |p| + |rest| <= |s| && |q| == |p|
    ensures Splice(Splice(s, off, p + rest), off, q) == Splice(s, off, q + rest)
  {
  }

  /** A longer write over the same start hides the first entirely. */
  lemma SpliceCover(s: seq<byte>, off: nat, p: seq<byte>, q: seq<byte>)
    requires off + |q| <= |s| && |p| <= |q|
    ensures Splice(Splice(s, off, p), off, q) == Splice(s, off, q)
  {
  }

  /** A write leaves the bytes after it as they were. */
  lemma SpliceBeyond(s: seq<byte>, off: nat, r: seq<byte>, a: nat, b: nat)
    requires off + |r| <= a <= b <= |s|
    ensures Splice(s, off, r)[a..b] == s[a..b]
  {
  }

  /** The written span followed by the `n` untouched bytes after it. */
  lemma SpliceWindow(s: seq<byte>, off: nat, r: seq<byte>, n: nat)
    requires off + |r| + n <= |s|
    ensures Splice(s, off, r)[off..off + |r| + n] == r + s[off + |r|..off + |r| + n]
  {
  }

  /** Storing one byte is a one-byte splice. */
  lemma SpliceOne(s: seq<byte>, k: nat, x: byte)
    requires k < |s|
    ensures s[k := x] == Splice(s, k, [x])
  {
  }

  /** Writing over the front of an erased tail: the tail loses what was written. */
  lemma WriteOnErased(done: seq<byte>, m: nat, img: seq<byte>)
    requires |img| <= m
    ensures (done + Erased(m))[|done|..|done| + |img|] == Erased(|img|)
    ensures Splice(done + Erased(m), |done|, img) == (done + img) + Erased(m - |img|)
  {
    var s := done + Erased(m);
    assert s[..|done|] == done;
    assert s[|done| + |img|..] == Erased(m - |img|);
  }

  /** Two erased runs one after the other are one erased run. */
  lemma ErasedJoin(done: seq<byte>, m: nat, n: nat)
    ensures (done + Erased(m)) + Erased(n) == done + Erased(m + n)
  {
    assert Erased(m) + Erased(n) == Erased(m + n);
  }

  /** A slice of a slice is a slice of the whole. */
  lemma SubSlice(s: seq<byte>, a: nat, i: nat, j: nat)
    requires a + j <= |s| && i <= j
    ensures s[a..][i..j] == s[a + i..a + j]
  {
  }

  /** A slice of a bounded slice is a slice of the whole. */
  lemma SliceOfSlice(s: seq<byte>, a: nat, b: nat, i: nat, j: nat)
    requires a <= b <= |s| && i <= j <= b - a
    ensures s[a..b][i..j] == s[a + i..a + j]
  {
    assert forall k | 0 <= k < j - i :: s[a..b][i..j][k] == s[a + i + k];
  }

  /** Rewriting a span with its own contents changes nothing. */
  lemma SpliceSame(s: seq<byte>, off: nat, n: nat)
    requires off + n <= |s|
    ensures Splice(s, off, s[off..off + n]) == s
  {
  }

  /** Words of `w` bytes each, little-endian, one after another. */
  function Words(s: seq<nat>, w: nat): (r: seq<byte>)
    ensures |r| == w * |s|
  {
    if s == [] then [] else Words(s[..|s| - 1], w) + LeBytes(s[|s| - 1], w)
  }

  /** The first `n` little-endian words of `w` bytes in `r`. */
  function WordsOf(r: seq<byte>, w: nat, n: nat): (s: seq<nat>)
    requires w * n <= |r|
    ensures |s| == n
  {
    if n == 0 then [] else
      assert w * (n - 1) + w == w * n;
      WordsOf(r, w, n - 1) + [LeValue(r[w * (n - 1)..w * n])]
  }

  /** Every word read is below 256^w. */
  lemma {:induction false} WordsBelow(r: seq<byte>, w: nat, n: nat)
    requires w * n <= |r|
    ensures forall j | 0 <= j < n :: WordsOf(r, w, n)[j] < Pow256(w)
  {
    if n > 0 {
      WordsBelow(r, w, n - 1);
      assert w * (n - 1) + w == w * n;
    }
  }

  /** Words only look at the bytes they span. */
  lemma {:induction false} WordsOfPrefix(r: seq<byte>, t: seq<byte>, w: nat, n: nat)
    requires w * n <= |r|
    ensures WordsOf(r + t, w, n) == WordsOf(r, w, n)
  {
    if n > 0 {
      assert w * (n - 1) + w == w * n;
      WordsOfPrefix(r, t, w, n - 1);
      assert (r + t)[w * (n - 1)..w * n] == r[w * (n - 1)..w * n];
    }
  }

  /** Words that fit their width read back as themselves. */
  lemma {:induction false} WordsRoundTrip(s: seq<nat>, w: nat)
    requires forall j | 0 <= j < |s| :: s[j] < Pow256(w)
    ensures WordsOf(Words(s, w), w, |s|) == s
  {
    if s != [] {
      var n := |s|;
      var front := Words(s[..n - 1], w);
      var last := LeBytes(s[n - 1], w);
      assert Words(s, w) == front + last;
      WordsOfSnoc(front, last, w, n - 1);
      WordsRoundTrip(s[..n - 1], w);
      LeRoundTrip(s[n - 1], w);
      assert s == s[..n - 1] + [s[n - 1]];
    }
  }

  /** One more word after `k` words reads as one more value. */
  lemma WordsOfSnoc(front: seq<byte>, last: seq<byte>, w: nat, k: nat)
    requires |front| == w * k && |last| == w
    ensures w * (k + 1) <= |front + last|
    ensures WordsOf(front + last, w, k + 1) == WordsOf(front, w, k) + [LeValue(last)]
  {
    MulSucc(w, k + 1);
    WordsOfPrefix(front, last, w, k);
    assert (front + last)[w * k..w * (k + 1)] == last;
  }

  function U64Words(s: seq<int>): (r: seq<byte>)
    ensures |r| == 8 * |s|
  {
    if s == [] then [] else U64Words(s[..|s| - 1]) + LeBytes(s[|s| - 1] % TWO_64, 8)
  }

  /** They are the words of the values reduced modulo 2^64. */
  lemma {:induction false} U64WordsMod(s: seq<int>)
    ensures U64Words(s) == Words(Mod64(s), 8)
  {
    if s != [] {
      U64WordsMod(s[..|s| - 1]);
      assert Mod64(s)[..|s| - 1] == Mod64(s[..|s| - 1]);
    }
  }

  /** Reducing values that already fit changes nothing. */
  lemma Mod64Small(s: seq<int>)
    requires forall j | 0 <= j < |s| :: 0 <= s[j] < TWO_64
    ensures Mod64(s) == s
  {
    forall j | 0 <= j < |s|
      ensures Mod64(s)[j] == s[j]
    {
      var x := s[j];
      assert x % TWO_64 == x;
    }
  }

  /** Each value reduced modulo 2^64, as `writeUInt64LE` stores it. */
  function Mod64(s: seq<int>): (r: seq<nat>)
    ensures |r| == |s| && forall j | 0 <= j < |s| :: r[j] == s[j] % TWO_64
  {
    seq(|s|, j requires 0 <= j < |s| => s[j] % TWO_64)
  }

  /** `Buffer.alloc(n)`: a new buffer of `n` zero bytes. */
  method Alloc(n: nat) returns (buf: array<byte>)
    ensures fresh(buf) && buf[..] == Zeros(n)
  {
    buf := new byte[n](_ => 0);
  }

  /** `Buffer.alloc(n, 0xff)`: a new buffer of `n` erased bytes. */
  method AllocErased(n: nat) returns (buf: array<byte>)
    ensures fresh(buf) && buf[..] == Erased(n)
  {
    buf := new byte[n](_ => 0xFF);
  }

  /** `buffer.fill(v, from, to)`. */
  method Fill(buf: array<byte>, from: nat, to: nat, v: byte)
    requires from <= to <= buf.Length
    modifies buf
    ensures buf[..] == Splice(old(buf[..]), from, Repeat(v, to - from))
  {
    for i := from to to
      invariant buf[..] == Splice(old(buf[..]), from, Repeat(v, i - from))
    {
      RepeatSnoc(v, i - from);
      SpliceGrow(buf[..], old(buf[..]), from, Repeat(v, i - from), v);
      buf[i] := v;
    }
  }

  lemma RepeatSnoc(v: byte, n: nat)
    ensures Repeat(v, n + 1) == Repeat(v, n) + [v]
  {
  }

  /** Storing one more byte right after a spliced span extends the span. */
  lemma SpliceGrow(s: seq<byte>, s0: seq<byte>, off: nat, r: seq<byte>, x: byte)
    requires off + |r| < |s0| && s == Splice(s0, off, r)
    ensures s[off + |r| := x] == Splice(s0, off, r + [x])
  {
  }

  /** `source.copy(buffer, off)`: the bytes of `src` stored from `off` on. */
  method CopyInto(buf: array<byte>, off: nat, src: seq<byte>)
    requires off + |src| <= buf.Length
    modifies buf
    ensures buf[..] == Splice(old(buf[..]), off, src)
  {
    for i := 0 to |src|
      invariant forall k | 0 <= k < buf.Length :: buf[k] == if off <= k < off + i then src[k - off] else old(buf[k])
    {
      buf[off + i] := src[i];
    }
    assert buf[..] == Splice(old(buf[..]), off, src);
  }

  /** `buffer.writeUInt8(v, off)`; Node throws a RangeError for `v > 255`. */
  method PutU8(buf: array<byte>, off: nat, v: nat)
    requires off + 1 <= buf.Length && v < 256
    modifies buf
    ensures buf[..] == Splice(old(buf[..]), off, LeBytes(v, 1))
  {
    buf[off] := v;
  }

  /** `buffer.writeUInt16LE(v, off)`; Node throws a RangeError for `v > 0xFFFF`. */
  method PutU16(buf: array<byte>, off: nat, v: nat)
    requires off + 2 <= buf.Length && v < 0x1_0000
    modifies buf
    ensures buf[..] == Splice(old(buf[..]), off, LeBytes(v, 2))
  {
    buf[off] := v % 256;
    buf[off + 1] := v / 256;
  }

  /** `buffer.writeUInt32LE(v, off)`; Node throws a RangeError for `v > 0xFFFF_FFFF`. */
  method PutU32(buf: array<byte>, off: nat, v: nat)
    requires off + 4 <= buf.Length && v < 0x1_0000_0000
    modifies buf
    ensures buf[..] == Splice(old(buf[..]), off, LeBytes(v, 4))
  {
    buf[off] := v % 256;
    buf[off + 1] := (v / 256) % 256;
    buf[off + 2] := (v / 256 / 256) % 256;
    buf[off + 3] := v / 256 / 256 / 256;
    var w := v / 256 / 256 / 256;
    assert LeBytes(w, 1) == [w];
    assert LeBytes(v / 256 / 256, 2) == [(v / 256 / 256) % 256, w];
    assert LeBytes(v / 256, 3) == [(v / 256) % 256, (v / 256 / 256) % 256, w];
    assert LeBytes(v, 4) == [v % 256, (v / 256) % 256, (v / 256 / 256) % 256, v / 256 / 256 / 256];
  }

  /** Consecutive `writeUInt16LE` calls, one per value. */
  method PutU16s(buf: array<byte>, off: nat, s: seq<nat>)
    requires off + 2 * |s| <= buf.Length && forall j | 0 <= j < |s| :: s[j] < 0x1_0000
    modifies buf
    ensures buf[..] == Splice(old(buf[..]), off, Words(s, 2))
  {
    ghost var b0 := buf[..];
    for i := 0 to |s|
      invariant buf[..] == Splice(b0, off, Words(s[..i], 2))
    {
      ghost var cur := buf[..];
      PutU16(buf, off + 2 * i, s[i]);
      WordsSnoc(s, i, 2);
      SpliceStep(cur, b0, off, Words(s[..i], 2), off + 2 * i, LeBytes(s[i], 2));
    }
    assert s[..|s|] == s;
  }

  /** One more value, one more word. */
  lemma WordsSnoc(s: seq<nat>, i: nat, w: nat)
    requires i < |s|
    ensures Words(s[..i + 1], w) == Words(s[..i], w) + LeBytes(s[i], w)
  {
    assert s[..i + 1][..i] == s[..i];
  }

  /** `buffer.readUInt16LE(off)`. */
  method GetU16(buf: array<byte>, off: nat) returns (v: nat)
    requires off + 2 <= buf.Length
    ensures v == LeValue(buf[off..off + 2])
  {
    var lo: int, hi: int := buf[off], buf[off + 1];
    v := lo + 256 * hi;
    assert buf[off..off + 2][1..] == [buf[off + 1]];
  }

  /** `buffer.readUInt32LE(off)`. */
  method GetU32(buf: array<byte>, off: nat) returns (v: nat)
    requires off + 4 <= buf.Length
    ensures v == LeValue(buf[off..off + 4])
  {
    var b0: int, b1: int, b2: int, b3: int := buf[off], buf[off + 1], buf[off + 2], buf[off + 3];
    v := b0 + 256 * (b1 + 256 * (b2 + 256 * b3));
    ghost var s := buf[off..off + 4];
    assert s[1..][1..][1..] == [buf[off + 3]];
    assert LeValue(s[1..][1..]) == b2 + 256 * b3;
    assert LeValue(s[1..]) == b1 + 256 * (b2 + 256 * b3);
  }

  /**
   * `readUInt64LE`: ORs byte `i` shifted left by `8 * i` into an accumulator.
   * The source returns the value as a decimal string; here it is the number.
   */
  method ReadUInt64LE(buf: array<byte>, off: nat) returns (v: nat)
    requires off + 8 <= buf.Length
    ensures v == LeValue(buf[off..off + 8])
    ensures v < TWO_64
  {
    ghost var s := buf[off..off + 8];
    v := 0;
    for i := 0 to 8
      invariant v == LeValue(s[..i])
    {
      LeValueSnoc(s, i);
      v := v + buf[off + i] * Pow256(i);
    }
    assert s[..8] == s;
  }

  /**
   * `writeUInt64LE`: writes byte `i` as `(v >> 8i) & 0xFF` for `i` in 0..8,
   * which for a BigInt `v` (negative ones included) are the eight low bytes
   * of `v mod 2^64`.
   */
  method WriteUInt64LE(buf: array<byte>, off: nat, v: int)
    requires off + 8 <= buf.Length
    modifies buf
    ensures buf[..] == Splice(old(buf[..]), off, LeBytes(v % TWO_64, 8))
  {
    var rest: nat := v % TWO_64;
    ghost var done: seq<byte> := [];
    for i := 0 to 8
      invariant |done| == i
      invariant done + LeBytes(rest, 8 - i) == LeBytes(v % TWO_64, 8)
      invariant buf[..] == Splice(old(buf[..]), off, done)
    {
      ghost var tail := LeBytes(rest / 256, 8 - i - 1);
      assert done + LeBytes(rest, 8 - i) == (done + [rest % 256]) + tail;
      SpliceGrow(buf[..], old(buf[..]), off, done, rest % 256);
      buf[off + i] := rest % 256;
      done := done + [rest % 256];
      rest := rest / 256;
    }
  }

  /** Consecutive `writeUInt64LE` calls, one per value. */
  method PutU64s(buf: array<byte>, off: nat, s: seq<int>)
    requires off + 8 * |s| <= buf.Length
    modifies buf
    ensures buf[..] == Splice(old(buf[..]), off, U64Words(s))
  {
    ghost var b0 := buf[..];
    for i := 0 to |s|
      invariant buf[..] == Splice(b0, off, U64Words(s[..i]))
    {
      ghost var cur := buf[..];
      WriteUInt64LE(buf, off + 8 * i, s[i]);
      U64WordsSnoc(s, i);
      SpliceStep(cur, b0, off, U64Words(s[..i]), off + 8 * i, LeBytes(s[i] % TWO_64, 8));
    }
    assert s[..|s|] == s;
  }

  /** One more value, one more 8-byte word. */
  lemma U64WordsSnoc(s: seq<int>, i: nat)
    requires i < |s|
    ensures U64Words(s[..i + 1]) == U64Words(s[..i]) + LeBytes(s[i] % TWO_64, 8)
  {
    assert s[..i + 1][..i] == s[..i];
  }

  /** Consecutive `readUInt64LE` calls, one per word. */
  method GetU64s(buf: array<byte>, off: nat, n: nat) returns (s: seq<nat>)
    requires off + 8 * n <= buf.Length
    ensures s == WordsOf(buf[off..off + 8 * n], 8, n)
    ensures forall j | 0 <= j < n :: s[j] < TWO_64
  {
    ghost var r := buf[off..off + 8 * n];
    s := [];
    for i := 0 to n
      invariant s == WordsOf(r, 8, i)
      invariant forall j | 0 <= j < i :: s[j] < TWO_64
    {
      var v := ReadUInt64LE(buf, off + 8 * i);
      assert r[8 * i..8 * (i + 1)] == buf[off + 8 * i..off + 8 * i + 8];
      s := s + [v];
    }
  }

  /** The value written by `WriteUInt64LE` reads back as `v mod 2^64`. */
  lemma UInt64RoundTrip(v: int)
    ensures LeValue(LeBytes(v % TWO_64, 8)) == v % TWO_64
  {
    Pow256Values();
    LeRoundTrip(v % TWO_64, 8);
  }

  /** `Buffer.concat(parts)`: the pieces one after the other. */
  function Concat(ps: seq<seq<byte>>): (r: seq<byte>)
  {
    if ps == [] then [] else Concat(ps[..|ps| - 1]) + ps[|ps| - 1]
  }

  lemma ConcatSnoc(ps: seq<seq<byte>>, k: nat)
    requires k < |ps|
    ensures Concat(ps[..k + 1]) == Concat(ps[..k]) + ps[k]
  {
    assert ps[..k + 1][..k] == ps[..k];
  }

  /** Piece `k` sits right after the pieces before it. */
  lemma {:induction false} ConcatAt(ps: seq<seq<byte>>, k: nat)
    requires k < |ps|
    ensures |Concat(ps[..k])| + |ps[k]| <= |Concat(ps)|
    ensures Concat(ps)[|Concat(ps[..k])|..|Concat(ps[..k])| + |ps[k]|] == ps[k]
  {
    var n := |ps| - 1;
    var front := ps[..n];
    assert ps == front + [ps[n]];
    if k < n {
      ConcatAt(front, k);
      assert front[..k] == ps[..k] && front[k] == ps[k];
      var a := |Concat(ps[..k])|;
      assert (Concat(front) + ps[n])[a..a + |ps[k]|] == Concat(front)[a..a + |ps[k]|];
    } else {
      assert front == ps[..k];
      assert (Concat(front) + ps[n])[|Concat(front)|..] == ps[n];
    }
  }
}
