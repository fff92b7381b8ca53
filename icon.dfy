/**
 * The build script's binary helpers for the application icon: the CRC-32
 * table and checksum that PNG chunks carry (section 5.5 of the PNG
 * specification, ISO/IEC 15948), chunk framing (section 5.3), the
 * unfiltered scanlines and the IHDR header of an 8-bit RGBA image
 * (sections 9.2 and 11.2.2), and the ICO container that wraps PNG images.
 * The zlib compression of the scanlines is a parameter.
 */
module Icon {
  import opened Wrappers
  import opened Bytes

  const TWO_32: nat := 0x1_0000_0000

  // ---------------------------------------------------------------------
  // CRC-32

  /** The reflected CRC-32 polynomial. */
  const CRC_POLYNOMIAL: bv32 := 0xEDB8_8320

  /** One bit of the reflected CRC: shift right, folding in the polynomial when the bit shifted out is set. */
  function CrcStep(c: bv32): bv32
  {
    if c & 1 == 1 then CRC_POLYNOMIAL ^ (c >> 1) else c >> 1
  }

  /** `n` bit steps from `c`. */
  function CrcSteps(c: bv32, n: nat): bv32
  {
    if n == 0 then c else CrcStep(CrcSteps(c, n - 1))
  }

  /** `crcTable[i]`: eight bit steps from `i`. */
  function CrcEntry(i: nat): bv32
    requires i < 256
  {
    CrcSteps(i as bv32, 8)
  }

  /** The table a byte-at-a-time CRC needs. */
  ghost predicate CrcTable(table: array<bv32>)
    reads table
  {
    table.Length == 256 && forall i | 0 <= i < 256 :: table[i] == CrcEntry(i)
  }

  /** `crcTable`: for each index, eight shift-and-fold steps. */
  method BuildCrcTable() returns (table: array<bv32>)
    ensures fresh(table) && CrcTable(table)
  {
    table := new bv32[256];
    for i := 0 to 256
      invariant forall j | 0 <= j < i :: table[j] == CrcEntry(j)
    {
      var c: bv32 := i as bv32;
      for k := 0 to 8
        invariant c == CrcSteps(i as bv32, k)
      {
        c := if c & 1 == 1 then CRC_POLYNOMIAL ^ (c >> 1) else c >> 1;
      }
      table[i] := c;
    }
  }

  /** The familiar entries of the standard table: the polynomial sits at index 128. */
  lemma CrcTableSamples()
    ensures CrcEntry(0) == 0 && CrcEntry(1) == 0x7707_3096
    ensures CrcEntry(128) == CRC_POLYNOMIAL && CrcEntry(255) == 0x2D02_EF8D
  {
    assert CrcSteps(1, 4) == 0x1DB7_1064;
    assert CrcSteps(1, 8) == 0x7707_3096;
    assert CrcSteps(0x80, 4) == 0x8;
    assert CrcSteps(0x80, 8) == CRC_POLYNOMIAL;
    assert CrcSteps(0xFF, 2) == 0x9B64_C28F;
    assert CrcSteps(0xFF, 4) == 0xBDBD_F213;
    assert CrcSteps(0xFF, 6) == 0xB40B_BE34;
    assert CrcSteps(0xFF, 8) == 0x2D02_EF8D;
  }

  /** `(c ^ b) & 0xff`: the table index for folding byte `b` into register `c`. */
  function CrcIndex(c: bv32, b: byte): (i: nat)
    ensures i < 256
  {
    ((c ^ (b as bv32)) & 0xFF) as int
  }

  /** One byte folded into the register through the table. */
  function CrcUpdate(c: bv32, b: byte): bv32
  {
    CrcEntry(CrcIndex(c, b)) ^ (c >> 8)
  }

  /** The register after the bytes of `s` in order, from the all-ones start. */
  function CrcRegister(s: seq<byte>): bv32
  {
    if s == [] then 0xFFFF_FFFF else CrcUpdate(CrcRegister(s[..|s| - 1]), s[|s| - 1])
  }

  /** The CRC-32 of `s`: the final register inverted. */
  function Crc32Of(s: seq<byte>): bv32
  {
    CrcRegister(s) ^ 0xFFFF_FFFF
  }

  /** The register takes the bytes one at a time, in order. */
  lemma CrcRegisterSnoc(s: seq<byte>, b: byte)
    ensures CrcRegister(s + [b]) == CrcUpdate(CrcRegister(s), b)
  {
    assert (s + [b])[..|s|] == s;
  }

  /** The register after running `s` from `c`. */
  function CrcFrom(c: bv32, s: seq<byte>): bv32
  {
    if s == [] then c else CrcUpdate(CrcFrom(c, s[..|s| - 1]), s[|s| - 1])
  }

  /**
   * The CRC is incremental: the register after `a + b` is the register
   * after `a` run on through `b`, so a CRC can be computed piece by piece.
   */
  lemma {:induction false} CrcIncremental(a: seq<byte>, b: seq<byte>)
    ensures CrcRegister(a + b) == CrcFrom(CrcRegister(a), b)
    decreases |b|
  {
    if b == [] {
      assert a + b == a;
    } else {
      var init := b[..|b| - 1];
      CrcIncremental(a, init);
      assert (a + b)[..|a + b| - 1] == a + init;
    }
  }

  /** The CRC of no bytes is 0. */
  lemma Crc32Empty()
    ensures Crc32Of([]) == 0
  {
  }

  /** The loop of `crc32`: the register after the bytes of `buf`, one table lookup per byte. */
  method CrcFold(table: array<bv32>, buf: seq<byte>) returns (c: bv32)
    requires CrcTable(table)
    ensures c == CrcRegister(buf)
  {
    c := 0xFFFF_FFFF;
    for i := 0 to |buf|
      invariant c == CrcRegister(buf[..i])
    {
      assert buf[..i + 1][..i] == buf[..i];
      c := table[CrcIndex(c, buf[i])] ^ (c >> 8);
    }
    assert buf[..|buf|] == buf;
  }

  /** `crc32(buf)`. */
  method Crc32(table: array<bv32>, buf: seq<byte>) returns (crc: bv32)
    requires CrcTable(table)
    ensures crc == Crc32Of(buf)
  {
    var c := CrcFold(table, buf);
    crc := c ^ 0xFFFF_FFFF;
  }

  // ---------------------------------------------------------------------
  // Big-endian integers and PNG chunks

  /** The `n` low-order bytes of `v`, most significant first (`writeUInt32BE` for `n == 4`). */
  function BeBytes(v: nat, n: nat): (r: seq<byte>)
    ensures |r| == n
  {
    if n == 0 then [] else BeBytes(v / 256, n - 1) + [v % 256]
  }

  /** The unsigned value of big-endian bytes (`readUInt32BE` for four bytes). */
  function BeValue(s: seq<byte>): (v: nat)
    ensures v < Pow256(|s|)
  {
    if s == [] then 0 else 256 * BeValue(s[..|s| - 1]) + s[|s| - 1]
  }

  /** A value that fits reads back from its big-endian bytes. */
  lemma {:induction false} BeRoundTrip(v: nat, n: nat)
    requires v < Pow256(n)
    ensures BeValue(BeBytes(v, n)) == v
  {
    if n > 0 {
      var s := BeBytes(v, n);
      assert s[..n - 1] == BeBytes(v / 256, n - 1);
      BeRoundTrip(v / 256, n - 1);
    }
  }

  /** Bytes are recovered from their value: the encoding is injective. */
  lemma {:induction false} BeBytesOfValue(s: seq<byte>)
    ensures BeBytes(BeValue(s), |s|) == s
  {
    if s != [] {
      var init := s[..|s| - 1];
      var v := BeValue(s);
      assert v / 256 == BeValue(init) && v % 256 == s[|s| - 1];
      BeBytesOfValue(init);
    }
  }

  /** `buffer.writeUInt32BE(v, off)`; Node throws a RangeError for `v > 0xFFFF_FFFF`. */
  method PutU32BE(buf: array<byte>, off: nat, v: nat)
    requires off + 4 <= buf.Length && v < TWO_32
    modifies buf
    ensures buf[..] == Splice(old(buf[..]), off, BeBytes(v, 4))
  {
    buf[off] := v / 256 / 256 / 256;
    buf[off + 1] := (v / 256 / 256) % 256;
    buf[off + 2] := (v / 256) % 256;
    buf[off + 3] := v % 256;
    var w := v / 256 / 256 / 256;
    assert BeBytes(w, 1) == [w];
    assert BeBytes(v / 256 / 256, 2) == [w, (v / 256 / 256) % 256];
    assert BeBytes(v / 256, 3) == [w, (v / 256 / 256) % 256, (v / 256) % 256];
  }

  /** A CRC as the unsigned number `>>> 0` makes of it. */
  function CrcValue(crc: bv32): (v: nat)
    ensures v < TWO_32
  {
    crc as int
  }

  /** A chunk: its four-byte type and its data. */
  datatype PngChunk = PngChunk(kind: seq<byte>, data: seq<byte>)

  /** The four CRC bytes that end the chunk of type and data `s`. */
  function CrcBytes(s: seq<byte>): (r: seq<byte>)
    ensures |r| == 4
  {
    BeBytes(CrcValue(Crc32Of(s)), 4)
  }

  /** Length, type, data and trailer, in that order. */
  function Frame(kind: seq<byte>, data: seq<byte>, trailer: seq<byte>): (r: seq<byte>)
    ensures |r| == |kind| + |data| + |trailer| + 4
  {
    BeBytes(|data|, 4) + kind + data + trailer
  }

  /** `chunk(type, data)`: length, type, data and the CRC of type and data. */
  function ChunkBytes(kind: seq<byte>, data: seq<byte>): (r: seq<byte>)
    requires |data| < TWO_32
    ensures |r| == |kind| + |data| + 8
  {
    Frame(kind, data, CrcBytes(kind + data))
  }

  /** Reading a chunk back: the length must match, and the CRC must check. */
  function ParseChunk(b: seq<byte>): Option<PngChunk>
  {
    if |b| < 12 then None
    else
      var n := BeValue(b[..4]);
      if |b| != 12 + n then None
      else if b[8 + n..] != CrcBytes(b[4..8 + n]) then None
      else Some(PngChunk(b[4..8], b[8..8 + n]))
  }

  /** Where the four parts of `a + b + c + d` lie. */
  lemma Pieces(a: seq<byte>, b: seq<byte>, c: seq<byte>, d: seq<byte>)
    ensures var r := a + b + c + d;
      && r[..|a|] == a && r[|a|..|a| + |b|] == b && r[|a| + |b|..|a| + |b| + |c|] == c
      && r[|a|..|a| + |b| + |c|] == b + c && r[|a| + |b| + |c|..] == d
  {
  }

  /** Where the three parts of `a + b + c` lie. */
  lemma Pieces3(a: seq<byte>, b: seq<byte>, c: seq<byte>)
    ensures var r := a + b + c;
      r[..|a|] == a && r[|a|..|a| + |b|] == b && r[|a| + |b|..] == c
  {
  }

  /** Concatenation regrouped after its first part. */
  lemma Regroup(a: seq<byte>, b: seq<byte>, c: seq<byte>, d: seq<byte>, e: seq<byte>)
    ensures a + b + c + d + e == a + (b + c + d + e)
  {
  }

  /** The fields of a frame, where a reader finds them. */
  lemma FrameFields(kind: seq<byte>, data: seq<byte>, trailer: seq<byte>)
    requires |kind| == 4
    ensures var r := Frame(kind, data, trailer);
      && r[..4] == BeBytes(|data|, 4) && r[4..8] == kind && r[8..8 + |data|] == data
      && r[4..8 + |data|] == kind + data && r[8 + |data|..] == trailer
  {
    Pieces(BeBytes(|data|, 4), kind, data, trailer);
  }

  /** A chunk of four-byte type and data whose length fits reads back as written. */
  lemma ChunkRoundTrip(kind: seq<byte>, data: seq<byte>)
    requires |kind| == 4 && |data| < TWO_32
    ensures |ChunkBytes(kind, data)| == 12 + |data|
    ensures ParseChunk(ChunkBytes(kind, data)) == Some(PngChunk(kind, data))
  {
    FrameFields(kind, data, CrcBytes(kind + data));
    Pow256Values();
    BeRoundTrip(|data|, 4);
  }

  /** Whatever reads back as a chunk is exactly the bytes `chunk` writes for it. */
  lemma ParseChunkExact(b: seq<byte>)
    requires ParseChunk(b).Some?
    ensures |ParseChunk(b).value.data| < TWO_32
    ensures b == ChunkBytes(ParseChunk(b).value.kind, ParseChunk(b).value.data)
  {
    var n := BeValue(b[..4]);
    Pow256Values();
    var kind, data := b[4..8], b[8..8 + n];
    assert ParseChunk(b).value == PngChunk(kind, data);
    var len, crc := b[..4], b[8 + n..];
    assert BeBytes(|data|, 4) == len by {
      BeBytesOfValue(len);
    }
    assert crc == CrcBytes(kind + data) by {
      assert kind + data == b[4..8 + n];
    }
    assert b == len + kind + data + crc by {
      Cuts(b, 4, 8, 8 + n);
    }
  }

  /** A sequence is the concatenation of its pieces between three cuts. */
  lemma Cuts(b: seq<byte>, i: nat, j: nat, k: nat)
    requires i <= j <= k <= |b|
    ensures b == b[..i] + b[i..j] + b[j..k] + b[k..]
  {
  }

  /** `chunk(type, data)`: the CRC computed over the type and data, then the pieces concatenated. */
  method Chunk(table: array<bv32>, kind: seq<byte>, data: seq<byte>) returns (out: seq<byte>)
    requires CrcTable(table) && |data| < TWO_32
    ensures out == ChunkBytes(kind, data)
  {
    var lengthBuf := Alloc(4);
    ghost var blank := lengthBuf[..];
    PutU32BE(lengthBuf, 0, |data|);
    var len := lengthBuf[..];
    assert len == BeBytes(|data|, 4) by {
      SpliceWhole(blank, BeBytes(|data|, 4));
    }
    var crcBuf := Alloc(4);
    var crc := Crc32(table, kind + data);
    blank := crcBuf[..];
    PutU32BE(crcBuf, 0, CrcValue(crc));
    var sum := crcBuf[..];
    assert sum == CrcBytes(kind + data) by {
      SpliceWhole(blank, BeBytes(CrcValue(crc), 4));
    }
    out := len + kind + data + sum;
  }

  // ---------------------------------------------------------------------
  // encodePNG

  /** The eight bytes every PNG file starts with. */
  const PNG_SIGNATURE: seq<byte> := [0x89, 0x50, 0x4E, 0x47, 0x0D, 0x0A, 0x1A, 0x0A]
  /** The chunk types "IHDR", "IDAT" and "IEND" in ASCII. */
  const IHDR: seq<byte> := [0x49, 0x48, 0x44, 0x52]
  const IDAT: seq<byte> := [0x49, 0x44, 0x41, 0x54]
  const IEND: seq<byte> := [0x49, 0x45, 0x4E, 0x44]

  /** Where row `y` starts when rows are `w` bytes long, counted row by row. */
  function RowOffset(y: nat, w: nat): nat
  {
    if y == 0 then 0 else RowOffset(y - 1, w) + w
  }

  /** Counting rows is multiplying. */
  lemma {:induction false} RowOffsetProduct(y: nat, w: nat)
    ensures RowOffset(y, w) == y * w
  {
    if y > 0 {
      RowOffsetProduct(y - 1, w);
      assert (y - 1) * w + w == y * w;
    }
  }

  /** Earlier rows start no later. */
  lemma {:induction false} RowOffsetMono(y: nat, h: nat, w: nat)
    requires y <= h
    ensures RowOffset(y, w) <= RowOffset(h, w)
  {
    if y < h {
      RowOffsetMono(y, h - 1, w);
    }
  }

  /**
   * The raw image data of `height` rows of `rowLen` bytes each: every row is
   * preceded by its filter type byte, 0 (no filtering).
   */
  function Scanlines(rgba: seq<byte>, rowLen: nat, height: nat): (raw: seq<byte>)
    requires |rgba| == RowOffset(height, rowLen)
    ensures |raw| == RowOffset(height, rowLen + 1)
    decreases height
  {
    if height == 0 then []
    else
      var cut := RowOffset(height - 1, rowLen);
      Scanlines(rgba[..cut], rowLen, height - 1) + [0] + rgba[cut..]
  }

  /** The raw data of the first `k` rows is the start of the raw data of all of them. */
  lemma {:induction false} ScanlinesPrefix(rgba: seq<byte>, rowLen: nat, height: nat, k: nat)
    requires |rgba| == RowOffset(height, rowLen) && k <= height
    ensures RowOffset(k, rowLen) <= |rgba| && RowOffset(k, rowLen + 1) <= RowOffset(height, rowLen + 1)
    ensures Scanlines(rgba, rowLen, height)[..RowOffset(k, rowLen + 1)]
         == Scanlines(rgba[..RowOffset(k, rowLen)], rowLen, k)
    decreases height
  {
    RowOffsetMono(k, height, rowLen);
    RowOffsetMono(k, height, rowLen + 1);
    if k == height {
      assert rgba[..RowOffset(k, rowLen)] == rgba;
    } else {
      var cut := RowOffset(height - 1, rowLen);
      var front := Scanlines(rgba[..cut], rowLen, height - 1);
      var raw := Scanlines(rgba, rowLen, height);
      var n := RowOffset(k, rowLen + 1);
      ScanlinesPrefix(rgba[..cut], rowLen, height - 1, k);
      assert raw[..|front|] == front;
      assert raw[..n] == front[..n];
      assert rgba[..cut][..RowOffset(k, rowLen)] == rgba[..RowOffset(k, rowLen)];
    }
  }

  /** Row `y` of the raw data: filter byte 0, then row `y` of the pixels. */
  lemma ScanlineRow(rgba: seq<byte>, rowLen: nat, height: nat, y: nat)
    requires |rgba| == RowOffset(height, rowLen) && y < height
    ensures RowOffset(y + 1, rowLen + 1) <= RowOffset(height, rowLen + 1)
    ensures RowOffset(y + 1, rowLen) <= |rgba|
    ensures Scanlines(rgba, rowLen, height)[RowOffset(y, rowLen + 1)] == 0
    ensures Scanlines(rgba, rowLen, height)[RowOffset(y, rowLen + 1) + 1..RowOffset(y + 1, rowLen + 1)]
         == rgba[RowOffset(y, rowLen)..RowOffset(y + 1, rowLen)]
  {
    var raw := Scanlines(rgba, rowLen, height);
    var start, stop := RowOffset(y, rowLen + 1), RowOffset(y + 1, rowLen + 1);
    var from, to := RowOffset(y, rowLen), RowOffset(y + 1, rowLen);
    ScanlinesPrefix(rgba, rowLen, height, y + 1);
    var rows := rgba[..to];
    var upTo := Scanlines(rows, rowLen, y + 1);
    assert upTo == Scanlines(rows[..from], rowLen, y) + [0] + rows[from..];
    Pieces3(Scanlines(rows[..from], rowLen, y), [0], rows[from..]);
    assert raw[..stop] == upTo;
    assert raw[start] == upTo[start];
    assert raw[start + 1..stop] == upTo[start + 1..];
  }

  /** Dropping the filter bytes again: the inverse of `Scanlines`. */
  function Unfilter(raw: seq<byte>, rowLen: nat, height: nat): (rgba: seq<byte>)
    requires |raw| == RowOffset(height, rowLen + 1)
    ensures |rgba| == RowOffset(height, rowLen)
    decreases height
  {
    if height == 0 then []
    else
      var cut := RowOffset(height - 1, rowLen + 1);
      Unfilter(raw[..cut], rowLen, height - 1) + raw[cut + 1..]
  }

  /** The pixels are recovered from the raw data. */
  lemma {:induction false} ScanlinesRoundTrip(rgba: seq<byte>, rowLen: nat, height: nat)
    requires |rgba| == RowOffset(height, rowLen)
    ensures Unfilter(Scanlines(rgba, rowLen, height), rowLen, height) == rgba
    decreases height
  {
    if height > 0 {
      var cut := RowOffset(height - 1, rowLen);
      var front := Scanlines(rgba[..cut], rowLen, height - 1);
      var raw := Scanlines(rgba, rowLen, height);
      Pieces3(front, [0], rgba[cut..]);
      ScanlinesRoundTrip(rgba[..cut], rowLen, height - 1);
      assert rgba == rgba[..cut] + rgba[cut..];
    }
  }

  /** One more row appended to the raw data. */
  lemma ScanlinesSnoc(rgba: seq<byte>, rowLen: nat, y: nat)
    requires RowOffset(y + 1, rowLen) <= |rgba|
    ensures Scanlines(rgba[..RowOffset(y + 1, rowLen)], rowLen, y + 1)
         == Scanlines(rgba[..RowOffset(y, rowLen)], rowLen, y) + ([0] + rgba[RowOffset(y, rowLen)..RowOffset(y + 1, rowLen)])
  {
    var next := rgba[..RowOffset(y + 1, rowLen)];
    var done := Scanlines(rgba[..RowOffset(y, rowLen)], rowLen, y);
    var row := rgba[RowOffset(y, rowLen)..RowOffset(y + 1, rowLen)];
    assert next[..RowOffset(y, rowLen)] == rgba[..RowOffset(y, rowLen)];
    assert done + [0] + row == done + ([0] + row);
  }

  /** One pass of the row loop of `encodePNG`: the filter byte of row `y`, then the row copied after it. */
  method WriteRow(raw: array<byte>, rgba: seq<byte>, rowLen: nat, y: nat)
    requires RowOffset(y + 1, rowLen + 1) <= raw.Length && RowOffset(y + 1, rowLen) <= |rgba|
    modifies raw
    ensures raw[..] == Splice(old(raw[..]), RowOffset(y, rowLen + 1),
                              [0] + rgba[RowOffset(y, rowLen)..RowOffset(y + 1, rowLen)])
  {
    RowOffsetProduct(y, rowLen + 1);
    RowOffsetProduct(y, rowLen);
    RowOffsetProduct(y + 1, rowLen);
    var rowStart := y * (rowLen + 1);
    ghost var before := raw[..];
    raw[rowStart] := 0;
    SpliceOne(before, rowStart, 0);
    var row := rgba[y * rowLen..(y + 1) * rowLen];
    ghost var after := raw[..];
    CopyInto(raw, rowStart + 1, row);
    SpliceAppend(before, rowStart, [0], row);
  }

  /** After row `y` is written, the buffer holds the raw data of the rows up to `y`. */
  lemma RawStep(blank: seq<byte>, before: seq<byte>, after: seq<byte>, rgba: seq<byte>, rowLen: nat, y: nat)
    requires RowOffset(y + 1, rowLen) <= |rgba| && RowOffset(y + 1, rowLen + 1) <= |blank|
    requires before == Splice(blank, 0, Scanlines(rgba[..RowOffset(y, rowLen)], rowLen, y))
    requires after == Splice(before, RowOffset(y, rowLen + 1), [0] + rgba[RowOffset(y, rowLen)..RowOffset(y + 1, rowLen)])
    ensures after == Splice(blank, 0, Scanlines(rgba[..RowOffset(y + 1, rowLen)], rowLen, y + 1))
  {
    var done := Scanlines(rgba[..RowOffset(y, rowLen)], rowLen, y);
    var row := [0] + rgba[RowOffset(y, rowLen)..RowOffset(y + 1, rowLen)];
    SpliceStep(before, blank, 0, done, RowOffset(y, rowLen + 1), row);
    ScanlinesSnoc(rgba, rowLen, y);
  }

  /**
   * The loop of `encodePNG` that lays out the raw scanlines in a zeroed
   * buffer; `rgba` holds `height` rows of `4 * width` bytes (that is,
   * `4 * width * height` bytes, by `RowOffsetProduct`).
   */
  method EncodeRaw(width: nat, height: nat, rgba: seq<byte>) returns (raw: array<byte>)
    requires |rgba| == RowOffset(height, 4 * width)
    ensures fresh(raw) && raw[..] == Scanlines(rgba, 4 * width, height)
  {
    var rowLen := 4 * width;
    raw := Alloc((rowLen + 1) * height);
    assert raw.Length == RowOffset(height, rowLen + 1) by {
      RowOffsetProduct(height, rowLen + 1);
    }
    ghost var blank := raw[..];
    assert Splice(blank, 0, []) == blank;
    for y := 0 to height
      invariant RowOffset(y, rowLen) <= |rgba|
      invariant raw.Length == RowOffset(height, rowLen + 1) && RowOffset(y, rowLen + 1) <= raw.Length
      invariant raw[..] == Splice(blank, 0, Scanlines(rgba[..RowOffset(y, rowLen)], rowLen, y))
    {
      RowOffsetMono(y + 1, height, rowLen);
      RowOffsetMono(y + 1, height, rowLen + 1);
      ghost var before := raw[..];
      WriteRow(raw, rgba, rowLen, y);
      RawStep(blank, before, raw[..], rgba, rowLen, y);
    }
    assert raw[..] == Scanlines(rgba, rowLen, height) by {
      assert rgba[..RowOffset(height, rowLen)] == rgba;
      SpliceWhole(blank, Scanlines(rgba, rowLen, height));
    }
  }

  /** The 13 bytes of IHDR: width, height, bit depth 8, colour type 6 (RGBA), no interlace. */
  function IhdrData(width: nat, height: nat): (r: seq<byte>)
    ensures |r| == 13
  {
    BeBytes(width, 4) + BeBytes(height, 4) + [8, 6, 0, 0, 0]
  }

  /** The IHDR fields read back: width and height, then the five format bytes. */
  lemma IhdrFields(width: nat, height: nat)
    requires width < TWO_32 && height < TWO_32
    ensures BeValue(IhdrData(width, height)[..4]) == width
    ensures BeValue(IhdrData(width, height)[4..8]) == height
    ensures IhdrData(width, height)[8..] == [8, 6, 0, 0, 0]
  {
    Pieces3(BeBytes(width, 4), BeBytes(height, 4), [8, 6, 0, 0, 0]);
    Pow256Values();
    BeRoundTrip(width, 4);
    BeRoundTrip(height, 4);
  }

  /** The IHDR buffer of `encodePNG`, written field by field. */
  method Ihdr(width: nat, height: nat) returns (ihdr: seq<byte>)
    requires width < TWO_32 && height < TWO_32
    ensures ihdr == IhdrData(width, height)
  {
    var buf := Alloc(13);
    ghost var b0 := buf[..];
    PutU32BE(buf, 0, width);
    PutU32BE(buf, 4, height);
    SpliceAppend(b0, 0, BeBytes(width, 4), BeBytes(height, 4));
    ghost var b2 := buf[..];
    buf[8] := 8;
    buf[9] := 6;
    buf[10] := 0;
    buf[11] := 0;
    buf[12] := 0;
    ihdr := buf[..];
    assert ihdr[..8] == b2[..8] == BeBytes(width, 4) + BeBytes(height, 4);
    assert ihdr == ihdr[..8] + ihdr[8..];
  }

  /** The file `encodePNG` returns when the scanlines compress to `idat`. */
  function PngBytes(width: nat, height: nat, idat: seq<byte>): (png: seq<byte>)
    requires |idat| < TWO_32
    ensures |png| == 57 + |idat|
  {
    PNG_SIGNATURE + ChunkBytes(IHDR, IhdrData(width, height)) + ChunkBytes(IDAT, idat) + ChunkBytes(IEND, [])
  }

  /**
   * `encodePNG(width, height, rgba)`: the scanlines, the IHDR buffer, the
   * compressed scanlines, then signature and three chunks. `deflate` stands
   * for `zlib.deflateSync`.
   */
  method EncodePng(table: array<bv32>, width: nat, height: nat, rgba: seq<byte>, deflate: seq<byte> -> seq<byte>)
    returns (png: seq<byte>)
    requires CrcTable(table) && width < TWO_32 && height < TWO_32
    requires |rgba| == RowOffset(height, 4 * width)
    requires |deflate(Scanlines(rgba, 4 * width, height))| < TWO_32
    ensures png == PngBytes(width, height, deflate(Scanlines(rgba, 4 * width, height)))
  {
    var raw := EncodeRaw(width, height, rgba);
    var ihdr := Ihdr(width, height);
    var idat := deflate(raw[..]);
    var head := Chunk(table, IHDR, ihdr);
    var body := Chunk(table, IDAT, idat);
    var tail := Chunk(table, IEND, []);
    png := PNG_SIGNATURE + head + body + tail;
  }

  /** What a reader of the file finds at the fixed offsets: signature, IHDR type, width and height. */
  lemma PngHeader(width: nat, height: nat, idat: seq<byte>)
    requires width < TWO_32 && height < TWO_32 && |idat| < TWO_32
    ensures PngBytes(width, height, idat)[..8] == PNG_SIGNATURE
    ensures PngBytes(width, height, idat)[12..16] == IHDR
    ensures BeValue(PngBytes(width, height, idat)[16..20]) == width
    ensures BeValue(PngBytes(width, height, idat)[20..24]) == height
  {
    var ihdr := IhdrData(width, height);
    var trailer := CrcBytes(IHDR + ihdr);
    HeadFields(ihdr, trailer, ChunkBytes(IDAT, idat), ChunkBytes(IEND, []));
    IhdrFields(width, height);
  }

  /** The fixed offsets of a file that starts with the signature and an IHDR frame. */
  lemma HeadFields(ihdr: seq<byte>, trailer: seq<byte>, c2: seq<byte>, c3: seq<byte>)
    requires |ihdr| == 13 && |trailer| == 4
    ensures var png := PNG_SIGNATURE + Frame(IHDR, ihdr, trailer) + c2 + c3;
      && png[..8] == PNG_SIGNATURE && png[12..16] == IHDR
      && png[16..20] == ihdr[..4] && png[20..24] == ihdr[4..8]
  {
    var head := Frame(IHDR, ihdr, trailer);
    var png := PNG_SIGNATURE + head + c2 + c3;
    assert png[..8] == PNG_SIGNATURE && png[8..33] == head by {
      Pieces(PNG_SIGNATURE, head, c2, c3);
    }
    assert head[4..8] == IHDR && head[8..21] == ihdr by {
      FrameFields(IHDR, ihdr, trailer);
    }
    assert png[12..16] == IHDR by {
      SliceOfSlice(png, 8, 33, 4, 8);
    }
    assert png[16..20] == ihdr[..4] by {
      SliceOfSlice(png, 8, 33, 8, 12);
      SliceOfSlice(head, 8, 21, 0, 4);
    }
    assert png[20..24] == ihdr[4..8] by {
      SliceOfSlice(png, 8, 33, 12, 16);
      SliceOfSlice(head, 8, 21, 4, 8);
    }
  }

  /** The three chunks of the file read back as the chunks written. */
  lemma PngChunks(width: nat, height: nat, idat: seq<byte>)
    requires width < TWO_32 && height < TWO_32 && |idat| < TWO_32
    ensures ParseChunk(PngBytes(width, height, idat)[8..33]) == Some(PngChunk(IHDR, IhdrData(width, height)))
    ensures ParseChunk(PngBytes(width, height, idat)[33..45 + |idat|]) == Some(PngChunk(IDAT, idat))
    ensures ParseChunk(PngBytes(width, height, idat)[45 + |idat|..]) == Some(PngChunk(IEND, []))
  {
    Pieces(PNG_SIGNATURE, ChunkBytes(IHDR, IhdrData(width, height)), ChunkBytes(IDAT, idat), ChunkBytes(IEND, []));
    ChunkRoundTrip(IHDR, IhdrData(width, height));
    ChunkRoundTrip(IDAT, idat);
    ChunkRoundTrip(IEND, []);
  }

  // ---------------------------------------------------------------------
  // buildIco

  /** The directory byte for a dimension: `v >= 256 ? 0 : v`, where 0 stands for 256. */
  function Dim(v: nat): byte
  {
    if v >= 256 then 0 else v
  }

  /** The six-byte header: reserved 0, type 1 (icon), the number of images; all little-endian. */
  function IcoHeader(count: nat): (r: seq<byte>)
    ensures |r| == 6
  {
    LeBytes(0, 2) + LeBytes(1, 2) + LeBytes(count, 2)
  }

  /**
   * The 16-byte directory entry of `png` stored at `offset`: width and height
   * (read big-endian at 16 and 20, as IHDR holds them), no palette, reserved 0,
   * one colour plane, 32 bits per pixel, then byte size and offset.
   */
  function IcoEntry(png: seq<byte>, offset: nat): (r: seq<byte>)
    requires 24 <= |png|
    ensures |r| == 16
  {
    [Dim(BeValue(png[16..20])), Dim(BeValue(png[20..24])), 0, 0]
      + LeBytes(1, 2) + LeBytes(32, 2) + LeBytes(|png|, 4) + LeBytes(offset, 4)
  }

  /** An entry's fields read back: the dimension bytes, the size and the offset. */
  lemma IcoEntryFields(png: seq<byte>, offset: nat)
    requires 24 <= |png| < TWO_32 && offset < TWO_32
    ensures IcoEntry(png, offset)[0] == Dim(BeValue(png[16..20]))
    ensures IcoEntry(png, offset)[1] == Dim(BeValue(png[20..24]))
    ensures LeValue(IcoEntry(png, offset)[8..12]) == |png|
    ensures LeValue(IcoEntry(png, offset)[12..16]) == offset
  {
    var dims := [Dim(BeValue(png[16..20])), Dim(BeValue(png[20..24])), 0, 0];
    var e := IcoEntry(png, offset);
    Pieces3(dims + LeBytes(1, 2) + LeBytes(32, 2), LeBytes(|png|, 4), LeBytes(offset, 4));
    assert e[12..16] == e[12..];
    Pow256Values();
    LeRoundTrip(|png|, 4);
    LeRoundTrip(offset, 4);
  }

  /** Where image `k` starts: after the header, the whole directory and the images before it. */
  function ImageOffset(pngs: seq<seq<byte>>, k: nat): nat
    requires k <= |pngs|
  {
    6 + 16 * |pngs| + |Concat(pngs[..k])|
  }

  /**
   * What `buildIco` needs for Node's buffer writes not to throw: a count
   * that fits 16 bits, images long enough to hold the IHDR size fields, and
   * sizes and offsets that fit 32 bits.
   */
  predicate IcoInput(pngs: seq<seq<byte>>)
  {
    && |pngs| < 0x1_0000
    && forall k | 0 <= k < |pngs| :: ImageFits(pngs, k)
  }

  /** Image `k` holds the IHDR size fields, and its size and offset fit 32 bits. */
  predicate ImageFits(pngs: seq<seq<byte>>, k: nat)
    requires k < |pngs|
  {
    24 <= |pngs[k]| < TWO_32 && ImageOffset(pngs, k) < TWO_32
  }

  /** The directory entries of the first `n` images. */
  function Entries(pngs: seq<seq<byte>>, n: nat): seq<seq<byte>>
    requires IcoInput(pngs) && n <= |pngs|
  {
    seq(n, k requires 0 <= k < n => assert ImageFits(pngs, k); IcoEntry(pngs[k], ImageOffset(pngs, k)))
  }

  /** The file `buildIco(pngs)` returns: header, directory, images. */
  function IcoBytes(pngs: seq<seq<byte>>): seq<byte>
    requires IcoInput(pngs)
  {
    IcoHeader(|pngs|) + Concat(Entries(pngs, |pngs|)) + Concat(pngs)
  }

  /** The header buffer of `buildIco`. */
  method WriteIcoHeader(count: nat) returns (header: seq<byte>)
    requires count < 0x1_0000
    ensures header == IcoHeader(count)
  {
    var buf := Alloc(6);
    ghost var b0 := buf[..];
    PutU16(buf, 0, 0);
    PutU16(buf, 2, 1);
    SpliceAppend(b0, 0, LeBytes(0, 2), LeBytes(1, 2));
    PutU16(buf, 4, count);
    SpliceAppend(b0, 0, LeBytes(0, 2) + LeBytes(1, 2), LeBytes(count, 2));
    SpliceWhole(b0, IcoHeader(count));
    header := buf[..];
  }

  /** One directory entry of `buildIco`, written field by field. */
  method WriteIcoEntry(png: seq<byte>, offset: nat) returns (entry: seq<byte>)
    requires 24 <= |png| < TWO_32 && offset < TWO_32
    ensures entry == IcoEntry(png, offset)
  {
    var width := BeValue(png[16..20]);
    var height := BeValue(png[20..24]);
    var buf := Alloc(16);
    buf[0] := if width >= 256 then 0 else width;
    buf[1] := if height >= 256 then 0 else height;
    buf[2] := 0;
    buf[3] := 0;
    ghost var b0 := buf[..];
    assert b0[..4] == [Dim(width), Dim(height), 0, 0];
    ghost var one, bits, size, at := LeBytes(1, 2), LeBytes(32, 2), LeBytes(|png|, 4), LeBytes(offset, 4);
    PutU16(buf, 4, 1);
    ghost var b1 := buf[..];
    PutU16(buf, 6, 32);
    ghost var b2 := buf[..];
    assert b2 == Splice(b0, 4, one + bits) by {
      SpliceAppend(b0, 4, one, bits);
    }
    PutU32(buf, 8, |png|);
    ghost var b3 := buf[..];
    assert b3 == Splice(b0, 4, one + bits + size) by {
      SpliceAppend(b0, 4, one + bits, size);
    }
    PutU32(buf, 12, offset);
    entry := buf[..];
    assert entry == Splice(b0, 4, one + bits + size + at) by {
      SpliceAppend(b0, 4, one + bits + size, at);
    }
    assert entry == b0[..4] + (one + bits + size + at);
    Regroup(b0[..4], one, bits, size, at);
  }

  /** One more image: its entry, its offset and the offset after it. */
  lemma IcoStep(pngs: seq<seq<byte>>, i: nat)
    requires IcoInput(pngs) && i < |pngs|
    ensures ImageFits(pngs, i)
    ensures ImageOffset(pngs, i + 1) == ImageOffset(pngs, i) + |pngs[i]|
    ensures Entries(pngs, i + 1) == Entries(pngs, i) + [IcoEntry(pngs[i], ImageOffset(pngs, i))]
    ensures pngs[..i + 1] == pngs[..i] + [pngs[i]]
  {
    assert ImageFits(pngs, i);
    assert pngs[..i + 1][..i] == pngs[..i];
  }

  /** `buildIco(pngBuffers)`: the header, then one entry per image with running offsets, then the images. */
  method BuildIco(pngs: seq<seq<byte>>) returns (ico: seq<byte>)
    requires IcoInput(pngs)
    ensures ico == IcoBytes(pngs)
  {
    var count := |pngs|;
    var header := WriteIcoHeader(count);
    var offset := 6 + count * 16;
    var entries: seq<seq<byte>> := [];
    var images: seq<seq<byte>> := [];
    for i := 0 to count
      invariant offset == ImageOffset(pngs, i)
      invariant entries == Entries(pngs, i)
      invariant images == pngs[..i]
    {
      var png := pngs[i];
      IcoStep(pngs, i);
      var entry := WriteIcoEntry(png, offset);
      offset := offset + |png|;
      entries := entries + [entry];
      images := images + [png];
    }
    assert images == pngs;
    ico := header + Concat(entries) + Concat(images);
  }

  /** Parts of 16 bytes each: the first `k` of them take `16 * k` bytes. */
  lemma {:induction false} ConcatEntries(parts: seq<seq<byte>>, k: nat)
    requires k <= |parts| && forall j | 0 <= j < |parts| :: |parts[j]| == 16
    ensures |Concat(parts[..k])| == 16 * k
  {
    if k > 0 {
      ConcatEntries(parts, k - 1);
      assert parts[..k][..k - 1] == parts[..k - 1];
    }
  }

  /** Where header, directory and images lie in the file. */
  lemma IcoParts(pngs: seq<seq<byte>>)
    requires IcoInput(pngs)
    ensures |Concat(Entries(pngs, |pngs|))| == 16 * |pngs|
    ensures |IcoBytes(pngs)| == 6 + 16 * |pngs| + |Concat(pngs)|
    ensures IcoBytes(pngs)[..6] == IcoHeader(|pngs|)
    ensures IcoBytes(pngs)[6..6 + 16 * |pngs|] == Concat(Entries(pngs, |pngs|))
    ensures IcoBytes(pngs)[6 + 16 * |pngs|..] == Concat(pngs)
  {
    var entries := Entries(pngs, |pngs|);
    ConcatEntries(entries, |entries|);
    assert entries[..|entries|] == entries;
    Pieces3(IcoHeader(|pngs|), Concat(entries), Concat(pngs));
  }

  /** The header fields of the file, and its length: header, 16 bytes per image, the images. */
  lemma IcoLayout(pngs: seq<seq<byte>>)
    requires IcoInput(pngs)
    ensures |IcoBytes(pngs)| == 6 + 16 * |pngs| + |Concat(pngs)|
    ensures LeValue(IcoBytes(pngs)[..2]) == 0
    ensures LeValue(IcoBytes(pngs)[2..4]) == 1
    ensures LeValue(IcoBytes(pngs)[4..6]) == |pngs|
  {
    var ico := IcoBytes(pngs);
    IcoParts(pngs);
    Pieces3(LeBytes(0, 2), LeBytes(1, 2), LeBytes(|pngs|, 2));
    SliceOfSlice(ico, 0, 6, 0, 2);
    SliceOfSlice(ico, 0, 6, 2, 4);
    SliceOfSlice(ico, 0, 6, 4, 6);
    Pow256Values();
    LeRoundTrip(0, 2);
    LeRoundTrip(1, 2);
    LeRoundTrip(|pngs|, 2);
  }

  /** Directory entry `k` sits at `6 + 16 * k` and describes image `k` at its offset. */
  lemma IcoEntryAt(pngs: seq<seq<byte>>, k: nat)
    requires IcoInput(pngs) && k < |pngs|
    ensures ImageFits(pngs, k) && 6 + 16 * k + 16 <= |IcoBytes(pngs)|
    ensures IcoBytes(pngs)[6 + 16 * k..6 + 16 * k + 16] == IcoEntry(pngs[k], ImageOffset(pngs, k))
  {
    assert ImageFits(pngs, k);
    var dir := Concat(Entries(pngs, |pngs|));
    var ico := IcoBytes(pngs);
    var n := |pngs|;
    assert 6 + 16 * n <= |ico| && ico[6..6 + 16 * n] == dir by {
      IcoParts(pngs);
    }
    assert dir[16 * k..16 * k + 16] == IcoEntry(pngs[k], ImageOffset(pngs, k)) by {
      DirectoryAt(pngs, k);
    }
    assert ico[6 + 16 * k..6 + 16 * k + 16] == dir[16 * k..16 * k + 16] by {
      SliceOfSlice(ico, 6, 6 + 16 * n, 16 * k, 16 * k + 16);
    }
  }

  /** Entry `k` is the `k`-th run of 16 bytes of the directory. */
  lemma DirectoryAt(pngs: seq<seq<byte>>, k: nat)
    requires IcoInput(pngs) && k < |pngs|
    ensures ImageFits(pngs, k) && 16 * k + 16 <= |Concat(Entries(pngs, |pngs|))|
    ensures Concat(Entries(pngs, |pngs|))[16 * k..16 * k + 16] == IcoEntry(pngs[k], ImageOffset(pngs, k))
  {
    assert ImageFits(pngs, k);
    var entries := Entries(pngs, |pngs|);
    ConcatAt(entries, k);
    ConcatEntries(entries, k);
  }

  /** Image `k` sits at `ImageOffset(pngs, k)`, byte for byte. */
  lemma IcoImageAt(pngs: seq<seq<byte>>, k: nat)
    requires IcoInput(pngs) && k < |pngs|
    ensures ImageOffset(pngs, k) + |pngs[k]| <= |IcoBytes(pngs)|
    ensures IcoBytes(pngs)[ImageOffset(pngs, k)..ImageOffset(pngs, k) + |pngs[k]|] == pngs[k]
  {
    var ico := IcoBytes(pngs);
    var start := 6 + 16 * |pngs|;
    var images := Concat(pngs);
    assert start <= |ico| && ico[start..] == images by {
      IcoParts(pngs);
    }
    var at, len := |Concat(pngs[..k])|, |pngs[k]|;
    assert at + len <= |images| && images[at..at + len] == pngs[k] by {
      ConcatAt(pngs, k);
    }
    assert ImageOffset(pngs, k) == start + at;
    assert ico[start + at..start + at + len] == pngs[k] by {
      SliceThrough(ico, start, images, at, len);
    }
  }

  /** A slice of a suffix is a slice of the whole. */
  lemma SliceThrough(s: seq<byte>, start: nat, tail: seq<byte>, at: nat, len: nat)
    requires start <= |s| && s[start..] == tail && at + len <= |tail|
    ensures start + at + len <= |s| && s[start + at..start + at + len] == tail[at..at + len]
  {
    SubSlice(s, start, at, at + len);
  }

  /**
   * Reading the file back through its directory: entry `k`'s size and
   * offset fields locate image `k` exactly, and its first two bytes are the
   * image's IHDR width and height as directory bytes.
   */
  lemma IcoDirectoryReadsBack(pngs: seq<seq<byte>>, k: nat)
    requires IcoInput(pngs) && k < |pngs|
    ensures ImageFits(pngs, k) && 6 + 16 * k + 16 <= |IcoBytes(pngs)|
    ensures var e := IcoBytes(pngs)[6 + 16 * k..6 + 16 * k + 16];
      var size, offset := LeValue(e[8..12]), LeValue(e[12..16]);
      && e[0] == Dim(BeValue(pngs[k][16..20])) && e[1] == Dim(BeValue(pngs[k][20..24]))
      && size == |pngs[k]| && offset == ImageOffset(pngs, k)
      && offset + size <= |IcoBytes(pngs)| && IcoBytes(pngs)[offset..offset + size] == pngs[k]
  {
    IcoEntryAt(pngs, k);
    IcoImageAt(pngs, k);
    IcoEntryFields(pngs[k], ImageOffset(pngs, k));
  }

  /** An icon image made by `encodePNG` gets its own width and height in the directory. */
  lemma IcoOfEncodedPng(pngs: seq<seq<byte>>, k: nat, width: nat, height: nat, idat: seq<byte>)
    requires IcoInput(pngs) && k < |pngs| && width < TWO_32 && height < TWO_32
    requires |idat| < TWO_32 && pngs[k] == PngBytes(width, height, idat)
    ensures 6 + 16 * k + 16 <= |IcoBytes(pngs)|
    ensures IcoBytes(pngs)[6 + 16 * k] == Dim(width)
    ensures IcoBytes(pngs)[6 + 16 * k + 1] == Dim(height)
  {
    var e := IcoBytes(pngs)[6 + 16 * k..6 + 16 * k + 16] by {
      IcoParts(pngs);
    }
    assert e[0] == Dim(BeValue(pngs[k][16..20])) && e[1] == Dim(BeValue(pngs[k][20..24])) by {
      IcoDirectoryReadsBack(pngs, k);
    }
    assert BeValue(pngs[k][16..20]) == width && BeValue(pngs[k][20..24]) == height by {
      PngHeader(width, height, idat);
    }
  }
}
