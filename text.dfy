/**
 * Fixed-width text fields. The bytes are Windows-1251 code units; the
 * transcoding to and from Unicode is left abstract, so text is the byte
 * string itself.
 */
module FixedText {
  import opened Bytes

  /** `readString`: the span with its trailing NUL bytes removed. */
  function ReadString(span: seq<byte>): (text: seq<byte>)
    ensures |text| <= |span| && text == span[..|text|]
    ensures text == [] || text[|text| - 1] != 0
    ensures forall k | |text| <= k < |span| :: span[k] == 0
  {
    if span == [] || span[|span| - 1] != 0 then span else ReadString(span[..|span| - 1])
  }

  /**
   * The `n` bytes `writeString` leaves in its span: the span is zero-filled
   * and then the first `min(|value|, n)` bytes of the text are copied in.
   */
  function TextField(value: seq<byte>, n: nat): (field: seq<byte>)
    ensures |field| == n
    ensures field[..Min(|value|, n)] == value[..Min(|value|, n)]
    ensures forall k | Min(|value|, n) <= k < n :: field[k] == 0
  {
    if |value| == 0 then Zeros(n) else value[..Min(|value|, n)] + Zeros(n - Min(|value|, n))
  }

  /** A text that survives a write/read cycle in a span of `n` bytes. */
  predicate FitsField(value: seq<byte>, n: nat)
  {
    |value| <= n && (value == [] || value[|value| - 1] != 0)
  }

  /** Reading back stripped NULs that follow the text. */
  lemma {:induction false} ReadPadded(value: seq<byte>, pad: nat)
    ensures ReadString(value + Zeros(pad)) == ReadString(value)
  {
    if pad > 0 {
      var s := value + Zeros(pad);
      assert s[..|s| - 1] == value + Zeros(pad - 1);
      ReadPadded(value, pad - 1);
    } else {
      assert value + Zeros(0) == value;
    }
  }

  /** What a write followed by a read yields: the text, cut to the span, NUL-stripped. */
  lemma TextRoundTrip(value: seq<byte>, n: nat)
    ensures ReadString(TextField(value, n)) == ReadString(value[..Min(|value|, n)])
    ensures FitsField(value, n) ==> ReadString(TextField(value, n)) == value
  {
    var m := Min(|value|, n);
    if |value| == 0 {
      assert Zeros(n) == [] + Zeros(n);
      ReadPadded([], n);
    } else {
      ReadPadded(value[..m], n - m);
    }
    if FitsField(value, n) {
      assert value[..m] == value;
    }
  }

  /**
   * `writeString(buffer, offset, length, value)`: zero-fills the span, then
   * copies at most `length` bytes of the encoded text into it.
   */
  method WriteString(buf: array<byte>, off: nat, length: nat, value: seq<byte>)
    requires off + length <= buf.Length
    modifies buf
    ensures buf[..] == Splice(old(buf[..]), off, TextField(value, length))
  {
    ghost var b0 := buf[..];
    Fill(buf, off, off + length, 0);
    if |value| == 0 {
      return;
    }
    var sliceLength := Min(|value|, length);
    CopyInto(buf, off, value[..sliceLength]);
    TextOverZeros(b0, off, length, value);
  }

  /** Copying the text over a zero-filled span leaves the field image. */
  lemma TextOverZeros(s: seq<byte>, off: nat, length: nat, value: seq<byte>)
    requires off + length <= |s| && |value| > 0
    ensures Splice(Splice(s, off, Repeat(0, length)), off, value[..Min(|value|, length)])
      == Splice(s, off, TextField(value, length))
  {
    var m := Min(|value|, length);
    assert Repeat(0, length) == Zeros(m) + Zeros(length - m);
    SpliceOverPrefix(s, off, Zeros(m), Zeros(length - m), value[..m]);
  }
}
