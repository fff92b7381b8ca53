/**
 * The per-record sentinel and checksum protocol shared by every record
 * kind: a record whose bytes before its last are all 0xFF is "empty"
 * (never written); any other record carries in its last byte the XOR of
 * 0xA5 and all of its other bytes.
 */
module Checksum {
  import opened Bytes

  const CHECKSUM_SEED: byte := 0xA5

  function Xor(a: byte, b: byte): byte
  {
    ((a as bv8) ^ (b as bv8)) as int
  }

  /** The seed XOR-ed with every byte of `s`, in order. */
  function XorFold(seed: byte, s: seq<byte>): byte
  {
    if s == [] then seed else Xor(XorFold(seed, s[..|s| - 1]), s[|s| - 1])
  }

  /** `isRecordEmpty` on a record's bytes: all but the last are 0xFF. */
  predicate IsErased(r: seq<byte>)
    requires |r| >= 1
  {
    forall k | 0 <= k < |r| - 1 :: r[k] == 0xFF
  }

  /** `checksumFromSlice` on a record's bytes. */
  function ChecksumOf(r: seq<byte>): byte
    requires |r| >= 1
  {
    XorFold(CHECKSUM_SEED, r[..|r| - 1])
  }

  /** `verifyChecksum` on a record's bytes. */
  predicate ChecksumOk(r: seq<byte>)
    requires |r| >= 1
  {
    IsErased(r) || r[|r| - 1] == ChecksumOf(r)
  }

  /** The record after `applyChecksum`. */
  function Seal(r: seq<byte>): (sealed: seq<byte>)
    requires |r| >= 1
    ensures |sealed| == |r|
  {
    if IsErased(r) then r else r[..|r| - 1] + [ChecksumOf(r)]
  }

  /** Sealing keeps every byte but the last, and leaves an empty record alone. */
  lemma SealShape(r: seq<byte>)
    requires |r| >= 1
    ensures Seal(r)[..|r| - 1] == r[..|r| - 1]
    ensures IsErased(r) ==> Seal(r) == r
    ensures !IsErased(r) ==> Seal(r)[|r| - 1] == ChecksumOf(r)
  {
  }

  /** Emptiness and the checksum ignore the last byte. */
  lemma LastByteIgnored(r: seq<byte>, x: byte)
    requires |r| >= 1
    ensures IsErased(r[..|r| - 1] + [x]) == IsErased(r)
    ensures ChecksumOf(r[..|r| - 1] + [x]) == ChecksumOf(r)
  {
    assert (r[..|r| - 1] + [x])[..|r| - 1] == r[..|r| - 1];
  }

  /** A sealed record always verifies, and sealing twice changes nothing. */
  lemma SealVerifies(r: seq<byte>)
    requires |r| >= 1
    ensures ChecksumOk(Seal(r))
    ensures Seal(Seal(r)) == Seal(r)
    ensures IsErased(Seal(r)) == IsErased(r)
  {
    SealShape(r);
    LastByteIgnored(r, Seal(r)[|r| - 1]);
    assert Seal(r) == r[..|r| - 1] + [Seal(r)[|r| - 1]];
  }

  /**
   * A non-empty record whose stored last byte differs from the recomputed
   * checksum fails verification: a corrupted checksum byte is always seen.
   */
  lemma CorruptionDetected(r: seq<byte>, x: byte)
    requires |r| >= 1 && !IsErased(r) && x != ChecksumOf(r)
    ensures !ChecksumOk(r[..|r| - 1] + [x])
  {
    LastByteIgnored(r, x);
  }

  /** `isRecordEmpty(buffer, start, length)`: scans `[start, start + length - 1)`. */
  method IsRecordEmpty(buf: array<byte>, start: nat, length: nat) returns (empty: bool)
    requires 1 <= length && start + length <= buf.Length
    ensures empty == IsErased(buf[start..start + length])
  {
    var end := start + length - 1;
    for i := start to end
      invariant forall k | start <= k < i :: buf[k] == 0xFF
    {
      if buf[i] != 0xFF {
        return false;
      }
    }
    return true;
  }

  /** `checksumFromSlice(buffer, start, length)`. */
  method ChecksumFromSlice(buf: array<byte>, start: nat, length: nat) returns (crc: byte)
    requires 1 <= length && start + length <= buf.Length
    ensures crc == ChecksumOf(buf[start..start + length])
  {
    crc := CHECKSUM_SEED;
    var end := start + length - 1;
    for i := start to end
      invariant crc == XorFold(CHECKSUM_SEED, buf[start..i])
    {
      assert buf[start..i + 1][..i - start] == buf[start..i];
      crc := Xor(crc, buf[i]);
    }
    assert buf[start..start + length][..length - 1] == buf[start..end];
  }

  /**
   * `applyChecksum(buffer, start, length)`: a no-op on an empty record;
   * otherwise stores the checksum in the record's last byte and nothing else.
   */
  method ApplyChecksum(buf: array<byte>, start: nat, length: nat)
    requires 1 <= length && start + length <= buf.Length
    modifies buf
    ensures buf[..] == Splice(old(buf[..]), start, Seal(old(buf[start..start + length])))
  {
    var empty := IsRecordEmpty(buf, start, length);
    if empty {
      SpliceSame(buf[..], start, length);
      return;
    }
    var crc := ChecksumFromSlice(buf, start, length);
    ghost var before := buf[..];
    SealStore(before, start, length, crc);
    buf[start + length - 1] := crc;
    assert buf[..] == before[start + length - 1 := crc];
  }

  /** Storing the recomputed checksum in the last byte of a non-empty record seals it. */
  lemma SealStore(s: seq<byte>, start: nat, length: nat, crc: byte)
    requires 1 <= length && start + length <= |s|
    requires !IsErased(s[start..start + length]) && crc == ChecksumOf(s[start..start + length])
    ensures s[start + length - 1 := crc] == Splice(s, start, Seal(s[start..start + length]))
  {
    var r := s[start..start + length];
    assert Seal(r) == r[..length - 1] + [crc];
    forall i | 0 <= i < |s|
      ensures s[start + length - 1 := crc][i] == Splice(s, start, Seal(r))[i]
    {
    }
  }

  /** `verifyChecksum(buffer, start, length)`. */
  method VerifyChecksum(buf: array<byte>, start: nat, length: nat) returns (ok: bool)
    requires 1 <= length && start + length <= buf.Length
    ensures ok == ChecksumOk(buf[start..start + length])
  {
    var empty := IsRecordEmpty(buf, start, length);
    if empty {
      return true;
    }
    var expected := buf[start + length - 1];
    var actual := ChecksumFromSlice(buf, start, length);
    return expected == actual;
  }
}
