/**
  Fixed-width little-endian coding of unsigned 64-bit integers, as done by
  `binary.LittleEndian.PutUint64` and `binary.LittleEndian.Uint64`, which the
  state store uses to persist its offset in exactly eight bytes.
 */
module LittleEndian {

  type byte = b: int | 0 <= b < 0x100

  type uint64 = x: int | 0 <= x < 0x1_0000_0000_0000_0000

  /** The eight bytes of `v`, least significant first: byte i is `byte(v >> 8i)`. */
  function Encode(v: uint64): (bz: seq<byte>)
    ensures |bz| == 8
    ensures Uint64(bz) == v
  {
    ByteSum(v);
    [v % 0x100, v / 0x100 % 0x100, v / 0x1_0000 % 0x100, v / 0x100_0000 % 0x100,
     v / 0x1_0000_0000 % 0x100, v / 0x100_0000_0000 % 0x100,
     v / 0x1_0000_0000_0000 % 0x100, v / 0x100_0000_0000_0000 % 0x100]
  }

  /**
    Reads the first eight bytes of `b` as a little-endian value: byte i of the
    result (bits 8i to 8i+7) is `b[i]`; bytes past the eighth are ignored.
   */
  function Uint64(b: seq<byte>): (v: uint64)
    requires |b| >= 8
    ensures v % 0x100 == b[0]
    ensures v / 0x100 % 0x100 == b[1]
    ensures v / 0x1_0000 % 0x100 == b[2]
    ensures v / 0x100_0000 % 0x100 == b[3]
    ensures v / 0x1_0000_0000 % 0x100 == b[4]
    ensures v / 0x100_0000_0000 % 0x100 == b[5]
    ensures v / 0x1_0000_0000_0000 % 0x100 == b[6]
    ensures v / 0x100_0000_0000_0000 == b[7]
  {
    var t7: nat := b[7];
    var t6 := b[6] + 0x100 * t7;
    var t5 := b[5] + 0x100 * t6;
    var t4 := b[4] + 0x100 * t5;
    var t3 := b[3] + 0x100 * t4;
    var t2 := b[2] + 0x100 * t3;
    var t1 := b[1] + 0x100 * t2;
    var v := b[0] + 0x100 * t1;
    Peel(v, b[0], t1);
    Peel(t1, b[1], t2);
    Peel(t2, b[2], t3);
    Peel(t3, b[3], t4);
    Peel(t4, b[4], t5);
    Peel(t5, b[5], t6);
    Peel(t6, b[6], t7);
    ShiftsCompose(v);
    v
  }

  /** Writes the eight bytes of `v` into the front of `b`, one byte per store. */
  method PutUint64(b: array<byte>, v: uint64)
    requires b.Length >= 8
    modifies b
    ensures b[..8] == Encode(v)
    ensures b[8..] == old(b[8..])
    ensures Uint64(b[..]) == v
  {
    b[0] := v % 0x100;
    b[1] := v / 0x100 % 0x100;
    b[2] := v / 0x1_0000 % 0x100;
    b[3] := v / 0x100_0000 % 0x100;
    b[4] := v / 0x1_0000_0000 % 0x100;
    b[5] := v / 0x100_0000_0000 % 0x100;
    b[6] := v / 0x1_0000_0000_0000 % 0x100;
    b[7] := v / 0x100_0000_0000_0000 % 0x100;
    DecodeEncode(v);
    assert b[..][..8] == b[..8];
  }

  /** Shifting right by 8k bits is shifting right by 8(k-1) bits and then by 8 more. */
  lemma ShiftsCompose(x: nat)
    ensures x / 0x1_0000 == x / 0x100 / 0x100
    ensures x / 0x100_0000 == x / 0x1_0000 / 0x100
    ensures x / 0x1_0000_0000 == x / 0x100_0000 / 0x100
    ensures x / 0x100_0000_0000 == x / 0x1_0000_0000 / 0x100
    ensures x / 0x1_0000_0000_0000 == x / 0x100_0000_0000 / 0x100
    ensures x / 0x100_0000_0000_0000 == x / 0x1_0000_0000_0000 / 0x100
  {
  }

  /** A value is the sum of its eight bytes, each at its own place. */
  lemma ByteSum(v: uint64)
    ensures v == v % 0x100 + v / 0x100 % 0x100 * 0x100 + v / 0x1_0000 % 0x100 * 0x1_0000
                 + v / 0x100_0000 % 0x100 * 0x100_0000 + v / 0x1_0000_0000 % 0x100 * 0x1_0000_0000
                 + v / 0x100_0000_0000 % 0x100 * 0x100_0000_0000
                 + v / 0x1_0000_0000_0000 % 0x100 * 0x1_0000_0000_0000
                 + v / 0x100_0000_0000_0000 % 0x100 * 0x100_0000_0000_0000
  {
    ShiftsCompose(v);
    var q1 := v / 0x100;
    var q2 := q1 / 0x100;
    var q3 := q2 / 0x100;
    var q4 := q3 / 0x100;
    var q5 := q4 / 0x100;
    var q6 := q5 / 0x100;
    var q7 := q6 / 0x100;
    assert v == v % 0x100 + 0x100 * q1;
    assert q1 == q1 % 0x100 + 0x100 * q2;
    assert q2 == q2 % 0x100 + 0x100 * q3;
    assert q3 == q3 % 0x100 + 0x100 * q4;
    assert q4 == q4 % 0x100 + 0x100 * q5;
    assert q5 == q5 % 0x100 + 0x100 * q6;
    assert q6 == q6 % 0x100 + 0x100 * q7;
    assert q7 < 0x100;
  }

  /** The low byte and the remaining high part of a value split at one byte. */
  lemma Peel(x: nat, lo: byte, hi: nat)
    requires x == lo + 0x100 * hi
    ensures x % 0x100 == lo && x / 0x100 == hi
  {
  }

  /**
    Decoding the encoding gives back the value: the codec loses nothing. This
    restates `Encode`'s own contract as a named round-trip fact.
   */
  lemma DecodeEncode(v: uint64)
    ensures |Encode(v)| == 8
    ensures Uint64(Encode(v)) == v
  {
  }

  /** Encoding a decoded eight-byte sequence gives back the same bytes: every buffer is some value's encoding. */
  lemma EncodeDecode(b: seq<byte>)
    requires |b| == 8
    ensures Encode(Uint64(b)) == b
  {
  }

  /** Two values with the same encoding are equal. */
  lemma EncodeInjective(v: uint64, w: uint64)
    requires Encode(v) == Encode(w)
    ensures v == w
  {
    DecodeEncode(v);
    DecodeEncode(w);
  }
}
