/**
 BIT STRING contents: dropping the trailing zero bits of a named bit list, and
 the bit order of a key usage.
 */
module BitStrings {
  import opened Bytes

  function Pow2(n: nat): (p: nat)
    ensures p >= 1
  {
    if n == 0 then 1 else 2 * Pow2(n - 1)
  }

  /** Bit `i` of a number, counted from the least significant. */
  function Bit(v: nat, i: nat): nat {
    if i == 0 then v % 2 else Bit(v / 2, i - 1)
  }

  /** Bit `i` of a bit string, counted from the most significant bit of its first byte. */
  function StringBit(s: seq<byte>, i: nat): nat
    requires i < 8 * |s|
  {
    Bit(s[i / 8], 7 - i % 8)
  }

  function TrailingZeros(b: nat): (n: nat)
    requires b > 0
  {
    if b % 2 == 1 then 0 else 1 + TrailingZeros(b / 2)
  }

  lemma {:induction false} TrailingZerosAreTheLast(b: nat)
    requires b > 0
    ensures Bit(b, TrailingZeros(b)) == 1
    ensures forall i :: 0 <= i < TrailingZeros(b) ==> Bit(b, i) == 0
  {
    if b % 2 == 0 {
      TrailingZerosAreTheLast(b / 2);
    }
  }

  lemma {:induction false} TrailingZerosBelow(b: nat, n: nat)
    requires 0 < b < Pow2(n)
    ensures TrailingZeros(b) < n
  {
    if b % 2 == 0 {
      TrailingZerosBelow(b / 2, n - 1);
    }
  }

  /** The index of the last byte that is not zero. */
  function LastNonZero(s: seq<byte>): (k: nat)
    requires exists i :: 0 <= i < |s| && s[i] != 0
    ensures k < |s| && s[k] != 0 && forall i :: k < i < |s| ==> s[i] == 0
  {
    if s[|s| - 1] != 0 then |s| - 1
    else
      assert forall i :: 0 <= i < |s| && s[i] != 0 ==> i < |s| - 1 && s[..|s| - 1][i] == s[i];
      LastNonZero(s[..|s| - 1])
  }

  /** The source cannot encode an empty bit string, nor truncate one without a set bit. */
  predicate Encodable(truncate: bool, s: seq<byte>) {
    s != [] && (truncate ==> exists i :: 0 <= i < |s| && s[i] != 0)
  }

  /** The contents octets: the number of unused bits, and the bytes that are kept. */
  function Contents(truncate: bool, s: seq<byte>): seq<byte>
    requires Encodable(truncate, s)
  {
    if truncate then
      var last := LastNonZero(s);
      TrailingZerosSmall(s[last]);
      [TrailingZeros(s[last])] + s[..last + 1]
    else [0] + s
  }

  lemma TrailingZerosSmall(b: byte)
    requires b != 0
    ensures TrailingZeros(b) < 8
  {
    assert Pow2(8) == 256;
    TrailingZerosBelow(b, 8);
  }

  /** The bits that a reader of the contents sees. */
  function Length(content: seq<byte>): int
    requires content != []
  {
    8 * (|content| - 1) - content[0]
  }

  /** A truncated bit string ends with a set bit, and only zero bits were dropped
      (section 11.2.2 of ITU-T X.690). */
  lemma TruncationIsExact(s: seq<byte>)
    requires Encodable(true, s)
    ensures var c := Contents(true, s); var n := Length(c);
            0 < n <= 8 * |s| && c[0] < 8 && c[1..] <= s
            && StringBit(s, n - 1) == 1 && forall i :: n <= i < 8 * |s| ==> StringBit(s, i) == 0
  {
    var last := LastNonZero(s);
    TrailingZerosSmall(s[last]);
    TrailingZerosAreTheLast(s[last]);
    var c := Contents(true, s);
    var n := Length(c);
    var z := TrailingZeros(s[last]);
    assert c[1..] == s[..last + 1];
    assert n - 1 == 8 * last + (7 - z) && (n - 1) / 8 == last && (n - 1) % 8 == 7 - z;
    forall i | n <= i < 8 * |s|
      ensures StringBit(s, i) == 0
    {
      if i / 8 == last {
        assert 7 - i % 8 < z;
      } else {
        assert i / 8 > last;
        ZeroBits(7 - i % 8);
      }
    }
  }

  lemma {:induction false} ZeroBits(i: nat)
    ensures Bit(0, i) == 0
  {
    if i > 0 {
      ZeroBits(i - 1);
    }
  }

  // ---------------------------------------------------------------- key usage

  /** The source's table of reversed nibbles. */
  function Lookup(n: nat): (r: nat)
    requires n < 16
    ensures r < 16
  {
    [0x00, 0x08, 0x04, 0x0c, 0x02, 0x0a, 0x06, 0x0e, 0x01, 0x09, 0x05, 0x0d, 0x03, 0x0b, 0x07, 0x0f][n]
  }

  function ReverseByte(b: byte): byte {
    Lookup(b % 16) * 16 + Lookup(b / 16)
  }

  lemma LookupReverses(n: nat)
    requires n < 16
    ensures Bit(Lookup(n), 0) == Bit(n, 3) && Bit(Lookup(n), 1) == Bit(n, 2)
    ensures Bit(Lookup(n), 2) == Bit(n, 1) && Bit(Lookup(n), 3) == Bit(n, 0)
  {
    assert n in {0, 1, 2, 3, 4, 5, 6, 7, 8, 9, 10, 11, 12, 13, 14, 15};
  }

  lemma BitOfDouble(h: nat, c: nat, i: nat)
    requires c < 2
    ensures Bit(2 * h + c, 0) == c && Bit(2 * h + c, i + 1) == Bit(h, i)
  {
    assert (2 * h + c) / 2 == h;
  }

  /** The low four bits are those of the low nibble, and the others come after them. */
  lemma NibbleBits(hi: nat, lo: nat, i: nat)
    requires lo < 16
    ensures i < 4 ==> Bit(hi * 16 + lo, i) == Bit(lo, i)
    ensures Bit(hi * 16 + lo, i + 4) == Bit(hi, i)
  {
    hide Bit;
    var c0, c1, c2, c3 := lo % 2, lo / 2 % 2, lo / 4 % 2, lo / 8;
    ShiftedBits(hi, c0, c1, c2, c3, i);
    ShiftedBits(0, c0, c1, c2, c3, i);
    assert hi * 16 + lo == 2 * (2 * (2 * (2 * hi + c3) + c2) + c1) + c0;
    assert lo == 2 * (2 * (2 * (2 * 0 + c3) + c2) + c1) + c0;
  }

  lemma ShiftedBits(h: nat, c0: nat, c1: nat, c2: nat, c3: nat, i: nat)
    requires c0 < 2 && c1 < 2 && c2 < 2 && c3 < 2
    ensures var v := 2 * (2 * (2 * (2 * h + c3) + c2) + c1) + c0;
            Bit(v, i + 4) == Bit(h, i) && (i < 4 ==> Bit(v, i) == [c0, c1, c2, c3][i])
  {
    hide Bit;
    var v3 := 2 * h + c3;
    var v2 := 2 * v3 + c2;
    var v1 := 2 * v2 + c1;
    BitOfDouble(h, c3, i);
    BitOfDouble(v3, c2, i + 1);
    BitOfDouble(v2, c1, i + 2);
    BitOfDouble(v1, c0, i + 3);
    if 0 < i < 4 {
      BitOfDouble(v1, c0, i - 1);
      if 1 < i {
        BitOfDouble(v2, c1, i - 2);
        if 2 < i {
          BitOfDouble(v3, c2, i - 3);
        }
      }
    }
  }

  /** The low eight bits of a number are those of its low byte. */
  lemma ByteBits(v: nat, i: nat)
    ensures i < 8 ==> Bit(v, i) == Bit(v % 256, i)
    ensures Bit(v, i + 8) == Bit(v / 256, i)
  {
    hide Bit;
    var hi, lo := v / 256, v % 256;
    var mid := hi * 16 + lo / 16;
    assert v == mid * 16 + lo % 16 && lo == lo / 16 * 16 + lo % 16;
    NibbleBits(mid, lo % 16, i + 4);
    NibbleBits(hi, lo / 16, i);
    if i < 4 {
      NibbleBits(mid, lo % 16, i);
      NibbleBits(lo / 16, lo % 16, i);
    } else if i < 8 {
      NibbleBits(mid, lo % 16, i - 4);
      NibbleBits(lo / 16, lo % 16, i - 4);
      NibbleBits(hi, lo / 16, i - 4);
    }
  }

  lemma ReverseByteReverses(b: byte, i: nat)
    requires i < 8
    ensures Bit(ReverseByte(b), i) == Bit(b, 7 - i)
  {
    hide Bit;
    var hi, lo := b / 16, b % 16;
    LookupReverses(hi);
    LookupReverses(lo);
    assert b == hi * 16 + lo;
    if i < 4 {
      NibbleBits(Lookup(lo), Lookup(hi), i);
      NibbleBits(hi, lo, 3 - i);
      assert i in {0, 1, 2, 3};
    } else {
      NibbleBits(Lookup(lo), Lookup(hi), i - 4);
      NibbleBits(hi, lo, 7 - i);
      assert i in {4, 5, 6, 7};
    }
  }

  /** The bytes of a key usage before truncation: both bytes with their bits reversed. */
  function IntToBitString(a: nat): seq<byte>
    requires a < 0x1_0000
  {
    [ReverseByte(a % 256), ReverseByte(a / 256)]
  }

  /** Bit `i` of the untruncated string is bit `i` of the key usage. */
  lemma IntToBitStringBits(a: nat, i: nat)
    requires a < 0x1_0000 && i < 16
    ensures StringBit(IntToBitString(a), i) == Bit(a, i)
  {
    hide Bit, ReverseByte, StringBit;
    var lo, hi := a % 256, a / 256;
    BitOfTwoBytes(ReverseByte(lo), ReverseByte(hi), i);
    if i < 8 {
      ByteBits(a, i);
      ReverseByteReverses(lo, 7 - i);
    } else {
      ByteBits(a, i - 8);
      ReverseByteReverses(hi, 15 - i);
    }
  }

  lemma BitOfTwoBytes(x: byte, y: byte, i: nat)
    requires i < 16
    ensures StringBit([x, y], i) == if i < 8 then Bit(x, 7 - i) else Bit(y, 15 - i)
  {
    hide Bit;
  }

  /** A key usage with a set bit has a byte that is not zero. */
  lemma SomeBitSet(a: nat)
    requires 0 < a < 0x1_0000
    ensures Encodable(true, IntToBitString(a))
  {
    hide Bit, StringBit, ReverseByte;
    var s := IntToBitString(a);
    if s[0] == 0 && s[1] == 0 {
      forall i | 0 <= i < 16
        ensures Bit(a, i) == 0
      {
        IntToBitStringBits(a, i);
        BitOfTwoBytes(0, 0, i);
        ZeroBits(7 - i % 8);
      }
      assert Pow2(8) == 256 && Pow2(16) == 0x1_0000;
      AllZero(a, 16);
    }
  }

  /** Bits of the whole string are bits of a first part that is long enough. */
  lemma FirstBits(s: seq<byte>, part: seq<byte>, i: nat)
    requires part <= s && i < 8 * |part|
    ensures StringBit(part, i) == StringBit(s, i)
  {
  }

  /** The key usage a reader sees in the contents is the one that was encoded, and
      the encoding ends with its highest set bit. */
  lemma KeyUsageReadsBack(a: nat)
    requires 0 < a < 0x1_0000
    ensures var s := IntToBitString(a);
            Encodable(true, s) &&
            var c := Contents(true, s); var n := Length(c);
            0 < n <= 16 && |c[1..]| * 8 >= n
            && (forall i :: 0 <= i < n ==> StringBit(c[1..], i) == Bit(a, i))
            && Bit(a, n - 1) == 1 && (forall i :: n <= i < 16 ==> Bit(a, i) == 0)
  {
    hide Bit, StringBit, Contents, IntToBitString, Encodable;
    var s := IntToBitString(a);
    SomeBitSet(a);
    TwoBytes(a);
    SomeContents(s);
    TruncationIsExact(s);
    var c := Contents(true, s);
    var n := Length(c);
    forall i | 0 <= i < 16
      ensures StringBit(s, i) == Bit(a, i) && (i < n ==> StringBit(c[1..], i) == Bit(a, i))
    {
      IntToBitStringBits(a, i);
      if i < n {
        FirstBits(s, c[1..], i);
      }
    }
  }

  lemma SomeContents(s: seq<byte>)
    requires Encodable(true, s)
    ensures Contents(true, s) != []
  {
  }

  lemma TwoBytes(a: nat)
    requires a < 0x1_0000
    ensures |IntToBitString(a)| == 2
  {
  }

  lemma {:induction false} AllZero(v: nat, n: nat)
    requires v < Pow2(n) && forall i :: 0 <= i < n ==> Bit(v, i) == 0
    ensures v == 0
  {
    if n > 0 {
      assert Bit(v, 0) == 0;
      forall i | 0 <= i < n - 1
        ensures Bit(v / 2, i) == 0
      {
        assert Bit(v, i + 1) == 0;
      }
      AllZero(v / 2, n - 1);
    }
  }
}
