/** Bytes, and the bit operations of the codec, defined on their binary digits.
    An unsigned 64-bit value is a natural number: every operation below stays
    below 2^64 when its operands do, so no wrap-around can occur. */
module Bits {

  type byte = x: int | 0 <= x < 256

  /** `a | b` */
  function BitOr(a: nat, b: nat): nat {
    if a == 0 then b
    else if b == 0 then a
    else 2 * BitOr(a / 2, b / 2) + (if a % 2 == 1 || b % 2 == 1 then 1 else 0)
  }

  /** `a ^ b` */
  function BitXor(a: nat, b: nat): nat {
    if a == 0 then b
    else if b == 0 then a
    else 2 * BitXor(a / 2, b / 2) + (if a % 2 != b % 2 then 1 else 0)
  }

  /** `a << k` */
  function Shl(a: nat, k: nat): nat
    decreases k
  {
    if k == 0 then a else Shl(2 * a, k - 1)
  }

  /** `a >> k` */
  function Shr(a: nat, k: nat): nat
    decreases k
  {
    if k == 0 then a else Shr(a / 2, k - 1)
  }

  lemma {:induction false} ShlAdd(a: nat, b: nat, k: nat)
    ensures Shl(a + b, k) == Shl(a, k) + Shl(b, k)
    decreases k
  {
    if k > 0 {
      ShlAdd(2 * a, 2 * b, k - 1);
    }
  }

  lemma {:induction false} ShlDouble(a: nat, k: nat)
    requires k > 0
    ensures Shl(a, k) == 2 * Shl(a, k - 1)
  {
    ShlAdd(a, a, k - 1);
  }

  lemma {:induction false} ShlMonotone(a: nat, b: nat, k: nat)
    requires a < b
    ensures Shl(a, k) < Shl(b, k)
    decreases k
  {
    if k > 0 {
      ShlMonotone(2 * a, 2 * b, k - 1);
    }
  }

  lemma {:induction false} ShlByte(a: nat, k: nat)
    ensures Shl(a, 8 + k) == Shl(256 * a, k)
  {
    assert Shl(a, 8 + k) == Shl(2 * a, 7 + k);
    assert Shl(2 * a, 7 + k) == Shl(4 * a, 6 + k);
    assert Shl(4 * a, 6 + k) == Shl(8 * a, 5 + k);
    assert Shl(8 * a, 5 + k) == Shl(16 * a, 4 + k);
    assert Shl(16 * a, 4 + k) == Shl(32 * a, 3 + k);
    assert Shl(32 * a, 3 + k) == Shl(64 * a, 2 + k);
    assert Shl(64 * a, 2 + k) == Shl(128 * a, 1 + k);
  }

  lemma {:induction false} ShrByte(a: nat, k: nat)
    ensures Shr(a, 8 + k) == Shr(a / 256, k)
  {
    assert Shr(a, 8 + k) == Shr(a / 2, 7 + k);
    assert Shr(a / 2, 7 + k) == Shr(a / 4, 6 + k);
    assert Shr(a / 4, 6 + k) == Shr(a / 8, 5 + k);
    assert Shr(a / 8, 5 + k) == Shr(a / 16, 4 + k);
    assert Shr(a / 16, 4 + k) == Shr(a / 32, 3 + k);
    assert Shr(a / 32, 3 + k) == Shr(a / 64, 2 + k);
    assert Shr(a / 64, 2 + k) == Shr(a / 128, 1 + k);
  }

  /** Or-ing in a number below the lowest set bit position adds it. */
  lemma {:induction false} OrDisjoint(a: nat, b: nat, k: nat)
    requires b < Shl(1, k)
    ensures BitOr(Shl(a, k), b) == Shl(a, k) + b
    decreases k
  {
    if k > 0 && Shl(a, k) != 0 && b != 0 {
      ShlDouble(a, k);
      ShlDouble(1, k);
      OrDisjoint(a, b / 2, k - 1);
    }
  }

  /** One step of the parser's length accumulation: the bytes read so far are the
      high-order digits, and or-ing in the next byte appends one more digit. */
  lemma {:induction false} OrAppendsDigit(v: nat, b: byte, k: nat)
    ensures BitOr(Shl(v, 8 + k), Shl(b, k)) == Shl(256 * v + b, k)
  {
    ShlByte(1, k);
    ShlMonotone(b, 256, k);
    OrDisjoint(v, Shl(b, k), 8 + k);
    ShlByte(v, k);
    ShlAdd(256 * v, b, k);
  }

  /** Binary digit `i` of a byte. */
  function Bit(a: byte, i: nat): (d: nat)
    requires i < 8
    ensures d < 2
  {
    a / [1, 2, 4, 8, 16, 32, 64, 128][i] % 2
  }

  /** The exclusive or tells whether two binary digits differ. */
  lemma {:induction false} XorDigits(a: nat, b: nat, i: nat)
    ensures Shr(BitXor(a, b), i) % 2 == if Shr(a, i) % 2 != Shr(b, i) % 2 then 1 else 0
    decreases i
  {
    XorHalves(a, b);
    hide BitXor;
    if i > 0 {
      XorDigits(a / 2, b / 2, i - 1);
    }
  }

  lemma XorHalves(a: nat, b: nat)
    ensures BitXor(a, b) % 2 == if a % 2 != b % 2 then 1 else 0
    ensures BitXor(a, b) / 2 == BitXor(a / 2, b / 2)
  {
    if a != 0 && b != 0 {
      var rest := BitXor(a / 2, b / 2);
      assert BitXor(a, b) == 2 * rest + if a % 2 != b % 2 then 1 else 0;
      hide BitXor;
    }
  }

  /** The inclusive or takes the larger of two binary digits. */
  lemma {:induction false} OrDigits(a: nat, b: nat, i: nat)
    ensures Shr(BitOr(a, b), i) % 2 == if Shr(a, i) % 2 == 0 then Shr(b, i) % 2 else 1
    decreases i
  {
    OrHalves(a, b);
    hide BitOr;
    if i > 0 {
      OrDigits(a / 2, b / 2, i - 1);
    }
  }

  lemma OrHalves(a: nat, b: nat)
    ensures BitOr(a, b) % 2 == if a % 2 == 0 then b % 2 else 1
    ensures BitOr(a, b) / 2 == BitOr(a / 2, b / 2)
  {
    if a != 0 && b != 0 {
      var rest := BitOr(a / 2, b / 2);
      assert BitOr(a, b) == 2 * rest + if a % 2 == 1 || b % 2 == 1 then 1 else 0;
      hide BitOr;
    }
  }

  lemma {:induction false} ShrIsBit(a: byte, i: nat)
    requires i < 8
    ensures Shr(a, i) % 2 == Bit(a, i)
    decreases i
  {
    if i > 0 {
      ShrIsBit(a / 2, i - 1);
      var weights := [1, 2, 4, 8, 16, 32, 64, 128];
      assert i == 1 || i == 2 || i == 3 || i == 4 || i == 5 || i == 6 || i == 7;
      assert a / 2 / weights[i - 1] == a / weights[i];
    }
  }

  /** On bytes: it adds binary digits modulo 2. */
  lemma {:induction false} XorBits(a: byte, b: byte, i: nat)
    requires i < 8
    ensures Bit(XorByte(a, b), i) == (Bit(a, i) + Bit(b, i)) % 2
  {
    hide Shr, Bit, BitXor;
    XorDigits(a, b, i);
    ShrIsBit(a, i);
    ShrIsBit(b, i);
    ShrIsBit(XorByte(a, b), i);
  }

  lemma {:induction false} XorInvolution(a: nat, b: nat)
    ensures BitXor(BitXor(a, b), b) == a
  {
    if a != 0 && b != 0 {
      XorInvolution(a / 2, b / 2);
      var x := BitXor(a, b);
      assert x / 2 == BitXor(a / 2, b / 2);
      if x == 0 {
        assert BitXor(x / 2, b / 2) == b / 2;
      }
    } else if a == 0 {
      XorSelf(b);
    }
  }

  lemma {:induction false} XorSelf(b: nat)
    ensures BitXor(b, b) == 0
  {
    if b != 0 {
      XorSelf(b / 2);
    }
  }

  lemma {:induction false} XorBound(a: nat, b: nat, k: nat)
    requires a < Shl(1, k) && b < Shl(1, k)
    ensures BitXor(a, b) < Shl(1, k)
    decreases k
  {
    if a != 0 && b != 0 && k > 0 {
      ShlDouble(1, k);
      XorBound(a / 2, b / 2, k - 1);
    }
  }

  /** The exclusive or of two bytes is a byte. */
  function XorByte(a: byte, b: byte): (r: byte)
    ensures r == BitXor(a, b)
  {
    ShlByte(1, 0);
    XorBound(a, b, 8);
    BitXor(a, b)
  }

  /** The number whose base-256 digits, most significant first, are `s`. */
  function FromBigEndian(s: seq<byte>): nat {
    if s == [] then 0 else 256 * FromBigEndian(s[..|s| - 1]) + s[|s| - 1]
  }

  /** The `k` low-order base-256 digits of `n`, most significant first. */
  function ToBigEndian(n: nat, k: nat): (s: seq<byte>)
    ensures |s| == k
    decreases k
  {
    if k == 0 then [] else ToBigEndian(n / 256, k - 1) + [n % 256]
  }

  /** 256^k */
  function Capacity(k: nat): nat {
    if k == 0 then 1 else 256 * Capacity(k - 1)
  }

  lemma {:induction false} BigEndianRoundTrip(n: nat, k: nat)
    requires n < Capacity(k)
    ensures FromBigEndian(ToBigEndian(n, k)) == n
    decreases k
  {
    if k > 0 {
      BigEndianRoundTrip(n / 256, k - 1);
      var s := ToBigEndian(n, k);
      assert s[..k - 1] == ToBigEndian(n / 256, k - 1);
    }
  }

  /** Printing the number that bytes denote gives back the bytes. */
  lemma {:induction false} BigEndianBack(s: seq<byte>)
    ensures ToBigEndian(FromBigEndian(s), |s|) == s
  {
    if s != [] {
      BigEndianBack(s[..|s| - 1]);
      assert s[..|s| - 1] + [s[|s| - 1]] == s;
    }
  }

  lemma BigEndianTwo(s: seq<byte>)
    requires |s| == 2
    ensures FromBigEndian(s) == 256 * (s[0] as int) + s[1]
  {
    assert s[..1][..0] == [] && FromBigEndian([]) == 0;
    assert FromBigEndian(s[..1]) == s[0];
  }

  /** The number that eight bytes denote, by the weight of each. */
  function EightBytes(s: seq<byte>): int
    requires |s| == 8
  {
    0x100_0000_0000_0000 * (s[0] as int) + 0x1_0000_0000_0000 * (s[1] as int)
    + 0x100_0000_0000 * (s[2] as int) + 0x1_0000_0000 * (s[3] as int)
    + 0x100_0000 * (s[4] as int) + 0x1_0000 * (s[5] as int) + 0x100 * (s[6] as int) + s[7]
  }

  lemma BigEndianEight(s: seq<byte>)
    requires |s| == 8
    ensures FromBigEndian(s) == EightBytes(s)
  {
    assert s[..2][..2] == s[..2] && s[..3][..2] == s[..2] && s[..4][..3] == s[..3] && s[..5][..4] == s[..4];
    assert s[..6][..5] == s[..5] && s[..7][..6] == s[..6];
    BigEndianTwo(s[..2]);
    assert FromBigEndian(s[..3]) == 256 * FromBigEndian(s[..2]) + s[2];
    assert FromBigEndian(s[..4]) == 256 * FromBigEndian(s[..3]) + s[3];
    assert FromBigEndian(s[..5]) == 256 * FromBigEndian(s[..4]) + s[4];
    assert FromBigEndian(s[..6]) == 256 * FromBigEndian(s[..5]) + s[5];
    assert FromBigEndian(s[..7]) == 256 * FromBigEndian(s[..6]) + s[6];
  }

  /** The digits are what shifting right and keeping eight bits extracts. */
  lemma {:induction false} BigEndianDigit(n: nat, k: nat, i: nat)
    requires i < k
    ensures ToBigEndian(n, k)[k - 1 - i] == Shr(n, 8 * i) % 256
    decreases k
  {
    if i > 0 {
      BigEndianDigit(n / 256, k - 1, i - 1);
      ShrByte(n, 8 * (i - 1));
      assert 8 + 8 * (i - 1) == 8 * i;
    }
  }
}
