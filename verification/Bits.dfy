/** Little-endian integers and bit operations on naturals. */
module Bits {
  import opened Bytes

  /** A little-endian integer of `n` bytes. */
  function LittleEndian(v: nat, n: nat): (s: seq<byte>)
    ensures |s| == n
  {
    if n == 0 then [] else [v % 256] + LittleEndian(v / 256, n - 1)
  }

  /** Byte `k` of a little-endian integer, the low byte first. */
  lemma {:induction false} LittleEndianByte(v: nat, n: nat, k: nat)
    requires k < n
    ensures LittleEndian(v, n)[k] == v / Pow256(k) % 256
  {
    if k > 0 {
      LittleEndianByte(v / 256, n - 1, k - 1);
      DivDiv(v, 256, Pow256(k - 1));
    }
  }

  lemma {:induction false} LittleEndianInjective(v: nat, w: nat, n: nat)
    requires v < Pow256(n) && w < Pow256(n) && LittleEndian(v, n) == LittleEndian(w, n)
    ensures v == w
  {
    if n > 0 {
      var a, b := LittleEndian(v, n), LittleEndian(w, n);
      assert a[0] == b[0] && a[1..] == b[1..];
      assert a[1..] == LittleEndian(v / 256, n - 1) && b[1..] == LittleEndian(w / 256, n - 1);
      LittleEndianInjective(v / 256, w / 256, n - 1);
    }
  }

  /** Exclusive or of the low `n` bits. */
  function XorBits(a: nat, b: nat, n: nat): nat {
    if n == 0 then 0 else 2 * XorBits(a / 2, b / 2, n - 1) + (a % 2 + b % 2) % 2
  }

  lemma {:induction false} XorBitsBound(a: nat, b: nat, n: nat)
    ensures XorBits(a, b, n) < Pow2(n)
  {
    if n > 0 {
      XorBitsBound(a / 2, b / 2, n - 1);
    }
  }

  lemma XorBit(a: nat, b: nat)
    requires a < 2 && b < 2
    ensures (a + (a + b) % 2) % 2 == b
  {
  }

  lemma {:induction false} XorBitsCancel(a: nat, b: nat, n: nat)
    requires b < Pow2(n)
    ensures XorBits(a, XorBits(a, b, n), n) == b
  {
    if n > 0 {
      var low, x := XorBits(a / 2, b / 2, n - 1), XorBits(a, b, n);
      XorBitsCancel(a / 2, b / 2, n - 1);
      XorBit(a % 2, b % 2);
      assert x / 2 == low && x % 2 == (a % 2 + b % 2) % 2;
      assert XorBits(a, x, n) == 2 * XorBits(a / 2, low, n - 1) + (a % 2 + x % 2) % 2;
    }
  }

  function Xor(a: byte, b: byte): byte {
    XorBitsBound(a, b, 8);
    XorBits(a, b, 8)
  }

  /** Each bit of an exclusive or: set where just one of the two is. */
  lemma {:induction false} XorBitsTest(a: nat, b: nat, n: nat, k: nat)
    requires k < n
    ensures TestBit(XorBits(a, b, n), k) <==> TestBit(a, k) != TestBit(b, k)
  {
    DoubleAndBit(XorBits(a / 2, b / 2, n - 1), (a % 2 + b % 2) % 2);
    if k == 0 {
      OddSum(a % 2, b % 2);
    } else {
      XorBitsTest(a / 2, b / 2, n - 1, k - 1);
    }
  }

  lemma DoubleAndBit(half: nat, bit: nat)
    requires bit < 2
    ensures (2 * half + bit) / 2 == half && (2 * half + bit) % 2 == bit
  {
  }

  lemma OddSum(a: nat, b: nat)
    requires a < 2 && b < 2
    ensures (a + b) % 2 == (if a == b then 0 else 1)
  {
  }

  lemma XorTest(a: byte, b: byte, k: nat)
    requires k < 8
    ensures TestBit(Xor(a, b), k) <==> TestBit(a, k) != TestBit(b, k)
  {
    XorBitsTest(a, b, 8, k);
  }

  lemma XorCancels(a: byte, b: byte)
    ensures Xor(a, Xor(a, b)) == b
  {
    XorBitsCancel(a, b, 8);
  }

  function FromLittleEndian(s: seq<byte>): nat {
    if s == [] then 0 else s[0] + 256 * FromLittleEndian(s[1..])
  }

  lemma {:induction false} LittleEndianRoundTrip(v: nat, n: nat)
    requires v < Pow256(n)
    ensures FromLittleEndian(LittleEndian(v, n)) == v
  {
    if n > 0 {
      LittleEndianRoundTrip(v / 256, n - 1);
      assert LittleEndian(v, n)[1..] == LittleEndian(v / 256, n - 1);
    }
  }

  /** Bit `k`, as in `v & (1 << k)`. */
  predicate TestBit(v: nat, k: nat) {
    if k == 0 then v % 2 == 1 else TestBit(v / 2, k - 1)
  }

  /** `v & ~(1 << k)`. */
  function ClearBit(v: nat, k: nat): (w: nat)
    ensures w <= v
  {
    if k == 0 then v - v % 2 else 2 * ClearBit(v / 2, k - 1) + v % 2
  }

  /** The bits of `low + (high << m)`. */
  lemma {:induction false} SplitBits(low: nat, high: nat, m: nat, k: nat)
    requires low < Pow2(m)
    ensures TestBit(low + Pow2(m) * high, k) <==> if k < m then TestBit(low, k) else TestBit(high, k - m)
    decreases m
  {
    if m > 0 {
      var v := low + Pow2(m) * high;
      assert Pow2(m) * high == 2 * (Pow2(m - 1) * high);
      assert v % 2 == low % 2 && v / 2 == low / 2 + Pow2(m - 1) * high;
      if k > 0 {
        SplitBits(low / 2, high, m - 1, k - 1);
      }
    }
  }

  /** Bit `k` of a little-endian integer is bit `k % 8` of its byte `k / 8`. */
  lemma {:induction false} LittleEndianBit(s: seq<byte>, k: nat)
    requires k < 8 * |s|
    ensures TestBit(FromLittleEndian(s), k) <==> TestBit(s[k / 8], k % 8)
  {
    assert Pow2(8) == 256;
    SplitBits(s[0], FromLittleEndian(s[1..]), 8, k);
    if k >= 8 {
      LittleEndianBit(s[1..], k - 8);
      assert k / 8 == (k - 8) / 8 + 1 && k % 8 == (k - 8) % 8;
    }
  }

  lemma {:induction false} ClearBitTest(v: nat, k: nat, j: nat)
    ensures TestBit(ClearBit(v, k), j) <==> j != k && TestBit(v, j)
  {
    if k > 0 && j > 0 {
      ClearBitTest(v / 2, k - 1, j - 1);
      assert ClearBit(v, k) / 2 == ClearBit(v / 2, k - 1);
    } else if k == 0 && j > 0 {
      assert ClearBit(v, k) / 2 == v / 2;
    }
  }

  /** `~((1 << k) - 1)` in `n` bits: the bits from `k` on. */
  lemma {:induction false} HighBits(n: nat, k: nat, i: nat)
    requires k <= n && i < n
    ensures Pow2(k) <= Pow2(n) && (TestBit(Pow2(n) - Pow2(k), i) <==> i >= k)
    decreases n
  {
    Pow2Grows(k, n);
    if k > 0 && i > 0 {
      HighBits(n - 1, k - 1, i - 1);
      assert (Pow2(n) - Pow2(k)) / 2 == Pow2(n - 1) - Pow2(k - 1);
    } else if k == 0 && i > 0 {
      HighBits(n - 1, 0, i - 1);
      assert (Pow2(n) - 1) / 2 == Pow2(n - 1) - 1;
    }
  }

  lemma {:induction false} ZeroBits(i: nat)
    ensures !TestBit(0, i)
  {
    if i > 0 {
      ZeroBits(i - 1);
    }
  }

  /** Bitwise and of the low `n` bits, and of two bytes. */
  function AndBits(a: nat, b: nat, n: nat): nat {
    if n == 0 then 0 else 2 * AndBits(a / 2, b / 2, n - 1) + (if a % 2 == 1 && b % 2 == 1 then 1 else 0)
  }

  lemma {:induction false} AndBitsBound(a: nat, b: nat, n: nat)
    ensures AndBits(a, b, n) < Pow2(n)
  {
    if n > 0 {
      AndBitsBound(a / 2, b / 2, n - 1);
    }
  }

  lemma AndStep(a: nat, b: nat, n: nat, half: nat)
    requires n > 0 && a == 2 * half + 1
    ensures AndBits(a, b, n) == 2 * AndBits(half, b / 2, n - 1) + b % 2
  {
    assert a / 2 == half && a % 2 == 1;
  }

  lemma {:induction false} AndWithOnes(b: nat, n: nat)
    requires b < Pow2(n)
    ensures AndBits(Pow2(n) - 1, b, n) == b
  {
    if n > 0 {
      var ones, half := Pow2(n) - 1, Pow2(n - 1) - 1;
      assert ones == 2 * half + 1;
      AndWithOnes(b / 2, n - 1);
      AndStep(ones, b, n, half);
    }
  }

  function And(a: byte, b: byte): byte {
    AndBitsBound(a, b, 8);
    AndBits(a, b, 8)
  }

  /** Each bit of an and: set where both are. */
  lemma {:induction false} AndBitsTest(a: nat, b: nat, n: nat, k: nat)
    requires k < n
    ensures TestBit(AndBits(a, b, n), k) <==> TestBit(a, k) && TestBit(b, k)
  {
    if k > 0 {
      AndBitsTest(a / 2, b / 2, n - 1, k - 1);
      assert AndBits(a, b, n) / 2 == AndBits(a / 2, b / 2, n - 1);
    }
  }

  lemma AndTest(a: byte, b: byte, k: nat)
    requires k < 8
    ensures TestBit(And(a, b), k) <==> TestBit(a, k) && TestBit(b, k)
  {
    AndBitsTest(a, b, 8, k);
  }

  lemma AndErased(b: byte)
    ensures And(0xFF, b) == b
  {
    AndWithOnes(b, 8);
  }
}
