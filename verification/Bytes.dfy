/** Byte strings: copies into buffers, rows of a flat buffer, and the big-endian
    integers of the LMS code. */
module Bytes {
  type byte = x: int | 0 <= x < 256

  /** The `i`-th row of a flat buffer whose rows are `n` bytes apart. */
  function Row(s: seq<byte>, i: nat, n: nat): (row: seq<byte>)
    requires i * n + n <= |s|
    ensures |row| == n
  {
    s[i * n..i * n + n]
  }

  /** What a buffer holds after `t` is copied to offset `off`. */
  function Splice(s: seq<byte>, off: nat, t: seq<byte>): (r: seq<byte>)
    requires off + |t| <= |s|
    ensures |r| == |s|
    ensures r[off..off + |t|] == t
    ensures r[..off] == s[..off]
    ensures r[off + |t|..] == s[off + |t|..]
  {
    s[..off] + t + s[off + |t|..]
  }

  /** Three adjacent copies are one copy of the concatenation. */
  lemma SpliceThrice(s: seq<byte>, off: nat, a: seq<byte>, b: seq<byte>, c: seq<byte>)
    requires off + |a| + |b| + |c| <= |s|
    ensures Splice(Splice(Splice(s, off, a), off + |a|, b), off + |a| + |b|, c) == Splice(s, off, a + b + c)
  {
    SpliceTwice(s, off, a, b);
    SpliceTwice(s, off, a + b, c);
  }

  lemma SpliceTwice(s: seq<byte>, off: nat, a: seq<byte>, b: seq<byte>)
    requires off + |a| + |b| <= |s|
    ensures Splice(Splice(s, off, a), off + |a|, b) == Splice(s, off, a + b)
  {
    var one := Splice(s, off, a);
    assert one[..off + |a|] == s[..off] + a;
    assert one[off + |a| + |b|..] == s[off + |a| + |b|..];
  }

  function Zeros(n: nat): (z: seq<byte>)
    ensures |z| == n && forall i :: 0 <= i < n ==> z[i] == 0
  {
    seq(n, _ => 0)
  }

  /** memcpy from a value into a buffer. */
  method CopyInto(buf: array<byte>, off: nat, src: seq<byte>)
    requires off + |src| <= buf.Length
    modifies buf
    ensures buf[..] == Splice(old(buf[..]), off, src)
  {
    var i := 0;
    while i < |src|
      invariant 0 <= i <= |src|
      invariant buf[..off] == old(buf[..off])
      invariant buf[off..off + i] == src[..i]
      invariant buf[off + |src|..] == old(buf[off + |src|..])
    {
      buf[off + i] := src[i];
      assert buf[off..off + i + 1] == buf[off..off + i] + [src[i]];
      assert src[..i + 1] == src[..i] + [src[i]];
      i := i + 1;
    }
    assert buf[..] == buf[..off] + buf[off..off + i] + buf[off + |src|..];
  }

  // ----- rows and row-sized writes

  lemma RowFits(i: nat, count: nat, n: nat)
    requires i < count
    ensures i * n + n <= count * n
  {
    assert count * n == (i + 1) * n + (count - i - 1) * n;
    assert (count - i - 1) * n >= 0;
  }

  /** Two different rows of the same width do not overlap. */
  lemma RowsApart(i: nat, j: nat, n: nat)
    requires i < j
    ensures i * n + n <= j * n
  {
    RowFits(i, j, n);
  }

  /** Writing one row leaves every other row as it was. */
  lemma SpliceRow(s: seq<byte>, i: nat, n: nat, t: seq<byte>, j: nat)
    requires |t| == n
    requires i * n + n <= |s| && j * n + n <= |s|
    ensures Row(Splice(s, i * n, t), j, n) == if i == j then t else Row(s, j, n)
  {
    if j < i {
      RowsApart(j, i, n);
    } else if i < j {
      RowsApart(i, j, n);
    }
    if i != j {
      SpliceElsewhere(s, i * n, t, j * n, n);
    }
  }

  /** A stretch that the copied bytes do not reach reads as before. */
  lemma SpliceElsewhere(s: seq<byte>, off: nat, t: seq<byte>, at: nat, n: nat)
    requires off + |t| <= |s| && at + n <= |s|
    requires at + n <= off || off + |t| <= at
    ensures Splice(s, off, t)[at..at + n] == s[at..at + n]
  {
    var r := Splice(s, off, t);
    var x, y := r[at..at + n], s[at..at + n];
    forall k | 0 <= k < n
      ensures x[k] == y[k]
    {
      if at + n <= off {
        assert r[at + k] == r[..off][at + k] == s[at + k];
      } else {
        var e := off + |t|;
        assert r[at + k] == r[e..][at + k - e] == s[e..][at + k - e];
      }
    }
  }

  /** Rows of a buffer extended by one row. */
  lemma RowOfAppend(front: seq<byte>, last: seq<byte>, count: nat, i: nat, n: nat)
    requires |front| == count * n && |last| == n && i <= count
    ensures i * n + n <= |front + last|
    ensures i < count ==> i * n + n <= |front|
    ensures Row(front + last, i, n) == if i < count then Row(front, i, n) else last
  {
    if i < count {
      RowFits(i, count, n);
    }
  }

  lemma SubSlice(s: seq<byte>, off: nat, all: nat, i: nat, n: nat)
    requires off + all <= |s| && i + n <= all
    ensures s[off..off + all][i..i + n] == s[off + i..off + i + n]
  {
    var (x, y) := (s[off..off + all][i..i + n], s[off + i..off + i + n]);
    forall k | 0 <= k < n
      ensures x[k] == y[k]
    {
    }
  }

  // ----- powers and big-endian integers

  function Pow2(k: nat): (p: nat)
    ensures p > 0
  {
    if k == 0 then 1 else 2 * Pow2(k - 1)
  }

  lemma {:induction false} Pow2Grows(k: nat, n: nat)
    requires k <= n
    ensures Pow2(k) <= Pow2(n)
  {
    if k < n {
      Pow2Grows(k, n - 1);
    }
  }

  function Pow256(k: nat): (p: nat)
    ensures p > 0
  {
    if k == 0 then 1 else 256 * Pow256(k - 1)
  }

  function ToBE(val: nat, len: nat): (bytes: seq<byte>)
    ensures |bytes| == len
  {
    if len == 0 then [] else ToBE(val / 256, len - 1) + [val % 256]
  }

  function FromBE(bytes: seq<byte>): nat
  {
    if bytes == [] then 0 else 256 * FromBE(bytes[..|bytes| - 1]) + bytes[|bytes| - 1]
  }

  lemma {:induction false} FromBEBound(bytes: seq<byte>)
    ensures FromBE(bytes) < Pow256(|bytes|)
  {
    if bytes != [] {
      FromBEBound(bytes[..|bytes| - 1]);
    }
  }

  /** Decoding an encoding gives the value back, within the width. */
  lemma {:induction false} EncodeThenDecode(val: nat, len: nat)
    requires val < Pow256(len)
    ensures FromBE(ToBE(val, len)) == val
  {
    if len > 0 {
      EncodeThenDecode(val / 256, len - 1);
      assert ToBE(val, len)[..len - 1] == ToBE(val / 256, len - 1);
    }
  }

  /** Encoding a decoded string gives the bytes back. */
  lemma {:induction false} DecodeThenEncode(bytes: seq<byte>)
    ensures ToBE(FromBE(bytes), |bytes|) == bytes
  {
    if bytes != [] {
      var front := bytes[..|bytes| - 1];
      DecodeThenEncode(front);
      assert FromBE(bytes) / 256 == FromBE(front);
      assert bytes == front + [bytes[|bytes| - 1]];
    }
  }

  lemma DivDiv(a: nat, b: nat, c: nat)
    requires b > 0 && c > 0
    ensures b * c > 0 && (a / b) / c == a / (b * c)
  {
    DivModFacts(a, b);
    DivModFacts(a / b, c);
    DivDivParts(a, b, c, a / b, a % b, a / b / c, a / b % c);
    DivUnique(a, b * c, a / b / c, b * (a / b % c) + a % b);
  }

  lemma DivModFacts(a: nat, b: nat)
    requires b > 0
    ensures a == b * (a / b) + a % b && 0 <= a % b < b && a / b >= 0
  {
  }

  lemma DivDivParts(a: nat, b: nat, c: nat, d: nat, t: nat, q: nat, s: nat)
    requires b > 0 && c > 0 && a == b * d + t && t < b && d == c * q + s && s < c
    ensures a == q * (b * c) + (b * s + t) && b * s + t < b * c
  {
    assert b * d == b * (c * q) + b * s;
    assert b * (c * q) == q * (b * c);
    assert b * (c - 1 - s) >= 0;
    assert b * (c - 1 - s) == b * c - b - b * s;
  }

  lemma DivUnique(a: nat, m: nat, q: nat, r: nat)
    requires m > 0 && r < m && a == q * m + r
    ensures a / m == q
  {
    var d := a / m - q;
    assert a == (a / m) * m + a % m;
    assert d * m == r - a % m;
    MulGrows(d, m);
  }

  lemma MulGrows(d: int, m: int)
    requires m > 0
    ensures d >= 1 ==> d * m >= m
    ensures d <= -1 ==> d * m <= -m
  {
    if d >= 1 {
      assert (d - 1) * m >= 0;
    } else if d <= -1 {
      assert (d + 1) * m <= 0;
    }
  }

  /** Byte `i` of an encoding is the value shifted right by the bytes after it. */
  lemma {:induction false} EncodedByte(val: nat, len: nat, i: nat)
    requires i < len
    ensures ToBE(val, len)[i] == (val / Pow256(len - 1 - i)) % 256
  {
    if i < len - 1 {
      EncodedByte(val / 256, len - 1, i);
      DivDiv(val, 256, Pow256(len - 2 - i));
    }
  }

  /** Writes `val` most significant byte first: `(val >> 8*(len-1-idx)) & 0xFF`. */
  method UnsignedIntToNetworkBytes(val: nat, len: nat, bytes: array<byte>, off: nat)
    requires off + len <= bytes.Length
    modifies bytes
    ensures bytes[..] == Splice(old(bytes[..]), off, ToBE(val, len))
  {
    var idx := 0;
    while idx < len
      invariant 0 <= idx <= len
      invariant bytes[..off] == old(bytes[..off])
      invariant bytes[off..off + idx] == ToBE(val, len)[..idx]
      invariant bytes[off + len..] == old(bytes[off + len..])
    {
      bytes[off + idx] := (val / Pow256(len - 1 - idx)) % 256;
      EncodedByte(val, len, idx);
      assert bytes[off..off + idx + 1] == bytes[off..off + idx] + [bytes[off + idx]];
      idx := idx + 1;
    }
    assert bytes[..] == bytes[..off] + bytes[off..off + len] + bytes[off + len..];
  }

  lemma ShiftedIn(a: nat, b: nat, p: nat)
    ensures a * (256 * p) + b * p == (256 * a + b) * p
  {
  }

  /** Accumulates the bytes shifted to their places; the shifted bytes are
      disjoint, so the bitwise OR of the C code is this addition. */
  method NetworkBytesToUnsignedInt(len: nat, bytes: seq<byte>) returns (val: nat)
    requires len <= |bytes|
    ensures val == FromBE(bytes[..len])
    ensures val < Pow256(len)
  {
    var idx := 0;
    val := 0;
    while idx < len
      invariant 0 <= idx <= len
      invariant val == FromBE(bytes[..idx]) * Pow256(len - idx)
    {
      assert bytes[..idx + 1] == bytes[..idx] + [bytes[idx]];
      assert FromBE(bytes[..idx + 1]) == 256 * FromBE(bytes[..idx]) + bytes[idx];
      ghost var p := Pow256(len - 1 - idx);
      ShiftedIn(FromBE(bytes[..idx]), bytes[idx], p);
      val := val + bytes[idx] * Pow256(len - 1 - idx);
      idx := idx + 1;
    }
    FromBEBound(bytes[..len]);
  }
}
