/** LM-OTS one-time signatures (lmots.c; sections 4.3 to 4.6 of RFC 8554).
    Functions say what the byte strings are; methods compute them in place. */
module Lmots {
  import opened Bytes
  import opened Options
  import opened LmsParams
  import opened HashEngines

  datatype OtsParams = OtsParams(keyId: seq<byte>, leafId: seq<byte>, otsType: nat)

  // ----- hash chains

  /** Hash step `j` of digit `i`'s chain. */
  function ChainStep(sha: Sha256, p: OtsParams, i: nat, j: nat, x: seq<byte>): (y: seq<byte>)
    ensures |y| == NHashLen(p.otsType)
  {
    sha(p.keyId + p.leafId + ToBE(i, 2) + ToBE(j, 1) + x)[..NHashLen(p.otsType)]
  }

  /** Digit `i`'s chain from hash index `from` up to but not including `to`. */
  function Chain(sha: Sha256, p: OtsParams, i: nat, from: nat, to: nat, x: seq<byte>): (y: seq<byte>)
    requires |x| == NHashLen(p.otsType)
    ensures |y| == NHashLen(p.otsType)
  {
    if to <= from then x
    else ChainStep(sha, p, i, to - 1, Chain(sha, p, i, from, to - 1, x))
  }

  /** Walking a chain to `b` and on to `c` is walking it to `c` at once. */
  lemma {:induction false} ChainCompose(sha: Sha256, p: OtsParams, i: nat, a: nat, b: nat, c: nat, x: seq<byte>)
    requires a <= b <= c && |x| == NHashLen(p.otsType)
    ensures Chain(sha, p, i, b, c, Chain(sha, p, i, a, b, x)) == Chain(sha, p, i, a, c, x)
  {
    if b < c {
      ChainCompose(sha, p, i, a, b, c - 1, x);
    }
  }

  /** Start and end of digit `i`'s walk: null arrays stand for 0 and 255. */
  function ChainFrom(mins: Option<seq<byte>>, i: nat): nat {
    if mins.Some? && i < |mins.value| then mins.value[i] else 0
  }

  function ChainTo(maxs: Option<seq<byte>>, i: nat): nat {
    if maxs.Some? && i < |maxs.value| then maxs.value[i] else DIGIT_MAX_VALUE
  }

  /** The first `k` rows of the digit array hashed along their chains. */
  function HashDigits(sha: Sha256, p: OtsParams, x: seq<byte>, mins: Option<seq<byte>>,
                      maxs: Option<seq<byte>>, k: nat): (y: seq<byte>)
    requires k * NHashLen(p.otsType) <= |x|
    ensures |y| == k * NHashLen(p.otsType)
  {
    var n := NHashLen(p.otsType);
    if k == 0 then []
    else
      assert (k - 1) * n + n == k * n;
      HashDigits(sha, p, x, mins, maxs, k - 1)
      + Chain(sha, p, k - 1, ChainFrom(mins, k - 1), ChainTo(maxs, k - 1), Row(x, k - 1, n))
  }

  lemma {:induction false} HashDigitsRow(sha: Sha256, p: OtsParams, x: seq<byte>, mins: Option<seq<byte>>,
                                        maxs: Option<seq<byte>>, k: nat, i: nat)
    requires k * NHashLen(p.otsType) <= |x| && i < k
    ensures var n := NHashLen(p.otsType);
            i * n + n <= k * n
            && Row(HashDigits(sha, p, x, mins, maxs, k), i, n)
               == Chain(sha, p, i, ChainFrom(mins, i), ChainTo(maxs, i), Row(x, i, n))
  {
    var n := NHashLen(p.otsType);
    RowFits(i, k, n);
    assert (k - 1) * n + n == k * n;
    if i < k - 1 {
      HashDigitsRow(sha, p, x, mins, maxs, k - 1, i);
      var y := HashDigits(sha, p, x, mins, maxs, k - 1);
      assert HashDigits(sha, p, x, mins, maxs, k)[..|y|] == y;
      RowFits(i, k - 1, n);
      RowOfPrefix(HashDigits(sha, p, x, mins, maxs, k), y, i, n);
    }
  }

  lemma RowOfPrefix(s: seq<byte>, y: seq<byte>, i: nat, n: nat)
    requires i * n + n <= |y| <= |s| && s[..|y|] == y
    ensures Row(s, i, n) == Row(y, i, n)
  {
    assert s[0..|y|] == y;
    SubSlice(s, 0, |y|, i * n, n);
  }

  /** Hashing each chain up to its digit and then from its digit to the end is
      hashing it from start to end: the identity behind LM-OTS. */
  lemma {:induction false} SplitWalk(sha: Sha256, p: OtsParams, x: seq<byte>, d: seq<byte>, k: nat)
    requires k * NHashLen(p.otsType) <= |x| && k <= |d|
    ensures HashDigits(sha, p, HashDigits(sha, p, x, None, Some(d), k), Some(d), None, k)
            == HashDigits(sha, p, x, None, None, k)
  {
    SplitWalkOver(sha, p, x, HashDigits(sha, p, x, None, Some(d), k), d, k, k);
  }

  /** The same over a buffer `y` that holds the signed rows of the first `all` digits. */
  lemma {:induction false} SplitWalkOver(sha: Sha256, p: OtsParams, x: seq<byte>, y: seq<byte>,
                                        d: seq<byte>, k: nat, all: nat)
    requires k <= all <= |d| && all * NHashLen(p.otsType) <= |x|
    requires y == HashDigits(sha, p, x, None, Some(d), all)
    ensures k * NHashLen(p.otsType) <= all * NHashLen(p.otsType)
    ensures HashDigits(sha, p, y, Some(d), None, k) == HashDigits(sha, p, x, None, None, k)
  {
    var n := NHashLen(p.otsType);
    assert (all - k) * n >= 0;
    if k > 0 {
      SplitWalkOver(sha, p, x, y, d, k - 1, all);
      HashDigitsRow(sha, p, x, None, Some(d), all, k - 1);
      ChainCompose(sha, p, k - 1, 0, d[k - 1], DIGIT_MAX_VALUE, Row(x, k - 1, n));
    }
  }

  // ----- message digits and their checksum

  function DigitSum(digest: seq<byte>): nat {
    if digest == [] then 0
    else DigitSum(digest[..|digest| - 1]) + (DIGIT_MAX_VALUE - digest[|digest| - 1])
  }

  /** The Winternitz checksum, truncated to 16 bits by its C return type. */
  function Checksum(digest: seq<byte>): nat {
    DigitSum(digest) % 0x1_0000
  }

  lemma {:induction false} DigitSumBound(digest: seq<byte>)
    ensures DigitSum(digest) <= DIGIT_MAX_VALUE * |digest|
  {
    if digest != [] {
      DigitSumBound(digest[..|digest| - 1]);
    }
  }

  /** The checksum always fits its two bytes: no truncation happens. */
  lemma ChecksumFits(digest: seq<byte>)
    requires |digest| <= N_HASH_LEN_MAX
    ensures Checksum(digest) == DigitSum(digest) < Pow256(2)
  {
    DigitSumBound(digest);
    assert Pow256(2) == 256 * Pow256(1) == 256 * 256 * Pow256(0);
  }

  function MessageDigest(sha: Sha256, p: OtsParams, msg: seq<byte>, c: seq<byte>): (q: seq<byte>)
    ensures |q| == NHashLen(p.otsType)
  {
    sha(p.keyId + p.leafId + [0x81, 0x81] + c + msg)[..NHashLen(p.otsType)]
  }

  /** The digest's digits followed by the two checksum digits. */
  function WithChecksum(digest: seq<byte>): (d: seq<byte>)
    ensures |d| == |digest| + 2
  {
    digest + ToBE(Checksum(digest), 2)
  }

  function Digits(sha: Sha256, p: OtsParams, msg: seq<byte>, c: seq<byte>): (d: seq<byte>)
    ensures |d| == NHashLen(p.otsType) + 2
  {
    WithChecksum(MessageDigest(sha, p, msg, c))
  }

  predicate PointwiseAtMost(a: seq<byte>, b: seq<byte>)
    requires |a| == |b|
  {
    forall i :: 0 <= i < |a| ==> a[i] <= b[i]
  }

  lemma {:induction false} SumAntitone(a: seq<byte>, b: seq<byte>)
    requires |a| == |b| && PointwiseAtMost(a, b)
    ensures DigitSum(b) <= DigitSum(a)
    ensures DigitSum(b) == DigitSum(a) ==> a == b
  {
    if a != [] {
      var n := |a| - 1;
      SumAntitone(a[..n], b[..n]);
      assert a == a[..n] + [a[n]] && b == b[..n] + [b[n]];
    }
  }

  /** Section 4.4 of RFC 8554: no digit string lies pointwise below another's,
      so hashing one signature forward never gives a signature of the other. */
  lemma ChecksumPreventsDomination(a: seq<byte>, b: seq<byte>)
    requires |a| == |b| <= N_HASH_LEN_MAX
    requires PointwiseAtMost(WithChecksum(a), WithChecksum(b))
    ensures a == b
  {
    var (da, db) := (WithChecksum(a), WithChecksum(b));
    forall i | 0 <= i < |a|
      ensures a[i] <= b[i]
    {
      assert da[i] == a[i] && db[i] == b[i];
    }
    SumAntitone(a, b);
    ChecksumFits(a);
    ChecksumFits(b);
    TwoBytes(Checksum(a));
    TwoBytes(Checksum(b));
    assert da[|a|] == ToBE(Checksum(a), 2)[0] && da[|a| + 1] == ToBE(Checksum(a), 2)[1];
    assert db[|b|] == ToBE(Checksum(b), 2)[0] && db[|b| + 1] == ToBE(Checksum(b), 2)[1];
  }

  lemma TwoBytes(v: nat)
    requires v < 0x1_0000
    ensures ToBE(v, 2) == [v / 256, v % 256]
  {
    assert ToBE(v / 256, 1) == ToBE(v / 256 / 256, 0) + [v / 256 % 256];
  }

  /** Whether some of the first `k` chains has at least one hash step to run. */
  predicate SomeStep(mins: Option<seq<byte>>, maxs: Option<seq<byte>>, k: nat) {
    exists i :: 0 <= i < k && ChainFrom(mins, i) < ChainTo(maxs, i)
  }

  /** Signing (0 up to each digit) and the candidate (each digit up to 255) both
      hash at least once: the digits with checksum are neither all 0 nor all 255. */
  lemma EveryMessageHashes(digest: seq<byte>)
    requires 0 < |digest| <= N_HASH_LEN_MAX
    ensures SomeStep(None, Some(WithChecksum(digest)), |digest| + 2)
    ensures SomeStep(Some(WithChecksum(digest)), None, |digest| + 2)
  {
    var d := WithChecksum(digest);
    var n := |digest|;
    ChecksumFits(digest);
    TwoBytes(Checksum(digest));
    assert d[0] == digest[0] && d[n] == Checksum(digest) / 256 && d[n + 1] == Checksum(digest) % 256;
    if forall i :: 0 <= i < n ==> digest[i] == 0 {
      SumOfZeros(digest);
      var j := if d[n] > 0 then n else n + 1;
      assert ChainFrom(None, j) < ChainTo(Some(d), j);
    } else {
      var j :| 0 <= j < n && digest[j] > 0;
      assert d[j] == digest[j];
      assert ChainFrom(None, j) < ChainTo(Some(d), j);
    }
    DigitSumBound(digest);
    assert d[n] < DIGIT_MAX_VALUE;
    assert ChainFrom(Some(d), n) < ChainTo(None, n);
  }

  lemma {:induction false} SumOfZeros(digest: seq<byte>)
    requires forall i :: 0 <= i < |digest| ==> digest[i] == 0
    ensures DigitSum(digest) == DIGIT_MAX_VALUE * |digest|
  {
    if digest != [] {
      SumOfZeros(digest[..|digest| - 1]);
    }
  }

  // ----- keys and signatures

  /** Combines the hashed digits into the one-time public key (section 4.3). */
  function KeyFromHashedDigits(sha: Sha256, p: OtsParams, y: seq<byte>): (key: seq<byte>)
    ensures |key| == NHashLen(p.otsType)
  {
    sha(p.keyId + p.leafId + [0x80, 0x80] + y)[..NHashLen(p.otsType)]
  }

  /** Rows of the private key buffer are written this far apart... */
  const PRIVATE_KEY_BYTES := P_SIG_DIGIT_COUNT_MAX * N_HASH_LEN_MAX

  /** ...and the derivation of the `i`-th of them from the seed. */
  function DerivedRow(sha: Sha256, p: OtsParams, seed: seq<byte>, i: nat): (x: seq<byte>)
    ensures |x| == NHashLen(p.otsType)
  {
    sha(p.keyId + p.leafId + ToBE(i, 2) + [0xFF] + seed)[..NHashLen(p.otsType)]
  }

  /** The flat private key buffer after the first `k` rows are derived. */
  function DerivedKey(sha: Sha256, p: OtsParams, seed: seq<byte>, before: seq<byte>, k: nat): (key: seq<byte>)
    requires |before| == PRIVATE_KEY_BYTES && k <= P_SIG_DIGIT_COUNT_MAX
    ensures |key| == PRIVATE_KEY_BYTES
  {
    if k == 0 then before
    else Splice(DerivedKey(sha, p, seed, before, k - 1), (k - 1) * N_HASH_LEN_MAX,
                DerivedRow(sha, p, seed, k - 1))
  }

  /** The public key of a flat private key buffer (section 4.3). */
  function OtsPublicKey(sha: Sha256, p: OtsParams, key: seq<byte>): (k: seq<byte>)
    requires |key| == PRIVATE_KEY_BYTES
    ensures |k| == NHashLen(p.otsType)
  {
    DigitsFit(p.otsType);
    KeyFromHashedDigits(sha, p, HashDigits(sha, p, key, None, None, SigDigitCount(p.otsType)))
  }

  lemma DigitsFit(otsType: nat)
    ensures SigDigitCount(otsType) * NHashLen(otsType) <= PRIVATE_KEY_BYTES
  {
  }

  /** A one-time signature (section 4.5): type, randomizer, chains up to the digits. */
  function OtsSignature(sha: Sha256, p: OtsParams, key: seq<byte>, msg: seq<byte>, c: seq<byte>): (sig: seq<byte>)
    requires |key| == PRIVATE_KEY_BYTES && |c| == NHashLen(p.otsType)
    ensures |sig| == OtsSigLen(p.otsType)
  {
    DigitsFit(p.otsType);
    ToBE(p.otsType, TYPE_LEN) + c
    + HashDigits(sha, p, key, None, Some(Digits(sha, p, msg, c)), SigDigitCount(p.otsType))
  }

  /** The public key candidate of a signature and message (section 4.6). */
  function OtsCandidate(sha: Sha256, p: OtsParams, msg: seq<byte>, sig: seq<byte>): (k: seq<byte>)
    requires |sig| == OtsSigLen(p.otsType)
    ensures |k| == NHashLen(p.otsType)
  {
    var n := NHashLen(p.otsType);
    var digits := Digits(sha, p, msg, sig[TYPE_LEN..TYPE_LEN + n]);
    KeyFromHashedDigits(sha, p, HashDigits(sha, p, sig[TYPE_LEN + n..], Some(digits), None, SigDigitCount(p.otsType)))
  }

  /** A signature's candidate is the public key, for every key buffer, message,
      randomizer and parameter set: section 4.6 undoes section 4.5. */
  lemma SignatureReproducesPublicKey(sha: Sha256, p: OtsParams, key: seq<byte>, msg: seq<byte>, c: seq<byte>)
    requires |key| == PRIVATE_KEY_BYTES && |c| == NHashLen(p.otsType)
    ensures OtsCandidate(sha, p, msg, OtsSignature(sha, p, key, msg, c)) == OtsPublicKey(sha, p, key)
  {
    DigitsFit(p.otsType);
    var n := NHashLen(p.otsType);
    var d := Digits(sha, p, msg, c);
    var sig := OtsSignature(sha, p, key, msg, c);
    assert sig[TYPE_LEN..TYPE_LEN + n] == c;
    assert sig[TYPE_LEN + n..] == HashDigits(sha, p, key, None, Some(d), SigDigitCount(p.otsType));
    SplitWalk(sha, p, key, d, SigDigitCount(p.otsType));
  }

  // ----- the in-place code

  /** The inner loop of `hash_digit_array`: walks one chain in the buffer
      `tmpHash`. `before` is the status left by the digits handled so far. */
  method HashChain(e: HashEngine, p: OtsParams, i: nat, from: nat, to: nat, before: PsaStatus, tmpHash: array<byte>)
    returns (failed: bool, status: PsaStatus)
    requires tmpHash.Length == N_HASH_LEN_MAX
    modifies tmpHash
    ensures failed ==> status != PsaSuccess && !e.reliable
    ensures !failed ==> status == if from < to then PsaSuccess else before
    ensures !failed ==> tmpHash[..NHashLen(p.otsType)]
                        == Chain(e.sha256, p, i, from, to, old(tmpHash[..NHashLen(p.otsType)]))
  {
    var n := NHashLen(p.otsType);
    status := before;
    var j := from;
    while j < to
      invariant from <= j && (if from <= to then j <= to else j == from)
      invariant tmpHash[..n] == Chain(e.sha256, p, i, from, j, old(tmpHash[..n]))
      invariant status == if from < j then PsaSuccess else before
    {
      var digest: seq<byte>;
      status, digest := e.Run(p.keyId + p.leafId + ToBE(i, 2) + ToBE(j, 1) + tmpHash[..n]);
      if status != PsaSuccess {
        return true, status;
      }
      CopyInto(tmpHash, 0, digest);
      assert tmpHash[..n] == digest[..n];
      j := j + 1;
    }
    failed := false;
  }

  /** One pass of the loop over the digits: a row is copied, walked and appended. */
  method HashDigit(e: HashEngine, p: OtsParams, x: seq<byte>, mins: Option<seq<byte>>, maxs: Option<seq<byte>>, i: nat,
                   before: PsaStatus, tmpHash: array<byte>, output: array<byte>)
    returns (failed: bool, status: PsaStatus)
    requires tmpHash.Length == N_HASH_LEN_MAX && tmpHash != output
    requires i * NHashLen(p.otsType) + NHashLen(p.otsType) <= |x|
    requires i * NHashLen(p.otsType) + NHashLen(p.otsType) <= output.Length
    requires (mins.Some? ==> i < |mins.value|) && (maxs.Some? ==> i < |maxs.value|)
    requires output[..i * NHashLen(p.otsType)] == HashDigits(e.sha256, p, x, mins, maxs, i)
    requires before == if SomeStep(mins, maxs, i) then PsaSuccess else PsaCorruptionDetected
    modifies tmpHash, output
    ensures (i + 1) * NHashLen(p.otsType) == i * NHashLen(p.otsType) + NHashLen(p.otsType)
    ensures failed ==> status != PsaSuccess && !e.reliable
    ensures !failed ==>
      output[..(i + 1) * NHashLen(p.otsType)] == HashDigits(e.sha256, p, x, mins, maxs, i + 1)
      && status == if SomeStep(mins, maxs, i + 1) then PsaSuccess else PsaCorruptionDetected
  {
    var n := NHashLen(p.otsType);
    CopyInto(tmpHash, 0, Row(x, i, n));
    assert tmpHash[..n] == Row(x, i, n);
    var from := if mins.Some? then mins.value[i] else 0;
    var to := if maxs.Some? then maxs.value[i] else DIGIT_MAX_VALUE;
    failed, status := HashChain(e, p, i, from, to, before, tmpHash);
    if !failed {
      AppendRow(output, i, n, tmpHash[..n]);
    }
    assert (i + 1) * n == i * n + n;
  }

  /** `hash_digit_array`: hashes each digit's chain between its two bounds. The
      status starts as an error, so a run without any hash step reports one. */
  method HashDigitArray(e: HashEngine, p: OtsParams, x: seq<byte>, mins: Option<seq<byte>>,
                        maxs: Option<seq<byte>>, output: array<byte>)
    returns (ret: Ret)
    requires SigDigitCount(p.otsType) * NHashLen(p.otsType) <= |x|
    requires SigDigitCount(p.otsType) * NHashLen(p.otsType) <= output.Length
    requires mins.Some? ==> SigDigitCount(p.otsType) <= |mins.value|
    requires maxs.Some? ==> SigDigitCount(p.otsType) <= |maxs.value|
    modifies output
    ensures ret == Success ==>
      output[..SigDigitCount(p.otsType) * NHashLen(p.otsType)]
      == HashDigits(e.sha256, p, x, mins, maxs, SigDigitCount(p.otsType))
    ensures e.reliable ==>
      ret == if SomeStep(mins, maxs, SigDigitCount(p.otsType)) then Success else CorruptionDetected
  {
    var n := NHashLen(p.otsType);
    var count := SigDigitCount(p.otsType);
    var tmpHash := new byte[N_HASH_LEN_MAX];
    var status := PsaCorruptionDetected;
    var i := 0;
    while i < count
      invariant 0 <= i <= count
      invariant i * n <= count * n
      invariant output[..i * n] == HashDigits(e.sha256, p, x, mins, maxs, i)
      invariant status == if SomeStep(mins, maxs, i) then PsaSuccess else PsaCorruptionDetected
    {
      RowFits(i, count, n);
      var failed;
      failed, status := HashDigit(e, p, x, mins, maxs, i, status, tmpHash, output);
      if failed {
        return PsaToMbedtls(status);
      }
      i := i + 1;
    }
    ret := PsaToMbedtls(status);
  }

  /** Copies a row to the end of the rows written so far. */
  method AppendRow(output: array<byte>, i: nat, n: nat, row: seq<byte>)
    requires |row| == n && i * n + n <= output.Length
    modifies output
    ensures output[..i * n + n] == old(output[..i * n]) + row
  {
    CopyInto(output, i * n, row);
    ghost var after := output[..];
    assert after[..i * n] + after[i * n..i * n + n] == output[..i * n + n];
    assert old(output[..])[..i * n] == old(output[..i * n]);
  }

  method ChecksumCalculate(p: OtsParams, digest: seq<byte>) returns (sum: nat)
    requires NHashLen(p.otsType) <= |digest|
    ensures sum == Checksum(digest[..NHashLen(p.otsType)])
  {
    var acc := 0;
    var idx := 0;
    while idx < NHashLen(p.otsType)
      invariant 0 <= idx <= NHashLen(p.otsType)
      invariant acc == DigitSum(digest[..idx])
    {
      assert digest[..idx + 1] == digest[..idx] + [digest[idx]];
      acc := acc + (DIGIT_MAX_VALUE - digest[idx]);
      idx := idx + 1;
    }
    sum := acc % 0x1_0000;
  }

  method CreateDigitArrayWithChecksum(e: HashEngine, p: OtsParams, msg: seq<byte>, c: seq<byte>, out: array<byte>)
    returns (ret: Ret)
    requires |c| == NHashLen(p.otsType)
    requires NHashLen(p.otsType) + 2 <= out.Length
    modifies out
    ensures ret == Success ==> out[..NHashLen(p.otsType) + 2] == Digits(e.sha256, p, msg, c)
    ensures e.reliable ==> ret == Success
  {
    var n := NHashLen(p.otsType);
    var status, digest := e.Run(p.keyId + p.leafId + [0x81, 0x81] + c + msg);
    if status != PsaSuccess {
      return PsaToMbedtls(status);
    }
    CopyInto(out, 0, digest[..n]);
    assert out[..n] == digest[..n];
    var checksum := ChecksumCalculate(p, out[..n]);
    assert out[..n][..n] == out[..n];
    UnsignedIntToNetworkBytes(checksum, 2, out, n);
    assert out[..n + 2] == out[..n] + out[n..n + 2];
    ret := Success;
  }

  method PublicKeyFromHashedDigitArray(e: HashEngine, p: OtsParams, y: seq<byte>) returns (ret: Ret, key: seq<byte>)
    requires SigDigitCount(p.otsType) * NHashLen(p.otsType) <= |y|
    ensures ret == Success ==>
      key == KeyFromHashedDigits(e.sha256, p, y[..SigDigitCount(p.otsType) * NHashLen(p.otsType)])
    ensures e.reliable ==> ret == Success
  {
    key := [];
    var status, digest := e.Run(p.keyId + p.leafId + [0x80, 0x80]
                                + y[..SigDigitCount(p.otsType) * NHashLen(p.otsType)]);
    ret := PsaToMbedtls(status);
    if ret == Success {
      key := digest[..NHashLen(p.otsType)];
    }
  }

  /** `mbedtls_lmots_calculate_public_key_candidate`. */
  method CalculatePublicKeyCandidate(e: HashEngine, p: OtsParams, msg: Message, sig: seq<byte>,
                                     out: array<byte>, outSize: nat)
    returns (ret: Ret)
    requires outSize <= out.Length
    modifies out
    ensures msg.Bad() || |sig| != OtsSigLen(p.otsType) || outSize < NHashLen(p.otsType) ==> ret == BadInputData
    ensures ret == Success ==>
      |sig| == OtsSigLen(p.otsType) && NHashLen(p.otsType) <= out.Length
      && out[..NHashLen(p.otsType)] == OtsCandidate(e.sha256, p, msg.Text(), sig)
    ensures ret != Success ==> out[..] == old(out[..])
    ensures e.reliable && ValidOtsType(p.otsType) && !msg.Bad() ==>
      |sig| == OtsSigLen(p.otsType) && NHashLen(p.otsType) <= outSize ==> ret == Success
  {
    var n := NHashLen(p.otsType);
    if msg.Bad() {
      return BadInputData;
    }
    if |sig| != OtsSigLen(p.otsType) || outSize < n {
      return BadInputData;
    }
    DigitsFit(p.otsType);
    var tmpDigitArray := new byte[P_SIG_DIGIT_COUNT_MAX];
    var yHashedDigits := new byte[PRIVATE_KEY_BYTES];
    var c := sig[TYPE_LEN..TYPE_LEN + n];
    ret := CreateDigitArrayWithChecksum(e, p, msg.Text(), c, tmpDigitArray);
    if ret != Success {
      return;
    }
    var digits := tmpDigitArray[..n + 2];
    ret := HashDigitArray(e, p, sig[TYPE_LEN + n..], Some(digits), None, yHashedDigits);
    if e.reliable && ValidOtsType(p.otsType) {
      EveryMessageHashes(MessageDigest(e.sha256, p, msg.Text(), c));
    }
    if ret != Success {
      return;
    }
    var key;
    ret, key := PublicKeyFromHashedDigitArray(e, p, yHashedDigits[..]);
    assert yHashedDigits[..][..SigDigitCount(p.otsType) * n] == yHashedDigits[..SigDigitCount(p.otsType) * n];
    if ret != Success {
      return;
    }
    CopyInto(out, 0, key);
  }
}
