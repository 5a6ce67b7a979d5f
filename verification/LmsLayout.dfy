/** Sizes and layouts of keys and signatures in plain numbers (sections 4.3, 4.5, 5.3 and
    5.4.1 of RFC 8554). */
module LmsLayout {
  import opened Bytes
  import opened Options
  import opened LmsParams
  import opened HashEngines
  import opened Lmots
  import opened LmotsContexts
  import opened Merkle
  import opened Lms
  import opened HashUses

  /** The sizes of the parameter sets, by their type numbers. */
  lemma Sizes()
    ensures OtsSigLen(4) == 1124 && OtsSigLen(8) == 652 && OtsPublicKeyLen(4) == 56 && OtsPublicKeyLen(8) == 48
    ensures LmsSigLen(6, 4) == 1452 && LmsSigLen(10, 4) == 1252 && LmsSigLen(10, 8) == 780 && LmsSigLen(6, 8) == 980
    ensures LmsPublicKeyLen(6) == 56 && LmsPublicKeyLen(10) == 48 && LeafCount(6) == 1024 && LeafCount(10) == 32
    ensures forall t :: !ValidLmsType(t) <==> t != 6 && t != 10
    ensures forall t :: !ValidOtsType(t) <==> t != 4 && t != 8
  {
    assert Pow2(5) == 32;
    assert Pow2(10) == 32 * Pow2(5);
  }

  lemma Joined(a: seq<byte>, b: seq<byte>, c: seq<byte>, d: seq<byte>)
    ensures var s := a + b + c + d;
            && s[..|a|] == a && s[|a|..|a| + |b|] == b && s[|a| + |b|..|a| + |b| + |c|] == c
            && s[|a| + |b| + |c|..] == d
  {
  }

  /** A one-time signature: type, randomizer, then the value of each chain walked from the
      key's row to the message's digit. */
  lemma OtsSignatureLayout(sha: Sha256, p: OtsParams, key: seq<byte>, msg: seq<byte>, c: seq<byte>, i: nat)
    requires |key| == PRIVATE_KEY_BYTES && |c| == NHashLen(p.otsType) && i < SigDigitCount(p.otsType)
    ensures var n := NHashLen(p.otsType); var sig := OtsSignature(sha, p, key, msg, c);
            && i * n + n <= |key| && 4 + n + i * n + n <= |sig|
            && sig[..4] == FourBytes(p.otsType) && sig[4..4 + n] == c
            && sig[4 + n..][i * n..i * n + n] == Chain(sha, p, i, 0, Digits(sha, p, msg, c)[i], key[i * n..i * n + n])
  {
    var (n, d, count) := (NHashLen(p.otsType), Digits(sha, p, msg, c), SigDigitCount(p.otsType));
    var sig, rows := OtsSignature(sha, p, key, msg, c), HashDigits(sha, p, key, None, Some(d),
      SigDigitCount(p.otsType));
    FourBytesAreBE(p.otsType);
    RowFits(i, count, n);
    HashDigitsRow(sha, p, key, None, Some(d), count, i);
    assert sig[..4] == FourBytes(p.otsType) && sig[4..4 + n] == c && sig[4 + n..] == rows;
  }

  /** A one-time public key: the hash over the ends of all chains, each walked from the key's
      row at step 0 to step 255. */
  lemma KeyOfChains(sha: Sha256, p: OtsParams, key: seq<byte>, i: nat) returns (ends: seq<byte>)
    requires |key| == PRIVATE_KEY_BYTES && i < SigDigitCount(p.otsType)
    ensures var n := NHashLen(p.otsType);
            && OtsPublicKey(sha, p, key) == sha(p.keyId + p.leafId + [0x80, 0x80] + ends)[..n]
            && |ends| == SigDigitCount(p.otsType) * n && i * n + n <= |ends| && i * n + n <= |key|
            && ends[i * n..i * n + n] == Chain(sha, p, i, 0, 255, key[i * n..i * n + n])
  {
    var (n, count) := (NHashLen(p.otsType), SigDigitCount(p.otsType));
    DigitsFit(p.otsType);
    RowFits(i, count, n);
    HashDigitsRow(sha, p, key, None, None, count, i);
    ends := HashDigits(sha, p, key, None, None, count);
  }

  /** A generated key: no leaf is used yet, leaf `q` has the key's identifier and its own
      number, byte `b` of its private key is byte `b % 32` of the hash for row `b / 32` of the
      seed, or 0 past the rows and the hash length; and its public key is the private one's. */
  lemma GeneratedLeaf(sha: Sha256, p: LmsParameters, seed: seq<byte>, q: nat, b: nat)
    requires p.WellSized() && p.Supported() && q < LeafCount(p.lmsType) && b < 1088
    ensures var k := FreshKey(sha, p, seed); var n := NHashLen(p.otsType);
            && |k.ots| == |k.pubs| == LeafCount(p.lmsType) && k.next == 0 && k.params == p && k.have
            && k.ots[q].params == OtsParams(p.keyId, FourBytes(q), p.otsType) && |k.ots[q].key| == 1088 && k.ots[q].have
            && k.ots[q].key[b] == (if b / 32 < n + 2 && b % 32 < n
                                   then sha(p.keyId + FourBytes(q) + [0, b / 32, 0xFF] + seed)[b % 32] else 0)
            && |k.pubs[q].key| == 32 && k.pubs[q].key[..n] == OtsPublicKey(sha, k.ots[q].params, k.ots[q].key)
  {
    FourBytesAreBE(q);
    GeneratedKeyByte(sha, p.Ots(q), seed, SigDigitCount(p.otsType), b);
    ChainTag(b / 32);
    assert p.keyId + FourBytes(q) + [0, b / 32] + [0xFF] + seed == p.keyId + FourBytes(q) + [0, b / 32, 0xFF] + seed;
  }

  /** A signature: leaf number, one-time signature, type. */
  lemma SignatureLayout(sha: Sha256, p: LmsParameters, key: OtsKey, leafKeys: seq<seq<byte>>, q: nat,
                        msg: seq<byte>, c: seq<byte>)
    requires CanIssue(p, key, leafKeys, q) && |c| == NHashLen(p.otsType)
    ensures var sig := LmsSignature(sha, p, key, leafKeys, q, msg, c); var k := OtsSigLen(p.otsType);
            && |sig| == 8 + k + HTreeHeight(p.lmsType) * MNodeBytes(p.lmsType)
            && sig[..4] == FourBytes(q) && sig[4..4 + k] == OtsSignature(sha, key.params, key.key, msg, c)
            && sig[4 + k..8 + k] == FourBytes(p.lmsType) && sig[8 + k..] == SigningPath(sha, p, leafKeys, q)
  {
    FourBytesAreBE(q);
    FourBytesAreBE(p.lmsType);
    Joined(ToBE(q, 4), OtsSignature(sha, key.params, key.key, msg, c), ToBE(p.lmsType, 4),
      SigningPath(sha, p, leafKeys, q));
  }

  lemma SigningPathRow(sha: Sha256, p: LmsParameters, leafKeys: seq<seq<byte>>, q: nat, h: nat)
    requires q < |leafKeys| == LeafCount(p.lmsType) && h < HTreeHeight(p.lmsType)
    ensures h * MNodeBytes(p.lmsType) + MNodeBytes(p.lmsType) <= |SigningPath(sha, p, leafKeys, q)|
    ensures 2 <= Sibling(Ancestor(LeafCount(p.lmsType) + q, h)) < 2 * LeafCount(p.lmsType)
    ensures Row(SigningPath(sha, p, leafKeys, q), h, MNodeBytes(p.lmsType)) ==
              Node(sha, p.Shape(), leafKeys, Sibling(Ancestor(LeafCount(p.lmsType) + q, h)))
  {
    SigningPathInside(p, q);
    AuthPathRow(sha, p.Shape(), leafKeys, LeafCount(p.lmsType) + q, HTreeHeight(p.lmsType), h);
  }

  /** Its path: at each height the other child of the same parent, from the leaf up. */
  lemma PathLayout(sha: Sha256, p: LmsParameters, leafKeys: seq<seq<byte>>, q: nat, h: nat, r: nat, other: nat)
    requires q < |leafKeys| == LeafCount(p.lmsType) && h < HTreeHeight(p.lmsType)
    requires r == (LeafCount(p.lmsType) + q) / Pow2(h) && other == if r % 2 == 0 then r + 1 else r - 1
    ensures h * MNodeBytes(p.lmsType) + MNodeBytes(p.lmsType) <= |SigningPath(sha, p, leafKeys, q)|
    ensures 1 <= other < 2 * LeafCount(p.lmsType)
    ensures var n := MNodeBytes(p.lmsType);
            SigningPath(sha, p, leafKeys, q)[h * n..h * n + n] ==
              Node(sha, p.Shape(), leafKeys, other)
  {
    AncestorIsShift(LeafCount(p.lmsType) + q, h);
    SigningPathRow(sha, p, leafKeys, q, h);
  }

  /** A public key: both types, the key identifier, the root. */
  lemma PublicKeyLayout(v: LmsPublicKey)
    requires v.Valid()
    ensures var s := EncodeLmsPublic(v);
            && s[..4] == FourBytes(v.params.lmsType) && s[4..8] == FourBytes(v.params.otsType)
            && s[8..24] == v.params.keyId && s[24..] == v.root[..MNodeBytes(v.params.lmsType)]
  {
    FourBytesAreBE(v.params.lmsType);
    FourBytesAreBE(v.params.otsType);
    Joined(ToBE(v.params.lmsType, 4), ToBE(v.params.otsType, 4), v.params.keyId,
      v.root[..MNodeBytes(v.params.lmsType)]);
  }

  /** A one-time public key: type, key identifier, leaf identifier, key. */
  lemma OtsPublicKeyLayout(v: OtsPublic)
    requires v.Valid()
    ensures var s := EncodeOtsPublic(v);
            && s[..4] == FourBytes(v.params.otsType) && s[4..20] == v.params.keyId && s[20..24] == v.params.leafId
            && s[24..] == v.key[..NHashLen(v.params.otsType)]
  {
    FourBytesAreBE(v.params.otsType);
    Joined(ToBE(v.params.otsType, 4), v.params.keyId, v.params.leafId, v.key[..NHashLen(v.params.otsType)]);
  }

  /** A signature is accepted exactly when the key is of the one accepted type, the
      signature has its length, names known types, a leaf of the tree and a readable
      message, and leads to the key's root. */
  lemma AcceptedExactly(sha: Sha256, v: LmsPublicKey, msg: Message, sig: seq<byte>)
    requires v.Valid()
    ensures LmsVerifyResult(sha, v, msg, sig) == Success <==>
              v.have && v.params.otsType == 4 && (v.params.lmsType == 6 || v.params.lmsType == 10)
              && |sig| == LmsSigLen(v.params.lmsType, 4)
              && (FromBE(sig[4..8]) == 4 || FromBE(sig[4..8]) == 8)
              && (FromBE(sig[1128..1132]) == 6 || FromBE(sig[1128..1132]) == 10)
              && FromBE(sig[..4]) < (if v.params.lmsType == 6 then 1024 else 32) && !(msg.NullMessage? && msg.size != 0)
              && RootCandidate(sha, v.params, msg.Text(), sig) == v.root[..if v.params.lmsType == 6 then 32 else 24]
  {
    Sizes();
  }

  /** Every other verdict: bad input when the public key is not set or of another type, a
      failed verification otherwise. */
  lemma RefusedExactly(sha: Sha256, v: LmsPublicKey, msg: Message, sig: seq<byte>)
    requires v.Valid() && LmsVerifyResult(sha, v, msg, sig) != Success
    ensures LmsVerifyResult(sha, v, msg, sig) ==
              if v.have && v.params.otsType == 4 && (v.params.lmsType == 6 || v.params.lmsType == 10) then VerifyFailed
              else BadInputData
  {
  }

  /** A one-time signature is accepted exactly when the key is of type 4, the signature has its
      length and type and a readable message, and leads to the key. */
  lemma OtsAcceptedExactly(sha: Sha256, v: OtsPublic, msg: Message, sig: seq<byte>)
    requires v.Valid()
    ensures OtsVerifyResult(sha, v, msg, sig) == Success <==>
              v.have && v.params.otsType == 4 && !(msg.NullMessage? && msg.size != 0)
              && |sig| == 1124 && FromBE(sig[..4]) == 4 && OtsCandidate(sha, v.params, msg.Text(), sig) == v.key
  {
    Sizes();
  }

  /** What a successful sign call wrote: the next leaf's number, the randomizer drawn for this
      call, and the leaf's chains walked to the digits of this message. */
  lemma IssuedLayout(sha: Sha256, k: LmsKey, call: SignCall, k': LmsKey, sig: seq<byte>, i: nat)
    requires k.Valid() && Consistent(sha, k) && SignStep(sha, k, call, k', Success, sig)
    requires i < SigDigitCount(k.params.otsType)
    ensures var n := NHashLen(k.params.otsType); var q := k.next; var c := call.rng.Take(n);
            && q < |k.ots| && |k.ots[q].key| == 1088 && i * n + n <= 1088 && 8 + n + i * n + n <= |sig|
            && sig[..4] == FourBytes(q) && sig[8..8 + n] == c
            && sig[8 + n..][i * n..i * n + n] ==
                 Chain(sha, k.params.Ots(q), i, 0, Digits(sha, k.params.Ots(q), call.msg.Text(), c)[i],
                       k.ots[q].key[i * n..i * n + n])
  {
    var (p, q, n) := (k.params, k.next, NHashLen(k.params.otsType));
    var c := call.rng.Take(n);
    assert LeafMatches(sha, k, q);
    SignatureLayout(sha, p, k.ots[q], k.LeafKeys(), q, call.msg.Text(), c);
    OtsSignatureLayout(sha, k.ots[q].params, k.ots[q].key, call.msg.Text(), c, i);
    InsideOts(sig, OtsSignature(sha, k.ots[q].params, k.ots[q].key, call.msg.Text(), c), n, i);
  }

  /** Afterwards the leaf's key is zero and the next leaf's turn has come; nothing else changed. */
  lemma IssuedKey(sha: Sha256, k: LmsKey, call: SignCall, k': LmsKey, sig: seq<byte>)
    requires k.Valid() && SignStep(sha, k, call, k', Success, sig)
    ensures k.next < |k.ots|
    ensures k' == k.(next := k.next + 1, ots := k.ots[k.next := OtsKey(k.ots[k.next].params, Zeros(1088), false)])
  {
  }

  lemma Drawn(rng: Rng, n: nat, b: nat)
    requires b < n
    ensures rng.Take(n)[b] == rng.stream(b)
  {
  }

  /** Randomizer and row `i` of a one-time signature that starts at byte 4. */
  lemma InsideOts(sig: seq<byte>, ots: seq<byte>, n: nat, i: nat)
    requires 4 + |ots| <= |sig| && sig[4..4 + |ots|] == ots && 4 + n + i * n + n <= |ots|
    ensures sig[8..8 + n] == ots[4..4 + n] && sig[8 + n..][i * n..i * n + n] == ots[4 + n..][i * n..i * n + n]
  {
    var at := i * n;
    SubSlice(sig, 4, |ots|, 4, n);
    SubSlice(sig, 4, |ots|, 4 + n + at, n);
    assert sig[8 + n..][at..at + n] == sig[8 + n + at..8 + n + at + n];
    assert ots[4 + n..][at..at + n] == ots[4 + n + at..4 + n + at + n];
  }

  /** An import, exactly: it succeeds for the two types of tree with their lengths and a known
      one-time type, and takes over every field; a refused key changes at most the type. */
  lemma LmsImportExactly(v: LmsPublicKey, key: seq<byte>)
    requires v.Valid() && |key| >= 4
    ensures var (w, ret) := ImportLmsPublic(v, key); var t := FromBE(key[..4]);
            && (ret == Success <==>
                  ((t == 6 && |key| == 56) || (t == 10 && |key| == 48))
                  && (FromBE(key[4..8]) == 4 || FromBE(key[4..8]) == 8))
            && (ret == Success ==>
                  w.params == LmsParameters(key[8..24], FromBE(key[4..8]), t) && w.have && |w.root| == 32
                  && w.root[..|key| - 24] == key[24..] && w.root[|key| - 24..] == v.root[|key| - 24..])
            && (ret != Success ==>
                  ret == BadInputData
                  && w == if t == 6 || t == 10 then v.(params := v.params.(lmsType := t)) else v)
  {
    Sizes();
  }

  lemma OtsImportExactly(v: OtsPublic, key: seq<byte>)
    requires v.Valid()
    ensures var (w, ret) := ImportOtsPublic(v, key);
            if |key| < 4 then ret == BadInputData && w == v
            else
              var t := FromBE(key[..4]);
              && (ret == Success <==> |key| == (if t == 4 then 56 else if t == 8 then 48 else 24))
              && (ret == Success ==>
                    w.params == OtsParams(key[4..20], key[20..24], t) && w.have && |w.key| == 32
                    && w.key[..|key| - 24] == key[24..] && w.key[|key| - 24..] == v.key[|key| - 24..])
              && (ret != Success ==> ret == BadInputData && w == v.(params := v.params.(otsType := t)))
  {
  }

  /** The refusals of a sign call, in the order in which they are made; a refused call changes
      nothing. Any other failure costs a leaf. */
  lemma SignRefusals(sha: Sha256, k: LmsKey, call: SignCall, k': LmsKey, ret: Ret, sig: seq<byte>)
    requires k.Valid() && SignStep(sha, k, call, k', ret, sig)
    ensures !k.have ==> k' == k && ret == BadInputData
    ensures k.have && call.sigSize < LmsSigLen(k.params.lmsType, k.params.otsType) ==> k' == k && ret == BufferTooSmall
    ensures k.have && call.sigSize >= LmsSigLen(k.params.lmsType, k.params.otsType) ==>
              if k.next >= |k.ots| then k' == k && ret == OutOfPrivateKeys else k'.next == k.next + 1
  {
  }

  /** The message that is signed is the one handed in; a null pointer stands for the empty one. */
  lemma MessageText(data: seq<byte>, size: nat)
    ensures Message(data).Text() == data && !Message(data).Bad()
    ensures NullMessage(size).Text() == [] && (NullMessage(size).Bad() <==> size > 0)
  {
  }

  /** Different failures of the hash engine are reported as different errors. */
  lemma ErrorsApart(s: PsaStatus, t: PsaStatus)
    ensures PsaToMbedtls(s) == PsaToMbedtls(t) <==> s == t
    ensures s == PsaBufferTooSmall ==> PsaToMbedtls(s) == BufferTooSmall
    ensures s == PsaInvalidArgument ==> PsaToMbedtls(s) == BadInputData
    ensures s == PsaNotSupported ==> PsaToMbedtls(s) == FeatureUnsupported
    ensures s == PsaCorruptionDetected ==> PsaToMbedtls(s) == CorruptionDetected
    ensures s == PsaHardwareFailure ==> PsaToMbedtls(s) == HwAccelFailed
  {
  }
}
