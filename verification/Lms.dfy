/** LMS keys, signatures and verification as values (lms.c; sections 5.2 to
    5.4.2 of RFC 8554), with the results over whole runs of sign calls. */
module Lms {
  import opened Bytes
  import opened LmsParams
  import opened HashEngines
  import opened Lmots
  import opened LmotsContexts
  import opened Merkle

  datatype LmsParameters = LmsParameters(keyId: seq<byte>, otsType: nat, lmsType: nat) {
    predicate WellSized() {
      |keyId| == I_KEY_ID_LEN && otsType < Pow256(TYPE_LEN) && lmsType < Pow256(TYPE_LEN)
    }

    predicate Supported() {
      ValidLmsType(lmsType) && ValidOtsType(otsType)
    }

    function Shape(): Tree {
      Tree(keyId, HTreeHeight(lmsType), LeafCount(lmsType), MNodeBytes(lmsType))
    }

    /** The one-time parameters of leaf `q`. */
    function Ots(q: nat): OtsParams {
      OtsParams(keyId, ToBE(q, Q_LEAF_ID_LEN), otsType)
    }
  }

  const NO_LMS_PARAMS := LmsParameters(Zeros(I_KEY_ID_LEN), 0, 0)

  // Signature layout: leaf number, one-time signature, type, path.
  const SIG_OTS_OFFSET := Q_LEAF_ID_LEN

  function SigTypeOffset(otsType: nat): nat {
    SIG_OTS_OFFSET + OtsSigLen(otsType)
  }

  function SigPathOffset(otsType: nat): nat {
    SigTypeOffset(otsType) + TYPE_LEN
  }

  // ----- private keys

  function HashedKey(v: OtsPublic, otsType: nat): seq<byte>
    requires v.Valid()
  {
    v.key[..NHashLen(otsType)]
  }

  function KeysOf(pubs: seq<OtsPublic>, otsType: nat): (keys: seq<seq<byte>>)
    requires forall i :: 0 <= i < |pubs| ==> pubs[i].Valid()
    ensures |keys| == |pubs|
  {
    seq(|pubs|, i requires 0 <= i < |pubs| => HashedKey(pubs[i], otsType))
  }

  /** What a private context holds. */
  datatype LmsKey = LmsKey(params: LmsParameters, next: nat, ots: seq<OtsKey>, pubs: seq<OtsPublic>, have: bool) {
    predicate Valid() {
      && params.WellSized()
      && (forall i :: 0 <= i < |ots| ==> ots[i].Valid())
      && (forall i :: 0 <= i < |pubs| ==> pubs[i].Valid())
      && (have ==>
            params.Supported() && |ots| == |pubs| == LeafCount(params.lmsType)
            && forall i :: 0 <= i < |ots| ==> ots[i].params.otsType == params.otsType)
    }

    /** The leaves' public keys, as the tree hashes them. */
    function LeafKeys(): (keys: seq<seq<byte>>)
      requires Valid()
      ensures |keys| == |pubs|
    {
      KeysOf(pubs, params.otsType)
    }

    function Root(sha: Sha256): (root: seq<byte>)
      requires Valid() && have
      ensures |root| == MNodeBytes(params.lmsType)
    {
      Node(sha, params.Shape(), LeafKeys(), 1)
    }
  }

  lemma SigningPathInside(p: LmsParameters, q: nat)
    requires q < LeafCount(p.lmsType)
    ensures PathInside(p.Shape(), LeafCount(p.lmsType) + q)
  {
    LeafPathInside(p.Shape(), LeafCount(p.lmsType) + q);
  }

  const NO_KEY := LmsKey(NO_LMS_PARAMS, 0, [], [], false)

  function FreshOts(sha: Sha256, p: LmsParameters, seed: seq<byte>, i: nat): OtsKey {
    GeneratedKey(sha, p.Ots(i), seed)
  }

  function FreshPublic(sha: Sha256, p: LmsParameters, seed: seq<byte>, i: nat): OtsPublic {
    OtsPublic(p.Ots(i),
              Splice(Zeros(N_HASH_LEN_MAX), 0, OtsPublicKey(sha, p.Ots(i), FreshOts(sha, p, seed, i).key)), true)
  }

  /** The key pair that generation leaves in the context. */
  function FreshKey(sha: Sha256, p: LmsParameters, seed: seq<byte>): LmsKey {
    LmsKey(p, 0,
           seq(LeafCount(p.lmsType), (i: nat) => FreshOts(sha, p, seed, i)),
           seq(LeafCount(p.lmsType), (i: nat) => FreshPublic(sha, p, seed, i)),
           true)
  }

  /** Unspent leaves still match the public keys the tree is built from. */
  ghost predicate Consistent(sha: Sha256, k: LmsKey)
    requires k.Valid()
  {
    && k.have
    && k.next <= LeafCount(k.params.lmsType)
    && forall i :: 0 <= i < |k.ots| ==> LeafMatches(sha, k, i)
  }

  ghost predicate LeafMatches(sha: Sha256, k: LmsKey, i: nat)
    requires k.Valid() && k.have && i < |k.ots|
  {
    && k.ots[i].params == k.params.Ots(i)
    && (i >= k.next ==>
          k.ots[i].have
          && k.pubs[i].key[..NHashLen(k.params.otsType)] == OtsPublicKey(sha, k.ots[i].params, k.ots[i].key))
  }

  lemma FreshKeyConsistent(sha: Sha256, p: LmsParameters, seed: seq<byte>)
    requires p.WellSized() && p.Supported()
    ensures FreshKey(sha, p, seed).Valid() && Consistent(sha, FreshKey(sha, p, seed))
  {
    var k := FreshKey(sha, p, seed);
    forall i | 0 <= i < LeafCount(p.lmsType)
      ensures k.ots[i].Valid() && k.pubs[i].Valid() && k.ots[i].params == p.Ots(i)
    {
    }
    forall i | 0 <= i < |k.ots|
      ensures LeafMatches(sha, k, i)
    {
    }
  }

  // ----- signatures

  /** Leaf `q`'s one-time key and the leaves' public keys fit the parameters. */
  predicate CanIssue(p: LmsParameters, key: OtsKey, leafKeys: seq<seq<byte>>, q: nat) {
    p.Supported() && key.Valid() && key.params.otsType == p.otsType && q < |leafKeys| == LeafCount(p.lmsType)
  }

  /** The signature of leaf `q` under its one-time key (section 5.4.1). */
  ghost function LmsSignature(sha: Sha256, p: LmsParameters, key: OtsKey, leafKeys: seq<seq<byte>>, q: nat,
                              msg: seq<byte>, c: seq<byte>): (sig: seq<byte>)
    requires CanIssue(p, key, leafKeys, q) && |c| == NHashLen(p.otsType)
    ensures |sig| == LmsSigLen(p.lmsType, p.otsType)
  {
    ToBE(q, Q_LEAF_ID_LEN) + OtsSignature(sha, key.params, key.key, msg, c) + ToBE(p.lmsType, TYPE_LEN)
    + SigningPath(sha, p, leafKeys, q)
  }

  ghost function SigningPath(sha: Sha256, p: LmsParameters, leafKeys: seq<seq<byte>>, q: nat): (path: seq<byte>)
    requires q < |leafKeys| == LeafCount(p.lmsType)
    ensures |path| == HTreeHeight(p.lmsType) * MNodeBytes(p.lmsType)
  {
    SigningPathInside(p, q);
    AuthPath(sha, p.Shape(), leafKeys, LeafCount(p.lmsType) + q, HTreeHeight(p.lmsType))
  }

  datatype SignCall = SignCall(msg: Message, sigSize: nat, rng: Rng) {
    /** Nothing but a hash or allocation failure keeps this call from signing. */
    predicate CanSign(k: LmsKey)
      requires k.Valid()
    {
      && k.have && LmsSigLen(k.params.lmsType, k.params.otsType) <= sigSize
      && k.next < LeafCount(k.params.lmsType) && k.ots[k.next].have
      && !msg.Bad() && rng.status == 0
    }
  }

  /** One call of `mbedtls_lms_sign`: `k` before, `k'` after, the return code and,
      on success, the bytes issued. Hash and allocation failures make it a relation. */
  ghost predicate SignStep(sha: Sha256, k: LmsKey, call: SignCall, k': LmsKey, ret: Ret, sig: seq<byte>)
    requires k.Valid()
  {
    if !k.have then k' == k && ret == BadInputData
    else if call.sigSize < LmsSigLen(k.params.lmsType, k.params.otsType) then k' == k && ret == BufferTooSmall
    else if k.next >= LeafCount(k.params.lmsType) then k' == k && ret == OutOfPrivateKeys
    else UseLeaf(sha, k, call, k', ret, sig)
  }

  /** Leaf `k.next` is used up; either no one-time signature was made with it, or
      one was and its private key is gone, even if the path then failed. */
  ghost predicate UseLeaf(sha: Sha256, k: LmsKey, call: SignCall, k': LmsKey, ret: Ret, sig: seq<byte>)
    requires k.Valid() && k.have && k.next < |k.ots|
  {
    var q := k.next;
    var burnt := k.(next := q + 1);
    if k' == burnt then ret != Success
    else
      && k.ots[q].have && !call.msg.Bad() && call.rng.status == 0
      && k' == burnt.(ots := k.ots[q := k.ots[q].Spent()])
      && (ret == Success ==>
            sig == LmsSignature(sha, k.params, k.ots[q], k.LeafKeys(), q, call.msg.Text(),
                                call.rng.Take(NHashLen(k.params.otsType))))
  }

  // ----- verification

  /** What a public context holds. */
  datatype LmsPublicKey = LmsPublicKey(params: LmsParameters, root: seq<byte>, have: bool) {
    predicate Valid() {
      params.WellSized() && |root| == M_NODE_BYTES_MAX
    }
  }

  /** The root candidate of a signature of the right length (section 5.4.2). */
  function RootCandidate(sha: Sha256, p: LmsParameters, msg: seq<byte>, sig: seq<byte>): (root: seq<byte>)
    requires |sig| == LmsSigLen(p.lmsType, p.otsType)
    ensures |root| == MNodeBytes(p.lmsType)
  {
    var r := LeafCount(p.lmsType) + LeafNumber(sig);
    Climb(sha, p.Shape(), r, LeafValue(sha, p.Shape(), LeafKeyCandidate(sha, p, msg, sig), r),
          sig[SigPathOffset(p.otsType)..], HTreeHeight(p.lmsType))
  }

  function LeafNumber(sig: seq<byte>): nat
    requires |sig| >= Q_LEAF_ID_LEN
  {
    FromBE(sig[..Q_LEAF_ID_LEN])
  }

  function LeafKeyCandidate(sha: Sha256, p: LmsParameters, msg: seq<byte>, sig: seq<byte>): seq<byte>
    requires |sig| == LmsSigLen(p.lmsType, p.otsType)
  {
    OtsCandidate(sha, p.Ots(LeafNumber(sig)), msg, sig[SIG_OTS_OFFSET..SigTypeOffset(p.otsType)])
  }

  /** The two type fields of a signature only have to name supported types. */
  predicate TypesRecognized(p: LmsParameters, sig: seq<byte>)
    requires |sig| == LmsSigLen(p.lmsType, p.otsType)
  {
    && ValidOtsType(FromBE(sig[SIG_OTS_OFFSET..SIG_OTS_OFFSET + TYPE_LEN]))
    && ValidLmsType(FromBE(sig[SigTypeOffset(p.otsType)..SigPathOffset(p.otsType)]))
  }

  /** The checks of a verification that come before the comparison of roots. */
  predicate PassesChecks(v: LmsPublicKey, msg: Message, sig: seq<byte>)
    requires v.Valid()
  {
    var p := v.params;
    && v.have && ValidLmsType(p.lmsType) && p.otsType == LMOTS_N32_W8 && |sig| == LmsSigLen(p.lmsType, p.otsType)
    && TypesRecognized(p, sig) && LeafNumber(sig) < LeafCount(p.lmsType) && !msg.Bad()
  }

  /** What `mbedtls_lms_verify` returns when the hash engine does not fail. */
  function LmsVerifyResult(sha: Sha256, v: LmsPublicKey, msg: Message, sig: seq<byte>): Ret
    requires v.Valid()
  {
    var p := v.params;
    if !v.have || !ValidLmsType(p.lmsType) || p.otsType != LMOTS_N32_W8 then BadInputData
    else if |sig| != LmsSigLen(p.lmsType, p.otsType) then VerifyFailed
    else if !TypesRecognized(p, sig) || LeafNumber(sig) >= LeafCount(p.lmsType) then VerifyFailed
    else if msg.Bad() then VerifyFailed
    else if RootCandidate(sha, p, msg.Text(), sig) != v.root[..MNodeBytes(p.lmsType)] then VerifyFailed
    else Success
  }

  /** `v` is the public key calculated from `k`. */
  ghost predicate PublicKeyOf(sha: Sha256, v: LmsPublicKey, k: LmsKey)
    requires k.Valid() && v.Valid()
  {
    k.have && v.have && v.params == k.params && v.root[..MNodeBytes(k.params.lmsType)] == k.Root(sha)
  }

  /** The signature of an unspent leaf verifies exactly when the key's one-time
      type is N32_W8, the only one the verifier takes. */
  lemma SignatureVerifies(sha: Sha256, k: LmsKey, v: LmsPublicKey, msg: Message, c: seq<byte>)
    requires k.Valid() && v.Valid() && Consistent(sha, k) && PublicKeyOf(sha, v, k)
    requires k.next < LeafCount(k.params.lmsType) && !msg.Bad()
    requires |c| == NHashLen(k.params.otsType)
    ensures LmsVerifyResult(sha, v, msg, NextSignature(sha, k, msg.Text(), c)) == Success
            <==> k.params.otsType == LMOTS_N32_W8
  {
    var p := k.params;
    if p.otsType == LMOTS_N32_W8 {
      assert LeafMatches(sha, k, k.next);
      SignatureFields(sha, p, k.ots[k.next], k.LeafKeys(), k.next, msg.Text(), c);
      SignatureRoot(sha, p, k.ots[k.next], k.LeafKeys(), k.next, msg.Text(), c);
    }
  }

  ghost function NextSignature(sha: Sha256, k: LmsKey, msg: seq<byte>, c: seq<byte>): seq<byte>
    requires k.Valid() && k.have && k.next < LeafCount(k.params.lmsType) && |c| == NHashLen(k.params.otsType)
  {
    LmsSignature(sha, k.params, k.ots[k.next], k.LeafKeys(), k.next, msg, c)
  }

  /** The root candidate of a signature is the root of the tree, for every
      supported type, when the leaf's public key is in the tree: section 5.4.2
      undoes section 5.4.1. */
  lemma SignatureRoot(sha: Sha256, p: LmsParameters, key: OtsKey, leafKeys: seq<seq<byte>>, q: nat,
                      msg: seq<byte>, c: seq<byte>)
    requires CanIssue(p, key, leafKeys, q) && |c| == NHashLen(p.otsType)
    requires key.params == p.Ots(q) && leafKeys[q] == OtsPublicKey(sha, key.params, key.key)
    ensures RootCandidate(sha, p, msg, LmsSignature(sha, p, key, leafKeys, q, msg, c))
            == Node(sha, p.Shape(), leafKeys, 1)
  {
    var sig := LmsSignature(sha, p, key, leafKeys, q, msg, c);
    SignatureFields(sha, p, key, leafKeys, q, msg, c);
    SignatureReproducesPublicKey(sha, key.params, key.key, msg, c);
    RootFromParts(sha, p, msg, sig, q, leafKeys[q], SigningPath(sha, p, leafKeys, q));
    SigningPathReachesRoot(sha, p, leafKeys, q);
  }

  lemma SigningPathReachesRoot(sha: Sha256, p: LmsParameters, leafKeys: seq<seq<byte>>, q: nat)
    requires q < |leafKeys| == LeafCount(p.lmsType)
    ensures var r := LeafCount(p.lmsType) + q;
            Climb(sha, p.Shape(), r, LeafValue(sha, p.Shape(), leafKeys[q], r), SigningPath(sha, p, leafKeys, q),
                  HTreeHeight(p.lmsType))
            == Node(sha, p.Shape(), leafKeys, 1)
  {
    SigningPathInside(p, q);
    ClimbReachesRoot(sha, p.Shape(), leafKeys, q);
  }

  lemma RootFromParts(sha: Sha256, p: LmsParameters, msg: seq<byte>, sig: seq<byte>, q: nat, key: seq<byte>,
                      path: seq<byte>)
    requires |sig| == LmsSigLen(p.lmsType, p.otsType) && LeafNumber(sig) == q
    requires LeafKeyCandidate(sha, p, msg, sig) == key && sig[SigPathOffset(p.otsType)..] == path
    ensures var r := LeafCount(p.lmsType) + q;
            RootCandidate(sha, p, msg, sig)
            == Climb(sha, p.Shape(), r, LeafValue(sha, p.Shape(), key, r), path, HTreeHeight(p.lmsType))
  {
  }

  lemma LeafNumbersFit(lmsType: nat)
    ensures LeafCount(lmsType) <= 1024 < Pow256(4)
  {
    assert Pow2(10) == 1024;
    assert Pow2(5) == 32 && Pow2(0) == 1;
    assert Pow256(4) == 256 * 256 * Pow256(2) && Pow256(2) >= 1;
  }

  /** Reading the fields of a signature back. */
  lemma SignatureFields(sha: Sha256, p: LmsParameters, key: OtsKey, leafKeys: seq<seq<byte>>, q: nat,
                        msg: seq<byte>, c: seq<byte>)
    requires CanIssue(p, key, leafKeys, q) && |c| == NHashLen(p.otsType)
    ensures var sig := LmsSignature(sha, p, key, leafKeys, q, msg, c);
            && LeafNumber(sig) == q
            && sig[SIG_OTS_OFFSET..SigTypeOffset(p.otsType)] == OtsSignature(sha, key.params, key.key, msg, c)
            && sig[SigPathOffset(p.otsType)..] == SigningPath(sha, p, leafKeys, q)
            && FromBE(sig[SIG_OTS_OFFSET..SIG_OTS_OFFSET + TYPE_LEN]) == p.otsType
            && FromBE(sig[SigTypeOffset(p.otsType)..SigPathOffset(p.otsType)]) == p.lmsType
  {
    var sig := LmsSignature(sha, p, key, leafKeys, q, msg, c);
    var ots := OtsSignature(sha, key.params, key.key, msg, c);
    LeafNumbersFit(p.lmsType);
    EncodeThenDecode(q, 4);
    EncodeThenDecode(p.otsType, 4);
    EncodeThenDecode(p.lmsType, 4);
    assert sig[..Q_LEAF_ID_LEN] == ToBE(q, 4);
    assert sig[SIG_OTS_OFFSET..SigTypeOffset(p.otsType)] == ots;
    assert sig[SIG_OTS_OFFSET..SIG_OTS_OFFSET + TYPE_LEN] == ots[..TYPE_LEN] == ToBE(p.otsType, 4);
    assert sig[SigTypeOffset(p.otsType)..SigPathOffset(p.otsType)] == ToBE(p.lmsType, 4);
  }

  /** Where two accepted signatures of one leaf part: nowhere, in the hash of the leaf's
      candidate key, or in what is hashed at a height of the climb. */
  datatype Meeting = SameKeyAndPath | AtLeaf | AtHeight(level: nat)

  /** What the two verifications hash at that place. */
  ghost predicate MeetAt(sha: Sha256, p: LmsParameters, msg1: seq<byte>, sig1: seq<byte>,
                         msg2: seq<byte>, sig2: seq<byte>, m: Meeting)
    requires |sig1| == |sig2| == LmsSigLen(p.lmsType, p.otsType) && LeafNumber(sig1) == LeafNumber(sig2)
  {
    var (tree, r) := (p.Shape(), LeafCount(p.lmsType) + LeafNumber(sig1));
    var (k1, k2) := (LeafKeyCandidate(sha, p, msg1, sig1), LeafKeyCandidate(sha, p, msg2, sig2));
    var (path1, path2) := (sig1[SigPathOffset(p.otsType)..], sig2[SigPathOffset(p.otsType)..]);
    match m
    case SameKeyAndPath => k1 == k2 && path1 == path2
    case AtLeaf => path1 == path2 && Collides(sha, tree.width, LeafInput(tree, k1, r), LeafInput(tree, k2, r))
    case AtHeight(level) =>
      level < tree.height
      && CollideAt(sha, tree, r, LeafValue(sha, tree, k1, r), path1, LeafValue(sha, tree, k2, r), path2,
                   tree.height, level)
  }

  /** Binding of whole signatures: two accepted signatures of one leaf agree on the leaf's
      candidate key and on the path, or two inputs that their verifications hash, for the
      leaf or at one height, are a collision. */
  lemma SignatureBinding(sha: Sha256, v: LmsPublicKey, msg1: Message, sig1: seq<byte>, msg2: Message, sig2: seq<byte>)
    returns (m: Meeting)
    requires v.Valid()
    requires LmsVerifyResult(sha, v, msg1, sig1) == Success && LmsVerifyResult(sha, v, msg2, sig2) == Success
    requires LeafNumber(sig1) == LeafNumber(sig2)
    ensures MeetAt(sha, v.params, msg1.Text(), sig1, msg2.Text(), sig2, m)
  {
    m := SameRootBinding(sha, v.params, msg1.Text(), sig1, msg2.Text(), sig2);
  }

  lemma SameRootBinding(sha: Sha256, p: LmsParameters, msg1: seq<byte>, sig1: seq<byte>, msg2: seq<byte>,
                        sig2: seq<byte>)
    returns (m: Meeting)
    requires |sig1| == |sig2| == LmsSigLen(p.lmsType, p.otsType) && LeafNumber(sig1) == LeafNumber(sig2)
    requires RootCandidate(sha, p, msg1, sig1) == RootCandidate(sha, p, msg2, sig2)
    ensures MeetAt(sha, p, msg1, sig1, msg2, sig2, m)
  {
    var (tree, r) := (p.Shape(), LeafCount(p.lmsType) + LeafNumber(sig1));
    var (k1, k2) := (LeafKeyCandidate(sha, p, msg1, sig1), LeafKeyCandidate(sha, p, msg2, sig2));
    var (path1, path2) := (sig1[SigPathOffset(p.otsType)..], sig2[SigPathOffset(p.otsType)..]);
    var level := PathBinding(sha, tree, r, LeafValue(sha, tree, k1, r), path1, LeafValue(sha, tree, k2, r), path2,
                             tree.height);
    if level < tree.height {
      m := AtHeight(level);
    } else {
      WholePath(path1, tree.height * tree.width);
      WholePath(path2, tree.height * tree.width);
      LeafInputInjective(tree, k1, k2, r);
      m := if k1 == k2 then SameKeyAndPath else AtLeaf;
    }
  }

  lemma WholePath(path: seq<byte>, n: nat)
    requires |path| == n
    ensures path[..n] == path
  {
  }

  lemma LeafInputInjective(p: Tree, k1: seq<byte>, k2: seq<byte>, r: nat)
    ensures LeafInput(p, k1, r) == LeafInput(p, k2, r) <==> k1 == k2
  {
    var head := p.keyId + ToBE(r, 4) + [0x82, 0x82];
    assert LeafInput(p, k1, r)[|head|..] == k1 && LeafInput(p, k2, r)[|head|..] == k2;
  }

  // ----- runs of sign calls

  datatype Event = Event(call: SignCall, ret: Ret, sig: seq<byte>) {
    predicate Issued() {
      ret == Success
    }
  }

  /** `ks[i]` is the context before call `i` and `ks[i + 1]` the one after it. */
  ghost predicate IsRun(sha: Sha256, ks: seq<LmsKey>, evs: seq<Event>) {
    && |ks| == |evs| + 1
    && (forall i :: 0 <= i < |ks| ==> ks[i].Valid())
    && forall i :: 0 <= i < |evs| ==> SignStep(sha, ks[i], evs[i].call, ks[i + 1], evs[i].ret, evs[i].sig)
  }

  /** What one call keeps, whatever it returns. */
  ghost predicate Keeps(k: LmsKey, k': LmsKey)
    requires k.Valid() && k'.Valid()
  {
    && k'.params == k.params && k'.pubs == k.pubs && |k'.ots| == |k.ots|
    && k.next <= k'.next
    && forall i :: 0 <= i < |k.ots| && i < k.next && !k.ots[i].have ==> k'.ots[i] == k.ots[i]
  }

  lemma StepKeeps(sha: Sha256, k: LmsKey, call: SignCall, k': LmsKey, ret: Ret, sig: seq<byte>)
    requires k.Valid() && k'.Valid() && Consistent(sha, k)
    requires SignStep(sha, k, call, k', ret, sig)
    ensures Consistent(sha, k') && Keeps(k, k')
  {
    forall i | 0 <= i < |k'.ots|
      ensures LeafMatches(sha, k', i)
    {
      assert LeafMatches(sha, k, i);
    }
  }

  lemma RunStep(sha: Sha256, ks: seq<LmsKey>, evs: seq<Event>, i: nat)
    requires IsRun(sha, ks, evs) && i < |evs| && Consistent(sha, ks[i])
    ensures SignStep(sha, ks[i], evs[i].call, ks[i + 1], evs[i].ret, evs[i].sig)
    ensures Consistent(sha, ks[i + 1]) && Keeps(ks[i], ks[i + 1])
  {
    assert SignStep(sha, ks[i], evs[i].call, ks[i + 1], evs[i].ret, evs[i].sig);
    StepKeeps(sha, ks[i], evs[i].call, ks[i + 1], evs[i].ret, evs[i].sig);
  }

  lemma KeepsTwice(a: LmsKey, b: LmsKey, c: LmsKey)
    requires a.Valid() && b.Valid() && c.Valid() && Keeps(a, b) && Keeps(b, c)
    ensures Keeps(a, c)
  {
  }

  lemma {:induction false} RunKeepsFrom(sha: Sha256, ks: seq<LmsKey>, evs: seq<Event>, i: nat, j: nat)
    requires IsRun(sha, ks, evs) && i <= j < |ks| && Consistent(sha, ks[i])
    ensures Consistent(sha, ks[j]) && Keeps(ks[i], ks[j])
    decreases j - i
  {
    if i < j {
      RunStep(sha, ks, evs, i);
      RunKeepsFrom(sha, ks, evs, i + 1, j);
      KeepsTwice(ks[i], ks[i + 1], ks[j]);
    }
  }

  lemma RunKeeps(sha: Sha256, ks: seq<LmsKey>, evs: seq<Event>, i: nat, j: nat)
    requires IsRun(sha, ks, evs) && Consistent(sha, ks[0]) && i <= j < |ks|
    ensures Consistent(sha, ks[i]) && Consistent(sha, ks[j]) && Keeps(ks[i], ks[j])
  {
    RunKeepsFrom(sha, ks, evs, 0, i);
    RunKeepsFrom(sha, ks, evs, i, j);
  }

  /** End to end: in any run of sign calls from a generated key, every signature
      issued verifies under the public key, whenever that was calculated, exactly when
      the key is N32_W8. */
  lemma IssuedSignaturesVerify(sha: Sha256, ks: seq<LmsKey>, evs: seq<Event>, v: LmsPublicKey, i: nat, j: nat)
    requires IsRun(sha, ks, evs) && Consistent(sha, ks[0])
    requires j < |ks| && v.Valid() && PublicKeyOf(sha, v, ks[j])
    requires i < |evs| && evs[i].Issued()
    ensures LmsVerifyResult(sha, v, evs[i].call.msg, evs[i].sig) == Success <==> v.params.otsType == LMOTS_N32_W8
  {
    RunKeeps(sha, ks, evs, 0, i);
    RunKeeps(sha, ks, evs, 0, j);
    RunStep(sha, ks, evs, i);
    var (k, e) := (ks[i], evs[i]);
    assert k.LeafKeys() == ks[j].LeafKeys();
    SignatureVerifies(sha, k, v, e.call.msg, e.call.rng.Take(NHashLen(k.params.otsType)));
  }

  /** One-time use: an issued signature is of the next unused leaf, and from then
      on that leaf's private key is erased. */
  lemma IssuedLeafIsSpent(sha: Sha256, ks: seq<LmsKey>, evs: seq<Event>, i: nat, j: nat)
    requires IsRun(sha, ks, evs) && Consistent(sha, ks[0])
    requires i < j < |ks| && evs[i].Issued()
    ensures |evs[i].sig| >= Q_LEAF_ID_LEN
    ensures LeafNumber(evs[i].sig) == ks[i].next < ks[i + 1].next <= ks[j].next <= |ks[j].ots|
    ensures ks[j].ots[ks[i].next].key == Zeros(PRIVATE_KEY_BYTES) && !ks[j].ots[ks[i].next].have
  {
    RunKeeps(sha, ks, evs, i, i + 1);
    RunStep(sha, ks, evs, i);
    RunKeeps(sha, ks, evs, i + 1, j);
    var (k, e) := (ks[i], evs[i]);
    SignatureFields(sha, k.params, k.ots[k.next], k.LeafKeys(), k.next, e.call.msg.Text(),
                    e.call.rng.Take(NHashLen(k.params.otsType)));
  }

  /** Leaf numbers of issued signatures strictly increase over a run. */
  lemma IssuedLeavesIncrease(sha: Sha256, ks: seq<LmsKey>, evs: seq<Event>, i: nat, j: nat)
    requires IsRun(sha, ks, evs) && Consistent(sha, ks[0])
    requires i < j < |evs| && evs[i].Issued() && evs[j].Issued()
    ensures |evs[i].sig| >= Q_LEAF_ID_LEN && |evs[j].sig| >= Q_LEAF_ID_LEN
    ensures LeafNumber(evs[i].sig) < LeafNumber(evs[j].sig)
  {
    IssuedLeafIsSpent(sha, ks, evs, i, j);
    IssuedLeafIsSpent(sha, ks, evs, j, j + 1);
  }

  /** Number of signatures issued by the first `n` calls. */
  function IssuedCount(evs: seq<Event>, n: nat): nat
    requires n <= |evs|
  {
    if n == 0 then 0 else IssuedCount(evs, n - 1) + if evs[n - 1].Issued() then 1 else 0
  }

  lemma NextAdvances(sha: Sha256, ks: seq<LmsKey>, evs: seq<Event>, i: nat)
    requires IsRun(sha, ks, evs) && Consistent(sha, ks[0]) && i < |evs|
    ensures ks[i].next + (if evs[i].Issued() then 1 else 0) <= ks[i + 1].next <= LeafCount(ks[0].params.lmsType)
  {
    RunKeeps(sha, ks, evs, 0, i + 1);
    RunKeeps(sha, ks, evs, i, i + 1);
    if evs[i].Issued() {
      IssuedLeafIsSpent(sha, ks, evs, i, i + 1);
    }
  }

  /** A key issues at most as many signatures as it has unused leaves, so at most
      2^H over its life. */
  lemma {:induction false} IssuedAtMostLeafCount(sha: Sha256, ks: seq<LmsKey>, evs: seq<Event>, n: nat)
    requires IsRun(sha, ks, evs) && Consistent(sha, ks[0]) && n <= |evs|
    ensures IssuedCount(evs, n) <= ks[n].next - ks[0].next <= LeafCount(ks[0].params.lmsType)
  {
    if n > 0 {
      IssuedAtMostLeafCount(sha, ks, evs, n - 1);
      NextAdvances(sha, ks, evs, n - 1);
    }
  }

  // ----- public key encoding

  const PUB_OTSTYPE_OFFSET := TYPE_LEN
  const PUB_KEY_ID_OFFSET := PUB_OTSTYPE_OFFSET + TYPE_LEN
  const PUB_ROOT_OFFSET := PUB_KEY_ID_OFFSET + I_KEY_ID_LEN

  function EncodeLmsPublic(v: LmsPublicKey): (bytes: seq<byte>)
    requires v.Valid()
    ensures |bytes| == LmsPublicKeyLen(v.params.lmsType)
  {
    ToBE(v.params.lmsType, TYPE_LEN) + ToBE(v.params.otsType, TYPE_LEN) + v.params.keyId
    + v.root[..MNodeBytes(v.params.lmsType)]
  }

  /** The context and return code of an import of `key`, at least 4 bytes long as
      the code reads the type first. A rejected key may already have replaced the type. */
  function ImportLmsPublic(v: LmsPublicKey, key: seq<byte>): (r: (LmsPublicKey, Ret))
    requires v.Valid() && |key| >= TYPE_LEN
    ensures r.0.Valid()
  {
    FromBEBound(key[..TYPE_LEN]);
    var lmsType := FromBE(key[..TYPE_LEN]);
    if !ValidLmsType(lmsType) then (v, BadInputData)
    else
      var typed := v.(params := v.params.(lmsType := lmsType));
      if |key| != LmsPublicKeyLen(lmsType) then (typed, BadInputData)
      else
        FromBEBound(key[PUB_OTSTYPE_OFFSET..PUB_KEY_ID_OFFSET]);
        var otsType := FromBE(key[PUB_OTSTYPE_OFFSET..PUB_KEY_ID_OFFSET]);
        if !ValidOtsType(otsType) then (typed, BadInputData)
        else (LmsPublicKey(LmsParameters(key[PUB_KEY_ID_OFFSET..PUB_ROOT_OFFSET], otsType, lmsType),
                           Splice(v.root, 0, key[PUB_ROOT_OFFSET..]), true),
              Success)
  }

  /** Exporting an imported key gives back the imported bytes. */
  lemma LmsExportAfterImport(v: LmsPublicKey, key: seq<byte>)
    requires v.Valid() && |key| >= TYPE_LEN && ImportLmsPublic(v, key).1 == Success
    ensures EncodeLmsPublic(ImportLmsPublic(v, key).0) == key
  {
    var w := ImportLmsPublic(v, key).0;
    DecodeThenEncode(key[..TYPE_LEN]);
    DecodeThenEncode(key[PUB_OTSTYPE_OFFSET..PUB_KEY_ID_OFFSET]);
    assert w.root[..MNodeBytes(w.params.lmsType)] == key[PUB_ROOT_OFFSET..];
    assert key == key[..TYPE_LEN] + key[PUB_OTSTYPE_OFFSET..PUB_KEY_ID_OFFSET]
                  + key[PUB_KEY_ID_OFFSET..PUB_ROOT_OFFSET] + key[PUB_ROOT_OFFSET..];
  }

  /** Importing an exported key succeeds exactly for supported types, and then
      restores parameters, root and flag; the whole context is restored exactly
      when the bytes past the node width agree as well. */
  lemma LmsImportAfterExport(v: LmsPublicKey, into: LmsPublicKey)
    requires v.Valid() && v.have && into.Valid()
    ensures var (w, ret) := ImportLmsPublic(into, EncodeLmsPublic(v));
            var m := MNodeBytes(v.params.lmsType);
            && (ret == Success <==> v.params.Supported())
            && (ret == Success ==>
                  w.params == v.params && w.have && w.root[..m] == v.root[..m]
                  && (w == v <==> into.root[m..] == v.root[m..]))
  {
    var key := EncodeLmsPublic(v);
    var m := MNodeBytes(v.params.lmsType);
    EncodeThenDecode(v.params.lmsType, TYPE_LEN);
    EncodeThenDecode(v.params.otsType, TYPE_LEN);
    assert key[..TYPE_LEN] == ToBE(v.params.lmsType, TYPE_LEN);
    assert key[PUB_OTSTYPE_OFFSET..PUB_KEY_ID_OFFSET] == ToBE(v.params.otsType, TYPE_LEN);
    assert key[PUB_KEY_ID_OFFSET..PUB_ROOT_OFFSET] == v.params.keyId;
    assert key[PUB_ROOT_OFFSET..] == v.root[..m];
    var w := ImportLmsPublic(into, key).0;
    if v.params.Supported() {
      assert w.root == v.root[..m] + into.root[m..];
      assert v.root == v.root[..m] + v.root[m..];
      assert w.root[m..] == into.root[m..];
    }
  }

  /** The type fields are not compared with the key's: replacing them by any other
      recognized values leaves the verdict unchanged. */
  lemma TypeFieldsNotCompared(sha: Sha256, v: LmsPublicKey, msg: Message, sig: seq<byte>, sig': seq<byte>)
    requires v.Valid() && v.params.otsType == LMOTS_N32_W8
    requires |sig| == |sig'| == LmsSigLen(v.params.lmsType, v.params.otsType)
    requires var t := SigTypeOffset(v.params.otsType);
             sig'[..SIG_OTS_OFFSET] == sig[..SIG_OTS_OFFSET]
             && sig'[SIG_OTS_OFFSET + TYPE_LEN..t] == sig[SIG_OTS_OFFSET + TYPE_LEN..t]
             && sig'[t + TYPE_LEN..] == sig[t + TYPE_LEN..]
    requires TypesRecognized(v.params, sig) && TypesRecognized(v.params, sig')
    ensures LmsVerifyResult(sha, v, msg, sig') == LmsVerifyResult(sha, v, msg, sig)
  {
    var (a, b) := (SIG_OTS_OFFSET, SigTypeOffset(v.params.otsType));
    var n := NHashLen(v.params.otsType);
    var (ots, ots') := (sig[a..b], sig'[a..b]);
    var (rest, rest') := (sig[a + TYPE_LEN..b], sig'[a + TYPE_LEN..b]);
    assert ots[TYPE_LEN..TYPE_LEN + n] == rest[..n] && ots'[TYPE_LEN..TYPE_LEN + n] == rest'[..n];
    assert ots[TYPE_LEN + n..] == rest[n..] && ots'[TYPE_LEN + n..] == rest'[n..];
  }
}
