/** The LMS key contexts and the in-place code of lms.c that works on them. */
module LmsContexts {
  import opened Bytes
  import opened LmsParams
  import opened HashEngines
  import opened Lmots
  import opened LmotsContexts
  import opened Merkle
  import opened Lms

  /** One leaf of the tree, next to the leaves before it. */
  method StoreLeaf(e: HashEngine, p: Tree, ghost keys: seq<seq<byte>>, idx: nat, key: seq<byte>, tree: array<byte>)
    returns (ret: Ret)
    requires |keys| == p.leaves && tree.Length == 2 * p.leaves * p.width
    requires idx < p.leaves && key == keys[idx]
    requires TreeFrom(e.sha256, p, keys, tree[..], p.leaves, p.leaves + idx)
    modifies tree
    ensures ret == Success ==> TreeFrom(e.sha256, p, keys, tree[..], p.leaves, p.leaves + idx + 1)
    ensures e.reliable ==> ret == Success
  {
    LeafGrows(e.sha256, p, keys, tree[..], idx);
    ret := CreateMerkleLeafValue(e, p, key, p.leaves + idx, tree, (p.leaves + idx) * p.width);
  }

  lemma LeafGrows(sha: Sha256, p: Tree, keys: seq<seq<byte>>, tree: seq<byte>, idx: nat)
    requires |keys| == p.leaves && |tree| == 2 * p.leaves * p.width && idx < p.leaves
    requires TreeFrom(sha, p, keys, tree, p.leaves, p.leaves + idx)
    ensures (p.leaves + idx) * p.width + p.width <= |tree|
    ensures TreeFrom(sha, p, keys,
                     Splice(tree, (p.leaves + idx) * p.width, LeafValue(sha, p, keys[idx], p.leaves + idx)),
                     p.leaves, p.leaves + idx + 1)
  {
    var r := p.leaves + idx;
    assert Node(sha, p, keys, r) == LeafValue(sha, p, keys[idx], r);
    TreeGrows(sha, p, keys, tree, p.leaves, r, r);
  }

  /** One internal node of the tree, whose children are already stored. */
  method StoreInternal(e: HashEngine, p: Tree, ghost keys: seq<seq<byte>>, r: nat, tree: array<byte>)
    returns (ret: Ret)
    requires |keys| == p.leaves && tree.Length == 2 * p.leaves * p.width
    requires 1 <= r < p.leaves
    requires TreeFrom(e.sha256, p, keys, tree[..], r + 1, 2 * p.leaves)
    modifies tree
    ensures ret == Success ==> TreeFrom(e.sha256, p, keys, tree[..], r, 2 * p.leaves)
    ensures e.reliable ==> ret == Success
  {
    InternalGrows(e.sha256, p, keys, tree[..], r);
    ret := CreateMerkleInternalValue(e, p, tree, 2 * r * p.width, tree, (2 * r + 1) * p.width, r, tree, r * p.width);
  }

  lemma InternalGrows(sha: Sha256, p: Tree, keys: seq<seq<byte>>, tree: seq<byte>, r: nat)
    requires |keys| == p.leaves && |tree| == 2 * p.leaves * p.width && 1 <= r < p.leaves
    requires TreeFrom(sha, p, keys, tree, r + 1, 2 * p.leaves)
    ensures 0 <= 2 * r * p.width && 2 * r * p.width + p.width <= |tree|
    ensures 0 <= (2 * r + 1) * p.width && (2 * r + 1) * p.width + p.width <= |tree|
    ensures 0 <= r * p.width && r * p.width + p.width <= |tree|
    ensures var left := tree[2 * r * p.width..2 * r * p.width + p.width];
            var right := tree[(2 * r + 1) * p.width..(2 * r + 1) * p.width + p.width];
            TreeFrom(sha, p, keys, Splice(tree, r * p.width, InternalValue(sha, p, left, right, r)), r, 2 * p.leaves)
  {
    StoredNode(sha, p, keys, tree, r + 1, 2 * r);
    StoredNode(sha, p, keys, tree, r + 1, 2 * r + 1);
    ParentNode(sha, p, keys, r);
    TreeGrows(sha, p, keys, tree, r + 1, 2 * p.leaves, r);
  }

  lemma StoredNode(sha: Sha256, p: Tree, keys: seq<seq<byte>>, tree: seq<byte>, from: nat, c: nat)
    requires |keys| == p.leaves && |tree| == 2 * p.leaves * p.width
    requires 1 <= from <= c < 2 * p.leaves
    requires TreeFrom(sha, p, keys, tree, from, 2 * p.leaves)
    ensures c * p.width + p.width <= |tree|
    ensures tree[c * p.width..c * p.width + p.width] == Node(sha, p, keys, c)
  {
    RowFits(c, 2 * p.leaves, p.width);
    assert Row(tree, c, p.width) == Node(sha, p, keys, c);
  }

  /** Copies the authentication path of leaf `r` out of a filled tree. */
  method CopyPath(ghost sha: Sha256, p: Tree, ghost keys: seq<seq<byte>>, r: nat, tree: array<byte>,
                  path: array<byte>, off: nat)
    requires |keys| == p.leaves && tree.Length == 2 * p.leaves * p.width
    requires PathInside(p, r)
    requires TreeFrom(sha, p, keys, tree[..], 1, 2 * p.leaves)
    requires off + p.height * p.width <= path.Length && path != tree
    modifies path
    ensures path[..] == Splice(old(path[..]), off, AuthPath(sha, p, keys, r, p.height))
  {
    ghost var before, done := path[..], [];
    assert Splice(before, off, done) == before;
    var curr := r;
    var height := 0;
    while height < p.height
      invariant 0 <= height <= p.height && height * p.width <= p.height * p.width
      invariant curr == Ancestor(r, height)
      invariant done == AuthPath(sha, p, keys, r, height) && off + |done| <= |before|
      invariant path[..] == Splice(before, off, done)
      invariant tree[..] == old(tree[..])
    {
      var node := CopyPathNode(sha, p, keys, r, height, curr, tree, path, off);
      SpliceTwice(before, off, done, node);
      done := done + node;
      curr := curr / 2;
      height := height + 1;
    }
  }

  method CopySigningPath(ghost sha: Sha256, params: LmsParameters, ghost keys: seq<seq<byte>>, q: nat,
                         tree: array<byte>,
                         path: array<byte>, off: nat)
    requires q < |keys| == LeafCount(params.lmsType)
    requires tree.Length == 2 * LeafCount(params.lmsType) * MNodeBytes(params.lmsType)
    requires TreeFrom(sha, params.Shape(), keys, tree[..], 1, 2 * LeafCount(params.lmsType))
    requires off + HTreeHeight(params.lmsType) * MNodeBytes(params.lmsType) <= path.Length && path != tree
    modifies path
    ensures path[..] == Splice(old(path[..]), off, SigningPath(sha, params, keys, q))
  {
    SigningPathInside(params, q);
    CopyPath(sha, params.Shape(), keys, LeafCount(params.lmsType) + q, tree, path, off);
  }

  /** One pass of the path loop: the node beside `curr`. */
  method CopyPathNode(ghost sha: Sha256, p: Tree, ghost keys: seq<seq<byte>>, ghost r: nat, height: nat, curr: nat,
                      tree: array<byte>, path: array<byte>, off: nat)
    returns (ghost node: seq<byte>)
    requires |keys| == p.leaves && tree.Length == 2 * p.leaves * p.width
    requires PathInside(p, r) && height < p.height && curr == Ancestor(r, height)
    requires TreeFrom(sha, p, keys, tree[..], 1, 2 * p.leaves)
    requires off + p.height * p.width <= path.Length && path != tree
    modifies path
    ensures (height + 1) * p.width <= p.height * p.width
    ensures AuthPath(sha, p, keys, r, height + 1) == AuthPath(sha, p, keys, r, height) + node
    ensures |node| == p.width
    ensures path[..] == Splice(old(path[..]), off + height * p.width, node)
  {
    assert InnerPathNode(p, Ancestor(r, height));
    RowFits(height, p.height, p.width);
    var adjacent := Sibling(curr);
    StoredNode(sha, p, keys, tree[..], 1, adjacent);
    assert |AuthPath(sha, p, keys, r, height)| == height * p.width;
    node := Row(tree[..], adjacent, p.width);
    CopyInto(path, off + height * p.width, Row(tree[..], adjacent, p.width));
  }

  /** Writing the field after the kept bytes `b`, the one before them and the last
      one is writing all of them: `d` to `front`, `tail` and `path` replace the
      parts of their own length. */
  lemma SpliceAround(a: seq<byte>, b: seq<byte>, c: seq<byte>, d: seq<byte>, e: seq<byte>,
                     front: seq<byte>, tail: seq<byte>, path: seq<byte>)
    requires |front| == |a| && |tail| == |c| && |path| == |d|
    ensures Splice(a + b + c + d + e, |a| + |b|, tail) == a + b + tail + d + e
    ensures Splice(a + b + tail + d + e, 0, front) == front + b + tail + d + e
    ensures Splice(front + b + tail + d + e, |a| + |b| + |c|, path) == front + b + tail + path + e
    ensures Splice(a + b + c + d + e, 0, front + b + tail + path) == front + b + tail + path + e
  {
    assert Splice(a + b + c + d + e, |a| + |b|, tail) == a + b + tail + d + e by { SplicePart(a + b, c, d, e, tail); }
    assert Splice(a + b + tail + d + e, 0, front) == front + b + tail + d + e by {
      SpliceFront(a, b, tail, d, e, front);
    }
    assert Splice(front + b + tail + d + e, |a| + |b| + |c|, path) == front + b + tail + path + e by {
      SpliceParts(front + b + tail, d, e, path);
    }
    assert Splice(a + b + c + d + e, 0, front + b + tail + path) == front + b + tail + path + e by {
      SplicePrefix(a + b + c + d, e, front + b + tail + path);
    }
  }

  lemma SplicePrefix(s: seq<byte>, e: seq<byte>, s': seq<byte>)
    requires |s'| == |s|
    ensures Splice(s + e, 0, s') == s' + e
  {
  }

  /** A copy that covers an earlier one hides it. */
  lemma SpliceCovers(s: seq<byte>, off: nat, t: seq<byte>, u: seq<byte>)
    requires off + |t| <= |u| <= |s|
    ensures Splice(Splice(s, off, t), 0, u) == Splice(s, 0, u)
  {
    SpliceElsewhere(s, off, t, |u|, |s| - |u|);
    assert Splice(s, off, t)[|u|..] == s[|u|..];
  }

  lemma SplicePart(a: seq<byte>, c: seq<byte>, d: seq<byte>, e: seq<byte>, c': seq<byte>)
    requires |c'| == |c|
    ensures Splice(a + c + d + e, |a|, c') == a + c' + d + e
  {
    SpliceParts(a, c, d + e, c');
    assert a + c + (d + e) == a + c + d + e;
    assert a + c' + (d + e) == a + c' + d + e;
  }

  lemma SpliceFront(a: seq<byte>, b: seq<byte>, c: seq<byte>, d: seq<byte>, e: seq<byte>, a': seq<byte>)
    requires |a'| == |a|
    ensures Splice(a + b + c + d + e, 0, a') == a' + b + c + d + e
  {
    SpliceParts([], a, b + c + d + e, a');
    assert [] + a + (b + c + d + e) == a + b + c + d + e;
    assert [] + a' + (b + c + d + e) == a' + b + c + d + e;
  }

  lemma SpliceParts(a: seq<byte>, t: seq<byte>, c: seq<byte>, t': seq<byte>)
    requires |t'| == |t|
    ensures Splice(a + t + c, |a|, t') == a + t' + c
  {
  }

  ghost predicate Distinct<T>(s: seq<T>) {
    forall i, j :: 0 <= i < j < |s| ==> s[i] != s[j]
  }

  /** The freshly allocated and initialised one-time contexts. */
  method AllocateKeys(count: nat) returns (privates: seq<LmotsPrivate>, publics: seq<LmotsPublic>)
    ensures |privates| == |publics| == count
    ensures forall i :: 0 <= i < count ==> fresh(privates[i]) && privates[i].Valid() && Blank(privates[i])
    ensures forall i :: 0 <= i < count ==> fresh(publics[i]) && publics[i].Valid() && BlankPublic(publics[i])
    ensures Distinct(privates) && Distinct(publics)
  {
    privates, publics := [], [];
    while |privates| < count
      invariant |privates| == |publics| <= count
      invariant forall i :: 0 <= i < |privates| ==> fresh(privates[i]) && privates[i].Valid() && Blank(privates[i])
      invariant forall i :: 0 <= i < |publics| ==> fresh(publics[i]) && publics[i].Valid() && BlankPublic(publics[i])
      invariant Distinct(privates) && Distinct(publics)
    {
      var priv := new LmotsPrivate();
      var pub := new LmotsPublic();
      privates, publics := privates + [priv], publics + [pub];
    }
  }

  ghost predicate Blank(k: LmotsPrivate)
    reads k
  {
    k.View() == OtsKey(NO_PARAMS, Zeros(PRIVATE_KEY_BYTES), false)
  }

  ghost predicate BlankPublic(k: LmotsPublic)
    reads k
  {
    k.View() == OtsPublic(NO_PARAMS, Zeros(N_HASH_LEN_MAX), false)
  }

  ghost predicate LeafBlank(priv: LmotsPrivate, pub: LmotsPublic)
    reads priv, pub
  {
    priv.Valid() && Blank(priv) && pub.Valid() && BlankPublic(pub)
  }

  /** The key pair of leaf `i` is generated. */
  ghost predicate LeafDone(sha: Sha256, p: LmsParameters, seed: seq<byte>, i: nat, priv: LmotsPrivate, pub: LmotsPublic)
    reads priv, pub
  {
    priv.View() == FreshOts(sha, p, seed, i) && pub.View() == FreshPublic(sha, p, seed, i)
  }

  /** The generation loop: each leaf's private key, then its public key. */
  method GenerateLeaves(e: HashEngine, p: LmsParameters, seed: seq<byte>, privates: seq<LmotsPrivate>,
                        publics: seq<LmotsPublic>)
    returns (ret: Ret)
    requires p.Supported() && |p.keyId| == I_KEY_ID_LEN && |privates| == |publics|
    requires forall i :: 0 <= i < |privates| ==> LeafBlank(privates[i], publics[i])
    requires Distinct(privates) && Distinct(publics)
    modifies privates, publics
    ensures ret == Success ==>
      forall i :: 0 <= i < |privates| ==> LeafDone(e.sha256, p, seed, i, privates[i], publics[i])
    ensures e.reliable ==> ret == Success
  {
    var idx := 0;
    while idx < |privates|
      invariant 0 <= idx <= |privates|
      invariant forall i :: 0 <= i < idx ==> LeafDone(e.sha256, p, seed, i, privates[i], publics[i])
      invariant forall i :: idx <= i < |privates| ==> LeafBlank(privates[i], publics[i])
    {
      var priv, pub := privates[idx], publics[idx];
      label before:
      ret := GenerateLeaf(e, p, seed, idx, priv, pub);
      if ret != Success {
        return;
      }
      forall i | 0 <= i < |privates| && i != idx
        ensures old@before(LeafDone(e.sha256, p, seed, i, privates[i], publics[i])) ==>
                  LeafDone(e.sha256, p, seed, i, privates[i], publics[i])
        ensures old@before(LeafBlank(privates[i], publics[i])) ==> LeafBlank(privates[i], publics[i])
      {
        assert privates[i] != priv && publics[i] != pub;
      }
      idx := idx + 1;
    }
    ret := Success;
  }

  method GenerateLeaf(e: HashEngine, p: LmsParameters, seed: seq<byte>, idx: nat, priv: LmotsPrivate, pub: LmotsPublic)
    returns (ret: Ret)
    requires p.Supported() && |p.keyId| == I_KEY_ID_LEN
    requires LeafBlank(priv, pub)
    modifies priv, pub
    ensures ret == Success ==> LeafDone(e.sha256, p, seed, idx, priv, pub)
    ensures e.reliable ==> ret == Success
  {
    ret := priv.GeneratePrivateKey(e, p.otsType, p.keyId, idx, seed);
    if ret != Success {
      return;
    }
    ret := pub.CalculatePublicKey(e, priv);
  }

  class LmsPrivate {
    ghost var state: LmsKey  // what the context holds, as a value
    var params: LmsParameters
    var nextUsableKey: nat
    var otsPrivateKeys: seq<LmotsPrivate>
    var otsPublicKeys: seq<LmotsPublic>
    var havePrivateKey: bool

    ghost predicate Valid()
      reads this, otsPrivateKeys, otsPublicKeys
    {
      && state.Valid()
      && params == state.params && nextUsableKey == state.next && havePrivateKey == state.have
      && |otsPrivateKeys| == |state.ots| && |otsPublicKeys| == |state.pubs|
      && (forall i :: 0 <= i < |otsPrivateKeys| ==> otsPrivateKeys[i].View() == state.ots[i])
      && (forall i :: 0 <= i < |otsPublicKeys| ==> otsPublicKeys[i].View() == state.pubs[i])
      && (forall i, j :: 0 <= i < j < |otsPrivateKeys| ==> otsPrivateKeys[i] != otsPrivateKeys[j])
    }

    /** `mbedtls_lms_private_init`. */
    constructor ()
      ensures Valid() && state == NO_KEY
    {
      state := NO_KEY;
      params := NO_LMS_PARAMS;
      nextUsableKey := 0;
      otsPrivateKeys := [];
      otsPublicKeys := [];
      havePrivateKey := false;
    }

    /** `mbedtls_lms_generate_private_key`. Any failure after the first checks frees
        the context, which leaves it empty. */
    method GeneratePrivateKey(e: HashEngine, lmsType: nat, otsType: nat, rng: Rng, seed: seq<byte>,
                              privateAllocOk: bool, publicAllocOk: bool)
      returns (ret: Ret)
      requires Valid()
      modifies this
      ensures Valid()
      ensures !ValidLmsType(lmsType) || !ValidOtsType(otsType) || old(havePrivateKey) ==>
        ret == BadInputData && state == old(state)
      ensures ret == Success ==>
        state == FreshKey(e.sha256, LmsParameters(rng.Take(I_KEY_ID_LEN), otsType, lmsType), seed)
      ensures ValidLmsType(lmsType) && ValidOtsType(otsType) && !old(havePrivateKey) && ret != Success ==>
              state == NO_KEY
      ensures e.reliable && ValidLmsType(lmsType) && ValidOtsType(otsType) && !old(havePrivateKey) ==>
        rng.status == 0 && privateAllocOk && publicAllocOk ==> ret == Success
    {
      if !ValidLmsType(lmsType) {
        return BadInputData;
      }
      if !ValidOtsType(otsType) {
        return BadInputData;
      }
      if havePrivateKey {
        return BadInputData;
      }
      ret := FillKeys(e, lmsType, otsType, rng, seed, privateAllocOk, publicAllocOk);
      if ret != Success {
        Free();
      }
    }

    /** The part of key generation whose failures end in freeing the context. */
    method FillKeys(e: HashEngine, lmsType: nat, otsType: nat, rng: Rng, seed: seq<byte>,
                    privateAllocOk: bool, publicAllocOk: bool)
      returns (ret: Ret)
      requires ValidLmsType(lmsType) && ValidOtsType(otsType)
      modifies this
      ensures ret == Success ==>
        Valid() && state == FreshKey(e.sha256, LmsParameters(rng.Take(I_KEY_ID_LEN), otsType, lmsType), seed)
      ensures e.reliable && rng.status == 0 && privateAllocOk && publicAllocOk ==> ret == Success
    {
      params := LmsParameters(rng.Take(I_KEY_ID_LEN), otsType, lmsType);
      havePrivateKey := true;
      if rng.status != 0 {
        return RngError(rng.status);
      }
      if !privateAllocOk || !publicAllocOk {
        return AllocFailed;
      }
      var privates, publics := AllocateKeys(LeafCount(lmsType));
      ret := GenerateLeaves(e, params, seed, privates, publics);
      if ret != Success {
        return;
      }
      InstallKeys(e.sha256, seed, privates, publics);
    }

    /** Takes over the generated keys. */
    method InstallKeys(ghost sha: Sha256, ghost seed: seq<byte>, privates: seq<LmotsPrivate>, publics: seq<LmotsPublic>)
      requires havePrivateKey && params.Supported() && |params.keyId| == I_KEY_ID_LEN
      requires |privates| == |publics| == LeafCount(params.lmsType) && Distinct(privates)
      requires forall i :: 0 <= i < |privates| ==> LeafDone(sha, params, seed, i, privates[i], publics[i])
      modifies `otsPrivateKeys, `otsPublicKeys, `nextUsableKey, `state
      ensures Valid() && state == FreshKey(sha, params, seed)
    {
      otsPrivateKeys, otsPublicKeys := privates, publics;
      nextUsableKey := 0;
      state := FreshKey(sha, params, seed);
      WidthOfType(params.lmsType);
      WidthOfType(params.otsType);
      FreshKeyConsistent(sha, params, seed);
    }

    /** `mbedtls_lms_private_free`. */
    method Free()
      modifies this
      ensures Valid() && state == NO_KEY
    {
      state := NO_KEY;
      params := NO_LMS_PARAMS;
      nextUsableKey := 0;
      otsPrivateKeys := [];
      otsPublicKeys := [];
      havePrivateKey := false;
    }

    /** `calculate_merkle_tree`: leaves in ascending order, then internal nodes in
        descending order so that both children exist before their parent. */
    method CalculateMerkleTree(e: HashEngine, tree: array<byte>) returns (ret: Ret)
      requires Valid() && havePrivateKey
      requires tree.Length == 2 * LeafCount(params.lmsType) * MNodeBytes(params.lmsType)
      modifies tree
      ensures ret == Success ==>
        TreeFrom(e.sha256, params.Shape(), state.LeafKeys(), tree[..], 1, 2 * LeafCount(params.lmsType))
      ensures e.reliable ==> ret == Success
    {
      var p := params.Shape();
      ghost var keys := state.LeafKeys();
      var idx := 0;
      while idx < p.leaves
        invariant 0 <= idx <= p.leaves
        invariant TreeFrom(e.sha256, p, keys, tree[..], p.leaves, p.leaves + idx)
      {
        var key := otsPublicKeys[idx].publicKey;
        assert otsPublicKeys[idx].View() == state.pubs[idx];
        ret := StoreLeaf(e, p, keys, idx, key[..NHashLen(params.otsType)], tree);
        if ret != Success {
          return;
        }
        idx := idx + 1;
      }
      var r := p.leaves - 1;
      while r > 0
        invariant 0 <= r < p.leaves
        invariant TreeFrom(e.sha256, p, keys, tree[..], r + 1, 2 * p.leaves)
      {
        ret := StoreInternal(e, p, keys, r, tree);
        if ret != Success {
          return;
        }
        r := r - 1;
      }
      ret := Success;
    }

    /** `get_merkle_path`. */
    method GetMerklePath(e: HashEngine, q: nat, allocOk: bool, path: array<byte>, off: nat) returns (ret: Ret)
      requires Valid() && havePrivateKey && q < LeafCount(params.lmsType)
      requires off + HTreeHeight(params.lmsType) * MNodeBytes(params.lmsType) <= path.Length
      modifies path
      ensures ret == Success ==>
        path[..] == Splice(old(path[..]), off, SigningPath(e.sha256, params, state.LeafKeys(), q))
      ensures ret != Success ==> path[..] == old(path[..])
      ensures !allocOk ==> ret == AllocFailed
      ensures e.reliable && allocOk ==> ret == Success
    {
      SigningPathInside(params, q);
      if !allocOk {
        return AllocFailed;
      }
      var p := params.Shape();
      var tree := new byte[2 * p.leaves * p.width](_ => 0);
      ret := CalculateMerkleTree(e, tree);
      if ret != Success {
        return;
      }
      CopySigningPath(e.sha256, params, state.LeafKeys(), q, tree, path, off);
    }

    /** `mbedtls_lms_sign`. */
    method Sign(e: HashEngine, rng: Rng, msg: Message, allocOk: bool, sig: array<byte>, sigSize: nat)
      returns (ret: Ret, sigLen: nat)
      requires Valid() && sigSize <= sig.Length
      modifies `state, `nextUsableKey, otsPrivateKeys, sig
      ensures Valid()
      ensures ret == Success ==>
        sigLen == LmsSigLen(params.lmsType, params.otsType) <= sigSize && sig[sigLen..] == old(sig[sigLen..])
      ensures SignStep(e.sha256, old(state), SignCall(msg, sigSize, rng), state, ret,
                       if ret == Success then sig[..sigLen] else [])
      ensures state.ots == old(state).ots ==> sig[..] == old(sig[..])
      ensures e.reliable && allocOk && SignCall(msg, sigSize, rng).CanSign(old(state)) ==> ret == Success
    {
      sigLen := 0;
      if !havePrivateKey {
        ret := BadInputData;
        return;
      }
      if sigSize < LmsSigLen(params.lmsType, params.otsType) {
        ret := BufferTooSmall;
        return;
      }
      if !ValidLmsType(params.lmsType) {
        ret := BadInputData;
        return;
      }
      if !ValidOtsType(params.otsType) {
        ret := BadInputData;
        return;
      }
      if nextUsableKey >= LeafCount(params.lmsType) {
        ret := OutOfPrivateKeys;
        return;
      }
      ret := UseNextLeaf(e, rng, msg, allocOk, sig, sigSize);
      if ret == Success {
        sigLen := LmsSigLen(params.lmsType, params.otsType);
      }
    }

    /** The part of signing after its checks: counts the leaf as used, then signs. */
    method UseNextLeaf(e: HashEngine, rng: Rng, msg: Message, allocOk: bool, sig: array<byte>, ghost sigSize: nat)
      returns (ret: Ret)
      requires Valid() && havePrivateKey && nextUsableKey < LeafCount(params.lmsType)
      requires LmsSigLen(params.lmsType, params.otsType) <= sigSize <= sig.Length
      modifies `state, `nextUsableKey, otsPrivateKeys, sig
      ensures Valid()
      ensures ret == Success ==>
        sig[LmsSigLen(params.lmsType, params.otsType)..] == old(sig[LmsSigLen(params.lmsType, params.otsType)..])
      ensures UseLeaf(e.sha256, old(state), SignCall(msg, sigSize, rng), state, ret,
                      if ret == Success then sig[..LmsSigLen(params.lmsType, params.otsType)] else [])
      ensures state.ots == old(state).ots ==> sig[..] == old(sig[..])
      ensures e.reliable && allocOk && SignCall(msg, sigSize, rng).CanSign(old(state)) ==> ret == Success
    {
      var q := nextUsableKey;
      nextUsableKey := nextUsableKey + 1;
      state := state.(next := q + 1);
      ret := Issue(e, q, rng, msg, allocOk, sig);
      assert state.next == q + 1;
    }

    /** A complete signature of leaf `q`. */
    method Issue(e: HashEngine, q: nat, rng: Rng, msg: Message, allocOk: bool, sig: array<byte>) returns (ret: Ret)
      requires Valid() && havePrivateKey && q < LeafCount(params.lmsType)
      requires LmsSigLen(params.lmsType, params.otsType) <= sig.Length
      modifies `state, otsPrivateKeys[q], sig
      ensures Valid()
      ensures state == old(state) ==> ret != Success && sig[..] == old(sig[..])
      ensures state != old(state) ==>
        old(state).ots[q].have && !msg.Bad() && rng.status == 0
        && state == old(state).(ots := old(state).ots[q := old(state).ots[q].Spent()])
      ensures ret == Success ==>
        sig[..] == Splice(old(sig[..]), 0,
          LmsSignature(e.sha256, params, old(state).ots[q], old(state).LeafKeys(), q, msg.Text(),
                       rng.Take(NHashLen(params.otsType))))
      ensures e.reliable && allocOk && old(state).ots[q].have && !msg.Bad() && rng.status == 0 ==> ret == Success
    {
      ghost var s := sig[..];
      ret := SignWithLeaf(e, q, rng, msg, sig);
      if ret != Success {
        return;
      }
      assert !state.ots[q].have && old(state).ots[q].have;
      ghost var ots := sig[SIG_OTS_OFFSET..SigTypeOffset(params.otsType)];
      ghost var path;
      ret, path := FinishSignature(e, q, allocOk, sig);
      if ret == Success {
        SpliceCovers(s, SIG_OTS_OFFSET, ots, ToBE(q, Q_LEAF_ID_LEN) + ots + ToBE(params.lmsType, TYPE_LEN) + path);
      }
    }

    /** The one-time signature of leaf `q`, at its place in the signature. */
    method SignWithLeaf(e: HashEngine, q: nat, rng: Rng, msg: Message, sig: array<byte>) returns (ret: Ret)
      requires Valid() && havePrivateKey && q < LeafCount(params.lmsType)
      requires LmsSigLen(params.lmsType, params.otsType) <= sig.Length
      modifies `state, otsPrivateKeys[q], sig
      ensures Valid()
      ensures ret == Success ==>
        var k := old(state).ots[q];
        k.have && !msg.Bad() && rng.status == 0
        && state == old(state).(ots := old(state).ots[q := k.Spent()])
        && sig[..] == Splice(old(sig[..]), SIG_OTS_OFFSET,
             OtsSignature(e.sha256, k.params, k.key, msg.Text(), rng.Take(NHashLen(params.otsType))))
      ensures ret != Success ==> state == old(state) && sig[..] == old(sig[..])
      ensures e.reliable && old(state).ots[q].have && !msg.Bad() && rng.status == 0 ==> ret == Success
    {
      var key := otsPrivateKeys[q];
      assert state.ots[q] == key.View();
      ret := key.Sign(e, rng, msg, sig, SIG_OTS_OFFSET, LmsSigLen(params.lmsType, params.otsType) - SIG_OTS_OFFSET);
      state := state.(ots := state.ots[q := key.View()]);
    }

    /** The fields around the one-time signature: type, leaf number, path. */
    method FinishSignature(e: HashEngine, q: nat, allocOk: bool, sig: array<byte>)
      returns (ret: Ret, ghost path: seq<byte>)
      requires Valid() && havePrivateKey && q < LeafCount(params.lmsType)
      requires LmsSigLen(params.lmsType, params.otsType) <= sig.Length
      modifies sig
      ensures path == SigningPath(e.sha256, params, state.LeafKeys(), q)
      ensures ret == Success ==>
        sig[..] == Splice(old(sig[..]), 0,
          ToBE(q, Q_LEAF_ID_LEN) + old(sig[SIG_OTS_OFFSET..SigTypeOffset(params.otsType)])
          + ToBE(params.lmsType, TYPE_LEN) + path)
      ensures e.reliable && allocOk ==> ret == Success
    {
      ghost var (s, at, end) := (sig[..], SigTypeOffset(params.otsType), LmsSigLen(params.lmsType, params.otsType));
      ghost var (a, b, c, d, tail) :=
        (s[..SIG_OTS_OFFSET], s[SIG_OTS_OFFSET..at], s[at..at + TYPE_LEN], s[at + TYPE_LEN..end], s[end..]);
      assert s == a + b + c + d + tail;
      UnsignedIntToNetworkBytes(params.lmsType, TYPE_LEN, sig, SigTypeOffset(params.otsType));
      UnsignedIntToNetworkBytes(q, Q_LEAF_ID_LEN, sig, 0);
      ret := GetMerklePath(e, q, allocOk, sig, SigPathOffset(params.otsType));
      path := SigningPath(e.sha256, params, state.LeafKeys(), q);
      if ret == Success {
        SpliceAround(a, b, c, d, tail, ToBE(q, Q_LEAF_ID_LEN), ToBE(params.lmsType, TYPE_LEN), path);
      }
    }
  }

  class LmsPublic {
    var params: LmsParameters
    var rootKey: seq<byte>
    var havePublicKey: bool

    ghost predicate Valid()
      reads this
    {
      View().Valid()
    }

    ghost function View(): LmsPublicKey
      reads this
    {
      LmsPublicKey(params, rootKey, havePublicKey)
    }

    /** `mbedtls_lms_public_init`. */
    constructor ()
      ensures Valid() && View() == LmsPublicKey(NO_LMS_PARAMS, Zeros(M_NODE_BYTES_MAX), false)
    {
      params := NO_LMS_PARAMS;
      rootKey := Zeros(M_NODE_BYTES_MAX);
      havePublicKey := false;
    }

    /** `mbedtls_lms_import_public_key`. */
    method ImportPublicKey(key: seq<byte>) returns (ret: Ret)
      requires Valid() && |key| >= TYPE_LEN
      modifies this
      ensures Valid()
      ensures (View(), ret) == ImportLmsPublic(old(View()), key)
    {
      var lmsType := NetworkBytesToUnsignedInt(TYPE_LEN, key);
      if !ValidLmsType(lmsType) {
        return BadInputData;
      }
      params := params.(lmsType := lmsType);
      if |key| != LmsPublicKeyLen(params.lmsType) {
        return BadInputData;
      }
      var otsType := NetworkBytesToUnsignedInt(TYPE_LEN, key[PUB_OTSTYPE_OFFSET..]);
      assert key[PUB_OTSTYPE_OFFSET..][..TYPE_LEN] == key[PUB_OTSTYPE_OFFSET..PUB_KEY_ID_OFFSET];
      if !ValidOtsType(otsType) {
        return BadInputData;
      }
      params := params.(otsType := otsType);
      params := params.(keyId := key[PUB_KEY_ID_OFFSET..PUB_ROOT_OFFSET]);
      assert key[PUB_ROOT_OFFSET..] == key[PUB_ROOT_OFFSET..PUB_ROOT_OFFSET + MNodeBytes(params.lmsType)];
      rootKey := Splice(rootKey, 0, key[PUB_ROOT_OFFSET..PUB_ROOT_OFFSET + MNodeBytes(params.lmsType)]);
      havePublicKey := true;
      ret := Success;
    }

    /** `mbedtls_lms_export_public_key`. */
    method ExportPublicKey(key: array<byte>, keySize: nat) returns (ret: Ret, keyLen: nat)
      requires Valid() && keySize <= key.Length
      modifies key
      ensures ret == if keySize < LmsPublicKeyLen(params.lmsType) then BufferTooSmall
                     else if !havePublicKey then BadInputData else Success
      ensures ret == Success ==>
        keyLen == LmsPublicKeyLen(params.lmsType) && key[..] == Splice(old(key[..]), 0, EncodeLmsPublic(View()))
      ensures ret != Success ==> key[..] == old(key[..])
    {
      if keySize < LmsPublicKeyLen(params.lmsType) {
        return BufferTooSmall, 0;
      }
      if !havePublicKey {
        return BadInputData, 0;
      }
      var root := rootKey[..MNodeBytes(params.lmsType)];
      UnsignedIntToNetworkBytes(params.lmsType, TYPE_LEN, key, 0);
      UnsignedIntToNetworkBytes(params.otsType, TYPE_LEN, key, PUB_OTSTYPE_OFFSET);
      CopyInto(key, PUB_KEY_ID_OFFSET, params.keyId);
      CopyInto(key, PUB_ROOT_OFFSET, root);
      SpliceThrice(old(key[..]), 0, ToBE(params.lmsType, TYPE_LEN), ToBE(params.otsType, TYPE_LEN), params.keyId);
      SpliceTwice(old(key[..]), 0,
        ToBE(params.lmsType, TYPE_LEN) + ToBE(params.otsType, TYPE_LEN) + params.keyId, root);
      return Success, LmsPublicKeyLen(params.lmsType);
    }

    /** `mbedtls_lms_calculate_public_key`. The parameters are copied before the
        tree is calculated, so they stay even when it fails. */
    method CalculatePublicKey(e: HashEngine, priv: LmsPrivate, allocOk: bool) returns (ret: Ret)
      requires Valid() && priv.Valid()
      modifies this
      ensures Valid()
      ensures ret == Success ==>
        priv.havePrivateKey
        && View() == LmsPublicKey(priv.params, Splice(old(rootKey), 0, priv.state.Root(e.sha256)), true)
      ensures ret == Success ==> PublicKeyOf(e.sha256, View(), priv.state)
      ensures ret != Success ==>
        View() == old(View()) || View() == old(View()).(params := priv.params)
      ensures e.reliable && allocOk && priv.havePrivateKey ==> ret == Success
    {
      if !priv.havePrivateKey {
        ret := BadInputData;
        return;
      }
      if !ValidLmsType(priv.params.lmsType) {
        ret := BadInputData;
        return;
      }
      if !ValidOtsType(priv.params.otsType) {
        ret := BadInputData;
        return;
      }
      if !allocOk {
        return AllocFailed;
      }
      var w := MNodeBytes(priv.params.lmsType);
      var tree := new byte[2 * LeafCount(priv.params.lmsType) * w](_ => 0);
      params := priv.params;
      ret := priv.CalculateMerkleTree(e, tree);
      if ret != Success {
        return;
      }
      StoredNode(e.sha256, priv.params.Shape(), priv.state.LeafKeys(), tree[..], 1, 1);
      rootKey := Splice(rootKey, 0, tree[w..w + w]);
      havePublicKey := true;
    }

    /** `mbedtls_lms_verify`. The results of the node hashes are not checked. */
    method Verify(e: HashEngine, msg: Message, sig: array<byte>, sigSize: nat) returns (ret: Ret)
      requires Valid() && sigSize <= sig.Length
      ensures e.reliable || !PassesChecks(View(), msg, sig[..sigSize]) ==>
        ret == LmsVerifyResult(e.sha256, View(), msg, sig[..sigSize])
      ensures PassesChecks(View(), msg, sig[..sigSize]) ==> ret == Success || ret == VerifyFailed
    {
      if !havePublicKey {
        return BadInputData;
      }
      if !ValidLmsType(params.lmsType) {
        return BadInputData;
      }
      if params.otsType != LMOTS_N32_W8 {
        return BadInputData;
      }
      if sigSize != LmsSigLen(params.lmsType, params.otsType) {
        return VerifyFailed;
      }
      var fieldsOk, q := ReadFields(params, sig[..sigSize]);
      if !fieldsOk {
        return VerifyFailed;
      }
      if q >= LeafCount(params.lmsType) {
        return VerifyFailed;
      }
      var root;
      ret, root := CalculateRootCandidate(e, params, q, msg, sig);
      if ret != Success {
        return VerifyFailed;
      }
      if root != rootKey[..MNodeBytes(params.lmsType)] {
        return VerifyFailed;
      }
      ret := Success;
    }
  }

  /** The part of verification after the checks: the candidate for the root. */
  method CalculateRootCandidate(e: HashEngine, p: LmsParameters, q: nat, msg: Message, sig: array<byte>)
    returns (ret: Ret, root: seq<byte>)
    requires ValidOtsType(p.otsType) && LmsSigLen(p.lmsType, p.otsType) <= sig.Length
    requires q == LeafNumber(sig[..LmsSigLen(p.lmsType, p.otsType)])
    ensures msg.Bad() ==> ret != Success
    ensures e.reliable && !msg.Bad() ==>
      ret == Success && root == RootCandidate(e.sha256, p, msg.Text(), sig[..LmsSigLen(p.lmsType, p.otsType)])
  {
    root := [];
    ghost var s := sig[..LmsSigLen(p.lmsType, p.otsType)];
    var key;
    ret, key := CalculateLeafKey(e, p, q, msg, sig);
    if ret != Success {
      return;
    }
    root := ClimbSignature(e, p, q, key, sig);
    if e.reliable {
      RootFromParts(e.sha256, p, msg.Text(), s, q, key, s[SigPathOffset(p.otsType)..]);
    }
  }

  /** The climb along the path of a signature. */
  method ClimbSignature(e: HashEngine, p: LmsParameters, q: nat, key: seq<byte>, sig: array<byte>)
    returns (root: seq<byte>)
    requires LmsSigLen(p.lmsType, p.otsType) <= sig.Length
    ensures e.reliable ==>
      var r := LeafCount(p.lmsType) + q;
      root == Climb(e.sha256, p.Shape(), r, LeafValue(e.sha256, p.Shape(), key, r),
                    sig[..LmsSigLen(p.lmsType, p.otsType)][SigPathOffset(p.otsType)..], HTreeHeight(p.lmsType))
  {
    var tree, pathOff := p.Shape(), SigPathOffset(p.otsType);
    ghost var s := sig[..LmsSigLen(p.lmsType, p.otsType)];
    var length := tree.height * tree.width;
    SubSlice(sig[..], 0, |s|, pathOff, length);
    assert s[pathOff..] == s[pathOff..pathOff + length];
    root := ClimbToRoot(e, tree, q, key, sig, pathOff);
  }

  /** The one-time key candidate of a signature's leaf. */
  method CalculateLeafKey(e: HashEngine, p: LmsParameters, q: nat, msg: Message, sig: array<byte>)
    returns (ret: Ret, key: seq<byte>)
    requires ValidOtsType(p.otsType) && LmsSigLen(p.lmsType, p.otsType) <= sig.Length
    requires q == LeafNumber(sig[..LmsSigLen(p.lmsType, p.otsType)])
    ensures msg.Bad() ==> ret != Success
    ensures e.reliable && !msg.Bad() ==>
      ret == Success && key == LeafKeyCandidate(e.sha256, p, msg.Text(), sig[..LmsSigLen(p.lmsType, p.otsType)])
  {
    ghost var s := sig[..LmsSigLen(p.lmsType, p.otsType)];
    var candidate := new byte[N_HASH_LEN_MAX];
    var otsSig := sig[SIG_OTS_OFFSET..SigTypeOffset(p.otsType)];
    SubSlice(sig[..], 0, LmsSigLen(p.lmsType, p.otsType), SIG_OTS_OFFSET, SigTypeOffset(p.otsType) - SIG_OTS_OFFSET);
    assert otsSig == s[SIG_OTS_OFFSET..SigTypeOffset(p.otsType)];
    ret := CalculatePublicKeyCandidate(e, p.Ots(q), msg, otsSig, candidate, N_HASH_LEN_MAX);
    key := candidate[..NHashLen(p.otsType)];
  }

  /** The climb in the verifier's own buffer. */
  method ClimbToRoot(e: HashEngine, tree: Tree, q: nat, key: seq<byte>, sig: array<byte>, pathOff: nat)
    returns (root: seq<byte>)
    requires pathOff + tree.height * tree.width <= sig.Length
    ensures e.reliable ==>
      var r := tree.leaves + q;
      root == Climb(e.sha256, tree, r, LeafValue(e.sha256, tree, key, r),
                    sig[pathOff..pathOff + tree.height * tree.width], tree.height)
  {
    var buffer := new byte[M_NODE_BYTES_MAX];
    ClimbFromLeaf(e, tree, tree.leaves + q, key, sig, pathOff, buffer);
    root := buffer[..tree.width];
  }

  /** The leaf value and the climb of `mbedtls_lms_verify`: `root` is input and
      output of every internal node hash. */
  method ClimbFromLeaf(e: HashEngine, tree: Tree, r: nat, key: seq<byte>, sig: array<byte>, pathOff: nat,
                       root: array<byte>)
    requires pathOff + tree.height * tree.width <= sig.Length
    requires root.Length == M_NODE_BYTES_MAX && root != sig
    modifies root
    ensures e.reliable ==>
      root[..tree.width] == Climb(e.sha256, tree, r, LeafValue(e.sha256, tree, key, r),
                                  sig[pathOff..pathOff + tree.height * tree.width], tree.height)
  {
    LeafFirst(e, tree, r, key, root);
    ClimbLevels(e, tree, r, LeafValue(e.sha256, tree, key, r), sig, pathOff, root);
  }

  /** The leaf value at the start of the buffer. */
  method LeafFirst(e: HashEngine, tree: Tree, r: nat, key: seq<byte>, root: array<byte>)
    requires root.Length == M_NODE_BYTES_MAX
    modifies root
    ensures e.reliable ==> root[..tree.width] == LeafValue(e.sha256, tree, key, r)
  {
    var ret := CreateMerkleLeafValue(e, tree, key, r, root, 0);
  }

  /** The type and leaf number fields of a signature of the right length. */
  method ReadFields(p: LmsParameters, sig: seq<byte>) returns (ok: bool, q: nat)
    requires |sig| == LmsSigLen(p.lmsType, p.otsType)
    ensures ok <==> TypesRecognized(p, sig)
    ensures q == LeafNumber(sig)
  {
    q := NetworkBytesToUnsignedInt(Q_LEAF_ID_LEN, sig);
    var otsType := NetworkBytesToUnsignedInt(TYPE_LEN, sig[SIG_OTS_OFFSET..]);
    var lmsType := NetworkBytesToUnsignedInt(TYPE_LEN, sig[SigTypeOffset(p.otsType)..]);
    assert sig[SIG_OTS_OFFSET..][..TYPE_LEN] == sig[SIG_OTS_OFFSET..SIG_OTS_OFFSET + TYPE_LEN];
    assert sig[SigTypeOffset(p.otsType)..][..TYPE_LEN] == sig[SigTypeOffset(p.otsType)..SigPathOffset(p.otsType)];
    ok := ValidOtsType(otsType) && ValidLmsType(lmsType);
  }

  method ClimbLevels(e: HashEngine, tree: Tree, r: nat, ghost leaf: seq<byte>, sig: array<byte>, pathOff: nat,
                     root: array<byte>)
    requires pathOff + tree.height * tree.width <= sig.Length && |leaf| == tree.width
    requires root.Length == M_NODE_BYTES_MAX && root != sig
    requires e.reliable ==> root[..tree.width] == leaf
    modifies root
    ensures e.reliable ==>
      root[..tree.width] ==
        Climb(e.sha256, tree, r, leaf, sig[pathOff..pathOff + tree.height * tree.width], tree.height)
  {
    ghost var path := sig[pathOff..pathOff + tree.height * tree.width];
    var currNodeId := r;
    var height := 0;
    while height < tree.height
      invariant 0 <= height <= tree.height && height * tree.width <= |path|
      invariant currNodeId == Ancestor(r, height)
      invariant path == sig[pathOff..pathOff + tree.height * tree.width]
      invariant e.reliable ==> root[..tree.width] == Climb(e.sha256, tree, r, leaf, path, height)
    {
      ClimbLevel(e, tree, r, leaf, path, height, currNodeId, sig, pathOff, root);
      currNodeId := currNodeId / 2;
      height := height + 1;
    }
  }

  /** One pass of the climb: `root` goes from one height to the next. */
  method ClimbLevel(e: HashEngine, tree: Tree, ghost r: nat, ghost leaf: seq<byte>, ghost path: seq<byte>,
                    height: nat, node: nat, sig: array<byte>, pathOff: nat, root: array<byte>)
    requires height < tree.height && node == Ancestor(r, height) && |leaf| == tree.width
    requires pathOff + tree.height * tree.width <= sig.Length && root.Length == M_NODE_BYTES_MAX && root != sig
    requires path == sig[pathOff..pathOff + tree.height * tree.width]
    requires height * tree.width <= |path|
    requires e.reliable ==> root[..tree.width] == Climb(e.sha256, tree, r, leaf, path, height)
    modifies root
    ensures (height + 1) * tree.width <= |path|
    ensures e.reliable ==> root[..tree.width] == Climb(e.sha256, tree, r, leaf, path, height + 1)
  {
    RowFits(height, tree.height, tree.width);
    assert (height + 1) * tree.width == height * tree.width + tree.width;
    ClimbStep(e.sha256, tree, r, leaf, path, height);
    var at := pathOff + height * tree.width;
    SubSlice(sig[..], pathOff, tree.height * tree.width, height * tree.width, tree.width);
    assert sig[at..at + tree.width] == Row(path, height, tree.width) by {
      assert sig[..][at..at + tree.width] == sig[at..at + tree.width];
      assert sig[..][pathOff..pathOff + tree.height * tree.width] == path;
    }
    HashParent(e, tree, node, sig, at, root);
  }

  method HashParent(e: HashEngine, tree: Tree, node: nat, sig: array<byte>, at: nat, root: array<byte>)
    requires at + tree.width <= sig.Length && root.Length == M_NODE_BYTES_MAX && root != sig
    modifies root
    ensures e.reliable ==>
      var (left, right) := Order(node, old(root[..tree.width]), sig[at..at + tree.width]);
      root[..tree.width] == InternalValue(e.sha256, tree, left, right, node / 2)
  {
    var ret;
    assert root[0..tree.width] == root[..tree.width];
    if node % 2 == 1 {
      ret := CreateMerkleInternalValue(e, tree, sig, at, root, 0, node / 2, root, 0);
    } else {
      ret := CreateMerkleInternalValue(e, tree, root, 0, sig, at, node / 2, root, 0);
    }
  }
}
