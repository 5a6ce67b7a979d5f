/** Every string the scheme hashes, written out (sections 4.2 to 4.5, 5.3 and appendix A of
    RFC 8554): no two uses of the hash, and no two places in the tree or in the chains,
    ever hash one string. */
module HashUses {
  import opened Bytes
  import opened LmsParams
  import opened HashEngines
  import opened Lmots
  import opened Merkle
  import opened MessageBinding

  /** A use of the hash: a chain step, a one-time public key, a message, a derived key row,
      each of leaf `q`; a leaf or an internal node of the tree. */
  datatype Use =
    | ChainUse(q: nat, i: nat, j: nat, x: seq<byte>)
    | KeyUse(q: nat, ends: seq<byte>)
    | MessageUse(q: nat, c: seq<byte>, msg: seq<byte>)
    | DeriveUse(q: nat, i: nat, seed: seq<byte>)
    | LeafUse(r: nat, key: seq<byte>)
    | NodeUse(r: nat, left: seq<byte>, right: seq<byte>)
  {
    /** The widths and ranges of one parameter set. */
    predicate Fits(n: nat, w: nat) {
      match this
      case ChainUse(q, i, j, x) => q < 0x1_0000_0000 && i < 34 && j < 255
      case KeyUse(q, _) => q < 0x1_0000_0000
      case MessageUse(q, c, _) => q < 0x1_0000_0000 && |c| == n
      case DeriveUse(q, i, _) => q < 0x1_0000_0000 && i < 34
      case LeafUse(r, _) => r < 0x1_0000_0000
      case NodeUse(r, left, right) => r < 0x1_0000_0000 && |left| == |right| == w
    }

    /** The 32-bit number after the key identifier. */
    function Number(): nat {
      match this
      case ChainUse(q, _, _, _) => q
      case KeyUse(q, _) => q
      case MessageUse(q, _, _) => q
      case DeriveUse(q, _, _) => q
      case LeafUse(r, _) => r
      case NodeUse(r, _, _) => r
    }

    /** The two bytes that tell uses and chains apart. */
    function Tag(): (t: seq<byte>)
      requires (ChainUse? || DeriveUse?) ==> i < 34
      ensures |t| == 2
    {
      match this
      case ChainUse(_, i, _, _) => [0, i]
      case KeyUse(_, _) => [0x80, 0x80]
      case MessageUse(_, _, _) => [0x81, 0x81]
      case DeriveUse(_, i, _) => [0, i]
      case LeafUse(_, _) => [0x82, 0x82]
      case NodeUse(_, _, _) => [0x83, 0x83]
    }

    function Rest(): seq<byte>
      requires ChainUse? ==> j < 255
    {
      match this
      case ChainUse(_, _, j, x) => [j] + x
      case KeyUse(_, ends) => ends
      case MessageUse(_, c, msg) => c + msg
      case DeriveUse(_, _, seed) => [0xFF] + seed
      case LeafUse(_, key) => key
      case NodeUse(_, left, right) => left + right
    }
  }

  /** `v` with its most significant byte first. */
  function FourBytes(v: nat): (s: seq<byte>)
    ensures |s| == 4
  {
    [v / 0x100_0000 % 256, v / 0x1_0000 % 256, v / 256 % 256, v % 256]
  }

  lemma FourBytesAreBE(v: nat)
    ensures ToBE(v, 4) == FourBytes(v)
  {
    assert v / 256 / 256 == v / 0x1_0000 && v / 256 / 256 / 256 == v / 0x100_0000;
    assert ToBE(v, 4) == ToBE(v / 256, 3) + [v % 256];
    assert ToBE(v / 256, 3) == ToBE(v / 256 / 256, 2) + [v / 256 % 256];
    assert ToBE(v / 256 / 256, 2) == ToBE(v / 256 / 256 / 256, 1) + [v / 256 / 256 % 256];
    assert ToBE(v / 256 / 256 / 256, 1) == ToBE(v / 256 / 256 / 256 / 256, 0) + [v / 256 / 256 / 256 % 256];
  }

  /** The string hashed for a use under key identifier `keyId`. */
  function Input(keyId: seq<byte>, u: Use, n: nat, w: nat): seq<byte>
    requires u.Fits(n, w)
  {
    keyId + FourBytes(u.Number()) + u.Tag() + u.Rest()
  }

  lemma CutInput(keyId: seq<byte>, number: seq<byte>, tag: seq<byte>, rest: seq<byte>)
    requires |number| == 4 && |tag| == 2
    ensures var s := keyId + number + tag + rest; var k := |keyId|;
            s[k..k + 4] == number && s[k + 4..k + 6] == tag && s[k + 6..] == rest
  {
  }

  lemma RestInjective(u: Use, v: Use, n: nat, w: nat)
    requires u.Fits(n, w) && v.Fits(n, w) && u.Number() == v.Number()
    ensures u.Tag() == v.Tag() && u.Rest() == v.Rest() ==> u == v
  {
    assert u.Tag() == v.Tag() ==> u.Tag()[0] == v.Tag()[0] && u.Tag()[1] == v.Tag()[1];
    match (u, v)
    case (ChainUse(_, _, j, x), ChainUse(_, _, j', x')) =>
      FirstAndRest(j, x);
      FirstAndRest(j', x');
    case (DeriveUse(_, _, seed), DeriveUse(_, _, seed')) =>
      FirstAndRest(0xFF, seed);
      FirstAndRest(0xFF, seed');
    case (ChainUse(_, _, j, x), DeriveUse(_, _, seed)) =>
      FirstAndRest(j, x);
      FirstAndRest(0xFF, seed);
    case (DeriveUse(_, _, seed), ChainUse(_, _, j, x)) =>
      FirstAndRest(j, x);
      FirstAndRest(0xFF, seed);
    case (MessageUse(_, c, msg), MessageUse(_, c', msg')) =>
      FrontAndBack(c, msg);
      FrontAndBack(c', msg');
    case (NodeUse(_, x, y), NodeUse(_, x', y')) =>
      FrontAndBack(x, y);
      FrontAndBack(x', y');
    case _ =>
  }

  lemma FirstAndRest(j: byte, x: seq<byte>)
    ensures ([j] + x)[0] == j && ([j] + x)[1..] == x
  {
  }

  lemma FrontAndBack(x: seq<byte>, y: seq<byte>)
    ensures (x + y)[..|x|] == x && (x + y)[|x|..] == y
  {
  }

  lemma FourBytesInjective(v: nat, v': nat)
    requires v < 0x1_0000_0000 && v' < 0x1_0000_0000 && FourBytes(v) == FourBytes(v')
    ensures v == v'
  {
    var (a, b) := (FourBytes(v), FourBytes(v'));
    assert a[0] == b[0] && a[1] == b[1] && a[2] == b[2] && a[3] == b[3];
    Recombined(v);
    Recombined(v');
  }

  lemma Recombined(v: nat)
    requires v < 0x1_0000_0000
    ensures var s := FourBytes(v);
            v == 0x100_0000 * (s[0] as nat) + 0x1_0000 * (s[1] as nat) + 256 * (s[2] as nat) + s[3]
  {
    assert v / 0x1_0000 == v / 256 / 256 && v / 0x100_0000 == v / 256 / 256 / 256;
    assert v == 256 * (v / 256) + v % 256;
    assert v / 256 == 256 * (v / 256 / 256) + v / 256 % 256;
    assert v / 256 / 256 == 256 * (v / 256 / 256 / 256) + v / 256 / 256 % 256;
  }

  /** Under one key identifier, different uses hash different strings. */
  lemma UsesApart(keyId: seq<byte>, u: Use, v: Use, n: nat, w: nat)
    requires u.Fits(n, w) && v.Fits(n, w)
    ensures Input(keyId, u, n, w) == Input(keyId, v, n, w) <==> u == v
  {
    if Input(keyId, u, n, w) == Input(keyId, v, n, w) {
      CutInput(keyId, FourBytes(u.Number()), u.Tag(), u.Rest());
      CutInput(keyId, FourBytes(v.Number()), v.Tag(), v.Rest());
      FourBytesInjective(u.Number(), v.Number());
      RestInjective(u, v, n, w);
    }
  }

  // ----- the model hashes exactly these strings

  lemma ChainTag(i: nat)
    requires i < 34
    ensures ToBE(i, 2) == [0, i]
  {
    TwoBytes(i);
    assert i / 256 == 0 && i % 256 == i;
  }

  lemma Regroup(head: seq<byte>, tag: seq<byte>, x: seq<byte>, y: seq<byte>)
    ensures head + tag + x + y == head + tag + (x + y)
  {
  }

  lemma ChainStepHashes(sha: Sha256, keyId: seq<byte>, q: nat, otsType: nat, i: nat, j: nat, x: seq<byte>, w: nat)
    requires ChainUse(q, i, j, x).Fits(NHashLen(otsType), w)
    ensures var n := NHashLen(otsType);
            ChainStep(sha, OtsParams(keyId, ToBE(q, 4), otsType), i, j, x)
              == sha(Input(keyId, ChainUse(q, i, j, x), n, w))[..n]
  {
    FourBytesAreBE(q);
    ChainTag(i);
    OneByte(j);
    Regroup(keyId + FourBytes(q), [0, i], [j], x);
  }

  lemma KeyHashes(sha: Sha256, keyId: seq<byte>, q: nat, otsType: nat, ends: seq<byte>, w: nat)
    requires q < 0x1_0000_0000
    ensures var n := NHashLen(otsType);
            KeyFromHashedDigits(sha, OtsParams(keyId, ToBE(q, 4), otsType), ends)
              == sha(Input(keyId, KeyUse(q, ends), n, w))[..n]
  {
    FourBytesAreBE(q);
  }

  lemma MessageHashes(sha: Sha256, keyId: seq<byte>, q: nat, otsType: nat, c: seq<byte>, msg: seq<byte>, w: nat)
    requires q < 0x1_0000_0000 && |c| == NHashLen(otsType)
    ensures var n := NHashLen(otsType);
            MessageDigest(sha, OtsParams(keyId, ToBE(q, 4), otsType), msg, c)
            == sha(Input(keyId, MessageUse(q, c, msg), n, w))[..n]
  {
    FourBytesAreBE(q);
    Regroup(keyId + FourBytes(q), [0x81, 0x81], c, msg);
  }

  lemma DerivedRowHashes(sha: Sha256, keyId: seq<byte>, q: nat, otsType: nat, i: nat, seed: seq<byte>, w: nat)
    requires q < 0x1_0000_0000 && i < 34
    ensures var n := NHashLen(otsType);
            DerivedRow(sha, OtsParams(keyId, ToBE(q, 4), otsType), seed, i)
              == sha(Input(keyId, DeriveUse(q, i, seed), n, w))[..n]
  {
    FourBytesAreBE(q);
    ChainTag(i);
    Regroup(keyId + FourBytes(q), [0, i], [0xFF], seed);
  }

  lemma LeafHashes(sha: Sha256, p: Tree, r: nat, key: seq<byte>, n: nat)
    requires r < 0x1_0000_0000
    ensures LeafValue(sha, p, key, r) == sha(Input(p.keyId, LeafUse(r, key), n, p.width))[..p.width]
  {
    FourBytesAreBE(r);
  }

  lemma NodeHashes(sha: Sha256, p: Tree, r: nat, left: seq<byte>, right: seq<byte>, n: nat)
    requires r < 0x1_0000_0000 && |left| == |right| == p.width
    ensures InternalValue(sha, p, left, right, r) == sha(Input(p.keyId, NodeUse(r, left, right), n, p.width))[..p.width]
  {
    FourBytesAreBE(r);
    Regroup(p.keyId + FourBytes(r), [0x83, 0x83], left, right);
  }
}
