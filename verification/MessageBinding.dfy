/** What an accepted signature says about its message: two accepted signatures of one leaf
    are of one message, or show a collision or a walk down a hash chain (sections 4.4 to
    4.6 and 5.4.2 of RFC 8554). */
module MessageBinding {
  import opened Bytes
  import opened Options
  import opened LmsParams
  import opened HashEngines
  import opened Lmots
  import opened Merkle
  import opened Lms

  // ----- the strings that are hashed

  lemma SameTail(head: seq<byte>, x: seq<byte>, y: seq<byte>)
    ensures head + x == head + y <==> x == y
  {
    assert (head + x)[|head|..] == x && (head + y)[|head|..] == y;
  }

  /** One digest for two messages: they and their randomizers are equal, or the two
      strings that are hashed are a collision. */
  lemma DigestBinding(sha: Sha256, p: OtsParams, msg1: seq<byte>, c1: seq<byte>, msg2: seq<byte>, c2: seq<byte>)
    requires |c1| == |c2| && MessageDigest(sha, p, msg1, c1) == MessageDigest(sha, p, msg2, c2)
    ensures (c1 == c2 && msg1 == msg2)
            || Collides(sha, NHashLen(p.otsType), p.keyId + p.leafId + [0x81, 0x81] + c1 + msg1,
                        p.keyId + p.leafId + [0x81, 0x81] + c2 + msg2)
  {
    var head := p.keyId + p.leafId + [0x81, 0x81];
    assert head + c1 + msg1 == head + (c1 + msg1) && head + c2 + msg2 == head + (c2 + msg2);
    SameTail(head, c1 + msg1, c2 + msg2);
    assert (c1 + msg1)[..|c1|] == c1 && (c1 + msg1)[|c1|..] == msg1;
    assert (c2 + msg2)[..|c2|] == c2 && (c2 + msg2)[|c2|..] == msg2;
  }

  /** One public key for two arrays of chain ends. */
  lemma KeyBinding(sha: Sha256, p: OtsParams, y1: seq<byte>, y2: seq<byte>)
    requires KeyFromHashedDigits(sha, p, y1) == KeyFromHashedDigits(sha, p, y2)
    ensures y1 == y2
            || Collides(sha, NHashLen(p.otsType), p.keyId + p.leafId + [0x80, 0x80] + y1,
                        p.keyId + p.leafId + [0x80, 0x80] + y2)
  {
    SameTail(p.keyId + p.leafId + [0x80, 0x80], y1, y2);
  }

  /** Two seeds, or two rows, with one derived row. */
  lemma DerivedRowBinding(sha: Sha256, p: OtsParams, seed1: seq<byte>, i1: nat, seed2: seq<byte>, i2: nat)
    requires i1 < 0x1_0000 && i2 < 0x1_0000 && DerivedRow(sha, p, seed1, i1) == DerivedRow(sha, p, seed2, i2)
    ensures (seed1 == seed2 && i1 == i2)
            || Collides(sha, NHashLen(p.otsType), p.keyId + p.leafId + [i1 / 256, i1 % 256, 0xFF] + seed1,
                        p.keyId + p.leafId + [i2 / 256, i2 % 256, 0xFF] + seed2)
  {
    var (t1, t2) := ([i1 / 256, i1 % 256, 0xFF], [i2 / 256, i2 % 256, 0xFF]);
    TwoBytes(i1);
    TwoBytes(i2);
    var head := p.keyId + p.leafId;
    assert head + t1 + seed1 == head + ToBE(i1, 2) + [0xFF] + seed1 == head + (t1 + seed1);
    assert head + t2 + seed2 == head + ToBE(i2, 2) + [0xFF] + seed2 == head + (t2 + seed2);
    SameTail(head, t1 + seed1, t2 + seed2);
    if t1 + seed1 == t2 + seed2 {
      assert (t1 + seed1)[..3] == t1 && (t2 + seed2)[..3] == t2;
      assert (t1 + seed1)[3..] == seed1 && (t2 + seed2)[3..] == seed2;
      assert i1 == 256 * t1[0] + t1[1] && i2 == 256 * t2[0] + t2[1];
    }
  }

  // ----- chains

  /** Step `j` of digit `i`'s chain on two values. */
  ghost predicate StepCollides(sha: Sha256, p: OtsParams, i: nat, j: nat, u: seq<byte>, v: seq<byte>)
    requires i < 0x1_0000 && j < 256
  {
    Collides(sha, NHashLen(p.otsType), p.keyId + p.leafId + [i / 256, i % 256, j] + u,
             p.keyId + p.leafId + [i / 256, i % 256, j] + v)
  }

  lemma StepBinding(sha: Sha256, p: OtsParams, i: nat, j: nat, u: seq<byte>, v: seq<byte>)
    requires i < 0x1_0000 && j < 256 && ChainStep(sha, p, i, j, u) == ChainStep(sha, p, i, j, v)
    ensures u == v || StepCollides(sha, p, i, j, u, v)
  {
    var (head, tag) := (p.keyId + p.leafId, [i / 256, i % 256, j]);
    TwoBytes(i);
    OneByte(j);
    assert head + tag == head + ToBE(i, 2) + ToBE(j, 1);
    SameTail(head + tag, u, v);
  }

  lemma OneByte(v: nat)
    requires v < 256
    ensures ToBE(v, 1) == [v]
  {
    assert ToBE(v, 1) == ToBE(v / 256, 0) + [v % 256];
  }

  /** Two walks over the same steps that end alike started alike, or collide at step `j`. */
  lemma {:induction false} WalkBinding(sha: Sha256, p: OtsParams, i: nat, from: nat, to: nat,
                                       x: seq<byte>, y: seq<byte>)
    returns (j: nat)
    requires i < 0x1_0000 && from <= to <= 255 && |x| == |y| == NHashLen(p.otsType)
    requires Chain(sha, p, i, from, to, x) == Chain(sha, p, i, from, to, y)
    ensures from <= j <= to && (j == to ==> x == y)
    ensures j < to ==> StepCollides(sha, p, i, j, Chain(sha, p, i, from, j, x), Chain(sha, p, i, from, j, y))
  {
    if from == to {
      return to;
    }
    StepBinding(sha, p, i, to - 1, Chain(sha, p, i, from, to - 1, x), Chain(sha, p, i, from, to - 1, y));
    if Chain(sha, p, i, from, to - 1, x) != Chain(sha, p, i, from, to - 1, y) {
      return to - 1;
    }
    j := WalkBinding(sha, p, i, from, to - 1, x, y);
    if j == to - 1 {
      return to;
    }
  }

  // ----- one-time signatures

  function Randomizer(p: OtsParams, sig: seq<byte>): (c: seq<byte>)
    requires |sig| == OtsSigLen(p.otsType)
    ensures |c| == NHashLen(p.otsType)
  {
    sig[4..4 + NHashLen(p.otsType)]
  }

  function ChainValue(p: OtsParams, sig: seq<byte>, i: nat): (y: seq<byte>)
    requires |sig| == OtsSigLen(p.otsType) && i < SigDigitCount(p.otsType)
    ensures |y| == NHashLen(p.otsType)
  {
    RowFits(i, SigDigitCount(p.otsType), NHashLen(p.otsType));
    Row(sig[4 + NHashLen(p.otsType)..], i, NHashLen(p.otsType))
  }

  ghost function SignedDigits(sha: Sha256, p: OtsParams, msg: seq<byte>, sig: seq<byte>): (d: seq<byte>)
    requires |sig| == OtsSigLen(p.otsType)
    ensures |d| == NHashLen(p.otsType) + 2
  {
    Digits(sha, p, msg, Randomizer(p, sig))
  }

  /** The chain ends that a signature leads to. */
  ghost function ChainEnds(sha: Sha256, p: OtsParams, msg: seq<byte>, sig: seq<byte>): seq<byte>
    requires |sig| == OtsSigLen(p.otsType)
  {
    HashDigits(sha, p, sig[4 + NHashLen(p.otsType)..], Some(SignedDigits(sha, p, msg, sig)), None,
      SigDigitCount(p.otsType))
  }

  /** How two one-time signatures with one candidate key may be related: they are of one
      message and randomizer; the message strings, the chain ends or two values in chain `i`
      at step `j` collide; or the second signature's value in chain `i`, at a lower digit,
      walks up to the first one's. */
  datatype OtsMeeting = SameMessage | DigestsCollide | EndsCollide | StepsCollide(i: nat, j: nat) | WalksUp(i: nat)

  ghost predicate OtsMeetAt(sha: Sha256, p: OtsParams,
                            msg1: seq<byte>, sig1: seq<byte>, msg2: seq<byte>, sig2: seq<byte>,
                            m: OtsMeeting)
    requires ValidOtsType(p.otsType) && |sig1| == |sig2| == OtsSigLen(p.otsType)
  {
    var (n, head) := (NHashLen(p.otsType), p.keyId + p.leafId);
    var (c1, c2) := (Randomizer(p, sig1), Randomizer(p, sig2));
    var (d1, d2) := (SignedDigits(sha, p, msg1, sig1), SignedDigits(sha, p, msg2, sig2));
    match m
    case SameMessage => c1 == c2 && msg1 == msg2
    case DigestsCollide => Collides(sha, n, head + [0x81, 0x81] + c1 + msg1, head + [0x81, 0x81] + c2 + msg2)
    case EndsCollide =>
      Collides(sha, n, head + [0x80, 0x80] + ChainEnds(sha, p, msg1, sig1),
        head + [0x80, 0x80] + ChainEnds(sha, p, msg2, sig2))
    case StepsCollide(i, j) =>
      i < n + 2 && d2[i] < d1[i] <= j < 255
      && StepCollides(sha, p, i, j, Chain(sha, p, i, d1[i], j, ChainValue(p, sig1, i)),
                      Chain(sha, p, i, d2[i], j, ChainValue(p, sig2, i)))
    case WalksUp(i) =>
      i < n + 2 && d2[i] < d1[i]
      && Chain(sha, p, i, d2[i], d1[i], ChainValue(p, sig2, i)) == ChainValue(p, sig1, i)
  }

  lemma EndOfChain(sha: Sha256, p: OtsParams, msg: seq<byte>, sig: seq<byte>, i: nat)
    requires ValidOtsType(p.otsType) && |sig| == OtsSigLen(p.otsType) && i < SigDigitCount(p.otsType)
    ensures i * NHashLen(p.otsType) + NHashLen(p.otsType) <= |ChainEnds(sha, p, msg, sig)|
    ensures Row(ChainEnds(sha, p, msg, sig), i, NHashLen(p.otsType)) ==
              Chain(sha, p, i, SignedDigits(sha, p, msg, sig)[i], 255, ChainValue(p, sig, i))
  {
    RowFits(i, SigDigitCount(p.otsType), NHashLen(p.otsType));
    HashDigitsRow(sha, p, sig[4 + NHashLen(p.otsType)..], Some(SignedDigits(sha, p, msg, sig)), None,
                  SigDigitCount(p.otsType), i);
  }

  lemma CandidateIsKeyOfEnds(sha: Sha256, p: OtsParams, msg: seq<byte>, sig: seq<byte>)
    requires |sig| == OtsSigLen(p.otsType)
    ensures OtsCandidate(sha, p, msg, sig) == KeyFromHashedDigits(sha, p, ChainEnds(sha, p, msg, sig))
  {
  }

  /** A chain in which the second signature's digit is the lower one. */
  lemma LowerDigit(a: seq<byte>, b: seq<byte>) returns (i: nat)
    requires |a| == |b| <= N_HASH_LEN_MAX && a != b
    ensures i < |a| + 2 && WithChecksum(b)[i] < WithChecksum(a)[i]
  {
    if PointwiseAtMost(WithChecksum(a), WithChecksum(b)) {
      ChecksumPreventsDomination(a, b);
    }
    i :| 0 <= i < |a| + 2 && WithChecksum(b)[i] < WithChecksum(a)[i];
  }

  /** Two one-time signatures with one candidate key. */
  lemma OtsBinding(sha: Sha256, p: OtsParams, msg1: seq<byte>, sig1: seq<byte>, msg2: seq<byte>, sig2: seq<byte>)
    returns (m: OtsMeeting)
    requires ValidOtsType(p.otsType) && |sig1| == |sig2| == OtsSigLen(p.otsType)
    requires OtsCandidate(sha, p, msg1, sig1) == OtsCandidate(sha, p, msg2, sig2)
    ensures OtsMeetAt(sha, p, msg1, sig1, msg2, sig2, m)
  {
    var (c1, c2) := (Randomizer(p, sig1), Randomizer(p, sig2));
    CandidateIsKeyOfEnds(sha, p, msg1, sig1);
    CandidateIsKeyOfEnds(sha, p, msg2, sig2);
    KeyBinding(sha, p, ChainEnds(sha, p, msg1, sig1), ChainEnds(sha, p, msg2, sig2));
    if ChainEnds(sha, p, msg1, sig1) != ChainEnds(sha, p, msg2, sig2) {
      return EndsCollide;
    }
    if MessageDigest(sha, p, msg1, c1) == MessageDigest(sha, p, msg2, c2) {
      DigestBinding(sha, p, msg1, c1, msg2, c2);
      return if c1 == c2 && msg1 == msg2 then SameMessage else DigestsCollide;
    }
    var i := LowerDigit(MessageDigest(sha, p, msg1, c1), MessageDigest(sha, p, msg2, c2));
    EndOfChain(sha, p, msg1, sig1, i);
    EndOfChain(sha, p, msg2, sig2, i);
    m := ChainBinding(sha, p, i, SignedDigits(sha, p, msg1, sig1)[i], SignedDigits(sha, p, msg2, sig2)[i],
                      ChainValue(p, sig1, i), ChainValue(p, sig2, i));
  }

  /** Two walks from different steps that end alike. */
  lemma ChainBinding(sha: Sha256, p: OtsParams, i: nat, a: nat, b: nat, x: seq<byte>, y: seq<byte>)
    returns (m: OtsMeeting)
    requires i < 0x1_0000 && b < a <= 255 && |x| == |y| == NHashLen(p.otsType)
    requires Chain(sha, p, i, a, 255, x) == Chain(sha, p, i, b, 255, y)
    ensures (m == WalksUp(i) && Chain(sha, p, i, b, a, y) == x)
            || (m.StepsCollide? && m.i == i && a <= m.j < 255
                && StepCollides(sha, p, i, m.j, Chain(sha, p, i, a, m.j, x), Chain(sha, p, i, b, m.j, y)))
  {
    var y' := Chain(sha, p, i, b, a, y);
    ChainCompose(sha, p, i, b, a, 255, y);
    var j := WalkBinding(sha, p, i, a, 255, x, y');
    if j == 255 {
      return WalksUp(i);
    }
    ChainCompose(sha, p, i, b, a, j, y);
    m := StepsCollide(i, j);
  }

  // ----- whole signatures

  function OtsPart(p: LmsParameters, sig: seq<byte>): (ots: seq<byte>)
    requires |sig| == LmsSigLen(p.lmsType, p.otsType)
    ensures |ots| == OtsSigLen(p.otsType)
  {
    sig[4..4 + OtsSigLen(p.otsType)]
  }

  /** Two accepted signatures of one leaf, of any two messages: their verifications meet in
      a collision on the way to the root, or they have one one-time key, and then they are
      of one message, or show a collision below it, or the second one contains a value from
      further down a chain than the first. */
  lemma MessageBinding(sha: Sha256, v: LmsPublicKey, msg1: Message, sig1: seq<byte>, msg2: Message, sig2: seq<byte>)
    returns (m: Meeting, o: OtsMeeting)
    requires v.Valid()
    requires LmsVerifyResult(sha, v, msg1, sig1) == Success && LmsVerifyResult(sha, v, msg2, sig2) == Success
    requires LeafNumber(sig1) == LeafNumber(sig2)
    ensures MeetAt(sha, v.params, msg1.Text(), sig1, msg2.Text(), sig2, m)
    ensures m.SameKeyAndPath? ==>
              OtsMeetAt(sha, v.params.Ots(LeafNumber(sig1)), msg1.Text(), OtsPart(v.params, sig1),
                        msg2.Text(), OtsPart(v.params, sig2), o)
  {
    o := SameMessage;
    m := SignatureBinding(sha, v, msg1, sig1, msg2, sig2);
    if m.SameKeyAndPath? {
      o := OtsBinding(sha, v.params.Ots(LeafNumber(sig1)), msg1.Text(), OtsPart(v.params, sig1),
                      msg2.Text(), OtsPart(v.params, sig2));
    }
  }

  /** One signature accepted for two messages: they are equal, or the message strings
      collide, or some chain's value walks, under two different digits, to one end. */
  lemma OneSignatureOneMessage(sha: Sha256, v: LmsPublicKey, msg1: Message, msg2: Message, sig: seq<byte>)
    returns (m: Meeting, o: OtsMeeting)
    requires v.Valid()
    requires LmsVerifyResult(sha, v, msg1, sig) == Success && LmsVerifyResult(sha, v, msg2, sig) == Success
    ensures msg1.Text() == msg2.Text()
            || (MeetAt(sha, v.params, msg1.Text(), sig, msg2.Text(), sig, m) && !m.SameKeyAndPath?)
            || (!o.SameMessage? && OtsMeetAt(sha, v.params.Ots(LeafNumber(sig)), msg1.Text(), OtsPart(v.params, sig),
                                             msg2.Text(), OtsPart(v.params, sig), o))
  {
    m, o := MessageBinding(sha, v, msg1, sig, msg2, sig);
  }
}
