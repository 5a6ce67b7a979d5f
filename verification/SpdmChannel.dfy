/** The secured SPDM channel: framing, per-direction counters and automatic re-keying
    (encrypt_secure_content, decrypt_secure_content, spdm_update_key), and runs of two
    endpoints over lossless in-order directions. */
module SpdmChannel {
  import opened Bits
  import opened Bytes
  import opened Options
  import opened SpdmCrypto

  const MAX_SESSION_REKEY_COUNT := 10000
  const SECURED_MESSAGE := 0x06
  const SPDM_MESSAGE := 0x05
  const SPDM_RSP_END_SESSION_ACK := 0x6C
  const SPDM_VERSION_11 := 0x11
  const SPDM_HEADER_SIZE := 4
  const SPDM_MAX_RAND_COUNT := 32
  const HEADER_SIZE := 8
  const SESSION_ID_SIZE := 4

  // ----- keys (spdm_bin_concat, spdm_gen_key_iv, spdm_update_key)

  const VERSION_DETAIL_11: seq<byte> := [0x73, 0x70, 0x64, 0x6d, 0x31, 0x2e, 0x31, 0x20]
  const VERSION_DETAIL_12: seq<byte> := [0x73, 0x70, 0x64, 0x6d, 0x31, 0x2e, 0x32, 0x20]
  const LABEL_KEY: seq<byte> := [0x6b, 0x65, 0x79]
  const LABEL_IV: seq<byte> := [0x69, 0x76]
  const LABEL_TRAFFIC_UPDATE: seq<byte> := [0x74, 0x72, 0x61, 0x66, 0x66, 0x69, 0x63, 0x20, 0x75, 0x70, 0x64]
  const BIN_STR_SIZE := 96

  function VersionDetail(version: nat): (s: seq<byte>)
    ensures |s| == 8
  {
    if version == SPDM_VERSION_11 then VERSION_DETAIL_11 else VERSION_DETAIL_12
  }

  /** `spdm_bin_concat`, where a missing second string is empty: None when the output
      buffer, of the given size, is too small; the size it asks for is the size it fills. */
  function BinConcat(version: nat, name: seq<byte>, context: seq<byte>, size: nat, msgLen: nat): (s: Option<seq<byte>>)
    ensures s.Some? <==> 10 + |name| + |context| <= size
    ensures s.Some? ==> |s.value| == 10 + |name| + |context|
  {
    if size < 10 + |name| + |context| then None
    else Some(LittleEndian(msgLen, 2) + VersionDetail(version) + name + context)
  }

  /** The key and the salt of a secret. The buffer size left by the first label is what
      the second label has to fit in. */
  function KeyOf(c: Crypto, version: nat, secret: seq<byte>): (k: seq<byte>)
    ensures |k| == KEY_SIZE
  {
    c.expand(secret, BinConcat(version, LABEL_KEY, [], BIN_STR_SIZE, KEY_SIZE).value, KEY_SIZE)
  }

  function SaltOf(c: Crypto, version: nat, secret: seq<byte>): (s: seq<byte>)
    ensures |s| == SALT_SIZE
  {
    var left := |BinConcat(version, LABEL_KEY, [], BIN_STR_SIZE, KEY_SIZE).value|;
    c.expand(secret, BinConcat(version, LABEL_IV, [], left, SALT_SIZE).value, SALT_SIZE)
  }

  function NextSecret(c: Crypto, version: nat, secret: seq<byte>): (s: seq<byte>)
    ensures |s| == SECRET_SIZE
  {
    c.expand(secret, BinConcat(version, LABEL_TRAFFIC_UPDATE, [], BIN_STR_SIZE, SECRET_SIZE).value, SECRET_SIZE)
  }

  /** One direction of a session: its secret, key, salt and counter. `epoch` counts the
      key updates. */
  datatype Direction = Direction(secret: seq<byte>, key: seq<byte>, salt: seq<byte>, sequence: nat, epoch: nat)

  predicate DirectionOk(d: Direction) {
    |d.secret| == SECRET_SIZE && |d.key| == KEY_SIZE && |d.salt| == SALT_SIZE && d.sequence < MAX_SESSION_REKEY_COUNT
  }

  function UpdateKey(c: Crypto, version: nat, d: Direction): (d': Direction)
    ensures DirectionOk(d') && d'.epoch == d.epoch + 1 && d'.sequence == 0
  {
    var secret := NextSecret(c, version, d.secret);
    Direction(secret, KeyOf(c, version, secret), SaltOf(c, version, secret), 0, d.epoch + 1)
  }

  /** A direction once one more message was encrypted or decrypted in it. */
  function Advance(c: Crypto, version: nat, d: Direction): (d': Direction)
    requires DirectionOk(d)
    ensures DirectionOk(d')
  {
    if d.sequence + 1 >= MAX_SESSION_REKEY_COUNT then UpdateKey(c, version, d) else d.(sequence := d.sequence + 1)
  }

  function AdvanceBy(c: Crypto, version: nat, d: Direction, n: nat): (d': Direction)
    requires DirectionOk(d)
    ensures DirectionOk(d')
  {
    if n == 0 then d else Advance(c, version, AdvanceBy(c, version, d, n - 1))
  }

  /** The counter and epoch of the `n`-th message, in closed form: one key serves exactly
      MAX_SESSION_REKEY_COUNT messages. */
  lemma {:induction false} CounterAfter(c: Crypto, version: nat, d: Direction, n: nat)
    requires DirectionOk(d)
    ensures var d' := AdvanceBy(c, version, d, n);
            && d'.sequence == (d.sequence + n) % MAX_SESSION_REKEY_COUNT
            && d'.epoch == d.epoch + (d.sequence + n) / MAX_SESSION_REKEY_COUNT
  {
    if n > 0 {
      CounterAfter(c, version, d, n - 1);
    }
  }

  /** Within one epoch key and salt stay the same. */
  lemma {:induction false} SameEpochSameKey(c: Crypto, version: nat, d: Direction, m: nat, n: nat)
    requires DirectionOk(d) && m <= n
    requires AdvanceBy(c, version, d, m).epoch == AdvanceBy(c, version, d, n).epoch
    ensures AdvanceBy(c, version, d, m).key == AdvanceBy(c, version, d, n).key
    ensures AdvanceBy(c, version, d, m).salt == AdvanceBy(c, version, d, n).salt
    decreases n
  {
    if m < n {
      EpochGrows(c, version, d, m, n - 1);
      SameEpochSameKey(c, version, d, m, n - 1);
    }
  }

  lemma {:induction false} EpochGrows(c: Crypto, version: nat, d: Direction, m: nat, n: nat)
    requires DirectionOk(d) && m <= n
    ensures AdvanceBy(c, version, d, m).epoch <= AdvanceBy(c, version, d, n).epoch
    decreases n
  {
    if m < n {
      EpochGrows(c, version, d, m, n - 1);
    }
  }

  /** The states of a direction before two different messages share not both the key epoch
      and the IV. */
  lemma IvsDiffer(c: Crypto, version: nat, d: Direction, m: nat, n: nat)
    requires DirectionOk(d) && m != n
    ensures var a, b := AdvanceBy(c, version, d, m), AdvanceBy(c, version, d, n);
            !(a.epoch == b.epoch && Iv(a.salt, a.sequence) == Iv(b.salt, b.sequence))
  {
    var a, b := AdvanceBy(c, version, d, m), AdvanceBy(c, version, d, n);
    if a.epoch == b.epoch {
      if m < n { SameEpochSameKey(c, version, d, m, n); } else { SameEpochSameKey(c, version, d, n, m); }
      CounterAfter(c, version, d, m);
      CounterAfter(c, version, d, n);
      assert Pow256(8) > MAX_SESSION_REKEY_COUNT by { assert Pow256(2) == 65536; }
      if Iv(a.salt, a.sequence) == Iv(b.salt, b.sequence) {
        IvInjective(a.salt, a.sequence, b.sequence);
      }
    }
  }

  // ----- what keys are derived from

  lemma TwoBytesLittleEndian(v: nat)
    ensures LittleEndian(v, 2) == [v % 256, v / 256 % 256]
    ensures v % 256 + 256 * (v / 256 % 256) == v % 0x1_0000
  {
    assert LittleEndian(v / 256, 1) == [v / 256 % 256] + LittleEndian(v / 256 / 256, 0);
  }

  /** What is expanded from a secret: the length asked for, "spdm1.1 " or "spdm1.2 ", a label. */
  function Info(length: nat, version: nat, name: seq<byte>): seq<byte> {
    [length % 256, length / 256 % 256]
    + [0x73, 0x70, 0x64, 0x6D, 0x31, 0x2E, if version == 0x11 then 0x31 else 0x32, 0x20] + name
  }

  /** A direction's key and salt are its own secret's, under the labels "key" and "iv". */
  ghost predicate Keyed(c: Crypto, version: nat, d: Direction) {
    && d.key == c.expand(d.secret, Info(32, version, [0x6B, 0x65, 0x79]), 32)
    && d.salt == c.expand(d.secret, Info(12, version, [0x69, 0x76]), 12)
  }

  /** The secret of the `e`-th key after a first one: each is expanded from the one before,
      under the label "traffic upd". */
  function SecretAt(c: Crypto, version: nat, secret: seq<byte>, e: nat): seq<byte> {
    if e == 0 then secret
    else c.expand(SecretAt(c, version, secret, e - 1),
                  Info(48, version, [0x74, 0x72, 0x61, 0x66, 0x66, 0x69, 0x63, 0x20, 0x75, 0x70, 0x64]), 48)
  }

  lemma InfoIs(version: nat, name: seq<byte>, size: nat, msgLen: nat)
    requires 10 + |name| <= size
    ensures BinConcat(version, name, [], size, msgLen) == Some(Info(msgLen, version, name))
  {
    TwoBytesLittleEndian(msgLen);
    var detail := if version == 0x11 then VERSION_DETAIL_11 else VERSION_DETAIL_12;
    assert detail == [0x73, 0x70, 0x64, 0x6D, 0x31, 0x2E, if version == 0x11 then 0x31 else 0x32, 0x20];
    assert LittleEndian(msgLen, 2) + detail + name + [] == LittleEndian(msgLen, 2) + detail + name;
  }

  lemma UpdatedKeyed(c: Crypto, version: nat, d: Direction)
    ensures Keyed(c, version, UpdateKey(c, version, d))
    ensures UpdateKey(c, version, d).secret ==
              c.expand(d.secret,
                       Info(48, version, [0x74, 0x72, 0x61, 0x66, 0x66, 0x69, 0x63, 0x20, 0x75, 0x70, 0x64]), 48)
  {
    InfoIs(version, LABEL_KEY, BIN_STR_SIZE, KEY_SIZE);
    InfoIs(version, LABEL_IV, 13, SALT_SIZE);
    InfoIs(version, LABEL_TRAFFIC_UPDATE, BIN_STR_SIZE, SECRET_SIZE);
  }

  /** After `n` messages a direction that started with its own secret's key and salt still
      has them, and its secret is the one of its epoch. */
  lemma {:induction false} KeyOfEpoch(c: Crypto, version: nat, d: Direction, n: nat)
    requires DirectionOk(d) && Keyed(c, version, d)
    ensures var d' := AdvanceBy(c, version, d, n);
            && Keyed(c, version, d') && d'.epoch >= d.epoch
            && d'.secret == SecretAt(c, version, d.secret, d'.epoch - d.epoch)
  {
    if n > 0 {
      KeyOfEpoch(c, version, d, n - 1);
      UpdatedKeyed(c, version, AdvanceBy(c, version, d, n - 1));
    }
  }

  // ----- messages

  /** What a caller asks to send: an SPDM control message with its header, or
      application data; and the random padding, used when encryption is negotiated. */
  datatype Content = Control(header: seq<byte>, body: seq<byte>) | AppData(body: seq<byte>)

  predicate ContentOk(content: Content) {
    content.Control? ==> |content.header| == SPDM_HEADER_SIZE
  }

  /** The bytes the receiver is to get. */
  function Framed(content: Content): seq<byte> {
    match content
    case Control(header, body) => [SPDM_MESSAGE] + header + body
    case AppData(body) => body
  }

  /** The plaintext: a 16-bit length, the framed content, the padding. */
  function Plaintext(content: Content, padding: seq<byte>): seq<byte> {
    LittleEndian(|Framed(content)|, 2) + Framed(content) + padding
  }

  function Header(id: seq<byte>, sequence: nat, plainLength: nat): seq<byte> {
    id + LittleEndian(sequence, 2) + LittleEndian(plainLength + TAG_SIZE, 2)
  }

  /** The message a direction gives for a plaintext. */
  function Wire(c: Crypto, id: seq<byte>, d: Direction, plain: seq<byte>): (w: seq<byte>)
    requires |id| == SESSION_ID_SIZE && DirectionOk(d)
    ensures |w| == 1 + HEADER_SIZE + |plain| + TAG_SIZE
  {
    var header := Header(id, d.sequence, |plain|);
    var s := c.seal(d.key, Iv(d.salt, d.sequence), header, plain);
    [SECURED_MESSAGE + 0x80] + header + s.text + s.tag
  }

  /** `Overrun`: the lengths in the message lead past what was received or decrypted. */
  datatype Outcome = Accepted(content: seq<byte>) | Rejected | Overrun

  predicate ForSession(id: seq<byte>, wire: seq<byte>) {
    |wire| >= 5 && wire[0] % 128 == SECURED_MESSAGE && wire[1..5] == id
  }

  /** The 16-bit length left when the tag is taken off the length field. */
  function TextLength(wire: seq<byte>): nat
    requires |wire| >= 9
  {
    (wire[7] + 256 * wire[8] + 0x1_0000 - TAG_SIZE) % 0x1_0000
  }

  /** What the receiver makes of a decrypted plaintext: the length field replaces only
      the low half of the length variable, which held the message's length. */
  function Unpack(plain: seq<byte>, received: nat): Outcome {
    if |plain| < 2 then Overrun
    else
      var low: nat, high: nat := plain[0], plain[1];
      var n := received / 0x1_0000 * 0x1_0000 + low + 256 * high;
      if 2 + n > |plain| then Overrun else Accepted(plain[2..2 + n])
  }

  /** The outcome of a message of the session in one direction. */
  function OpenWire(c: Crypto, d: Direction, wire: seq<byte>): Outcome
    requires DirectionOk(d)
  {
    if |wire| < 9 || 9 + TextLength(wire) + TAG_SIZE > |wire| then Overrun
    else
      var result := Opened(c, d.key, Iv(d.salt, d.sequence), wire);
      if result.None? then Rejected else Unpack(result.value, |wire|)
  }

  /** The decryption of a message cut up by its length field. */
  function Opened(c: Crypto, key: seq<byte>, iv: seq<byte>, wire: seq<byte>): (r: Option<seq<byte>>)
    requires |wire| >= 9 && 9 + TextLength(wire) + TAG_SIZE <= |wire|
    ensures r.Some? ==> |r.value| == TextLength(wire)
  {
    var n := TextLength(wire);
    c.open(key, iv, wire[1..9], wire[9..9 + n], wire[9 + n..9 + n + TAG_SIZE])
  }

  /** Cutting up one byte, a header, a text and a tag. */
  lemma CutUp(first: byte, header: seq<byte>, text: seq<byte>, tag: seq<byte>)
    requires |header| == HEADER_SIZE
    ensures var w := [first] + header + text + tag; var n := 9 + |text|;
            w[0] == first && w[1..9] == header && w[9..n] == text && w[n..n + |tag|] == tag
            && w[1..5] == header[..4] && w[7] == header[6] && w[8] == header[7]
  {
  }

  /** The pieces of a message as the receiver cuts it up. */
  lemma WireParts(c: Crypto, id: seq<byte>, d: Direction, plain: seq<byte>)
    requires |id| == SESSION_ID_SIZE && DirectionOk(d)
    ensures var w := Wire(c, id, d, plain);
            var s := c.seal(d.key, Iv(d.salt, d.sequence), Header(id, d.sequence, |plain|), plain);
            && ForSession(id, w) && w[1..9] == Header(id, d.sequence, |plain|)
            && w[9..9 + |plain|] == s.text && w[9 + |plain|..9 + |plain| + TAG_SIZE] == s.tag
            && TextLength(w) == |plain| % 0x1_0000
  {
    var header := Header(id, d.sequence, |plain|);
    var s := c.seal(d.key, Iv(d.salt, d.sequence), header, plain);
    TwoBytesLittleEndian(|plain| + TAG_SIZE);
    CutUp(SECURED_MESSAGE + 0x80, header, s.text, s.tag);
    assert header[..4] == id;
    TagTakenOff(|plain|);
  }

  lemma TagTakenOff(n: nat)
    ensures ((n + TAG_SIZE) % 0x1_0000 + 0x1_0000 - TAG_SIZE) % 0x1_0000 == n % 0x1_0000
  {
  }

  predicate Fits(content: Content, padding: seq<byte>) {
    1 + HEADER_SIZE + |Plaintext(content, padding)| + TAG_SIZE < 0x1_0000
  }

  lemma LengthAndRest(length: seq<byte>, framed: seq<byte>, padding: seq<byte>)
    requires |length| == 2
    ensures var plain := length + framed + padding;
            plain[0] == length[0] && plain[1] == length[1] && plain[2..2 + |framed|] == framed
  {
  }

  lemma UnpackPlaintext(content: Content, padding: seq<byte>, received: nat)
    requires |Plaintext(content, padding)| < received < 0x1_0000
    ensures Unpack(Plaintext(content, padding), received) == Accepted(Framed(content))
  {
    var framed := Framed(content);
    TwoBytesLittleEndian(|framed|);
    LengthAndRest(LittleEndian(|framed|, 2), framed, padding);
  }

  lemma SealedOpens(c: Crypto, key: seq<byte>, iv: seq<byte>, aad: seq<byte>, plain: seq<byte>, text: seq<byte>,
                    tag: seq<byte>)
    requires Sealed(text, tag) == c.seal(key, iv, aad, plain)
    ensures c.open(key, iv, aad, text, tag) == Some(plain)
  {
  }

  lemma OpenOwnWire(c: Crypto, id: seq<byte>, d: Direction, plain: seq<byte>)
    requires |id| == SESSION_ID_SIZE && DirectionOk(d) && |plain| < 0x1_0000
    ensures OpenWire(c, d, Wire(c, id, d, plain)) == Unpack(plain, |Wire(c, id, d, plain)|)
  {
    var w, n := Wire(c, id, d, plain), |plain|;
    WireParts(c, id, d, plain);
    SealedOpens(c, d.key, Iv(d.salt, d.sequence), w[1..9], plain, w[9..9 + n], w[9 + n..9 + n + TAG_SIZE]);
  }

  lemma OpenFitting(c: Crypto, id: seq<byte>, d: Direction, content: Content, padding: seq<byte>)
    requires |id| == SESSION_ID_SIZE && DirectionOk(d) && Fits(content, padding)
    ensures OpenWire(c, d, Wire(c, id, d, Plaintext(content, padding))) == Accepted(Framed(content))
  {
    var plain := Plaintext(content, padding);
    OpenOwnWire(c, id, d, plain);
    UnpackPlaintext(content, padding, |Wire(c, id, d, plain)|);
  }

  /** A message of 65536 bytes or more is not accepted, whatever the cipher makes of it:
      the length variable keeps its high half, and so exceeds what was decrypted. */
  lemma OpenTooLong(c: Crypto, d: Direction, wire: seq<byte>)
    requires DirectionOk(d) && |wire| >= 0x1_0000
    ensures !OpenWire(c, d, wire).Accepted?
  {
    assert |wire| / 0x1_0000 >= 1;
  }

  /** A receiver in the sender's direction state gets exactly the framed content, without
      the padding, precisely when the whole message is shorter than 65536 bytes. */
  lemma OpenInvertsWire(c: Crypto, id: seq<byte>, d: Direction, content: Content, padding: seq<byte>)
    requires |id| == SESSION_ID_SIZE && DirectionOk(d)
    ensures OpenWire(c, d, Wire(c, id, d, Plaintext(content, padding))) == Accepted(Framed(content)) <==>
            Fits(content, padding)
  {
    if Fits(content, padding) {
      OpenFitting(c, id, d, content, padding);
    } else {
      OpenTooLong(c, d, Wire(c, id, d, Plaintext(content, padding)));
    }
  }

  // ----- sessions

  /** An endpoint's session; `NoSession` once it is released. A responder encrypts in the
      response direction and decrypts in the request direction. */
  datatype Session = NoSession | Session(isRequester: bool, id: seq<byte>, version: nat, encrypts: bool,
                                         req: Direction, rsp: Direction)
  {
    predicate Valid() {
      Session? ==> |id| == SESSION_ID_SIZE && DirectionOk(req) && DirectionOk(rsp)
    }

    function Outgoing(): Direction
      requires Session?
    {
      if isRequester then req else rsp
    }

    function Incoming(): Direction
      requires Session?
    {
      if isRequester then rsp else req
    }

    function WithOutgoing(d: Direction): Session
      requires Session?
    {
      if isRequester then this.(req := d) else this.(rsp := d)
    }

    function WithIncoming(d: Direction): Session
      requires Session?
    {
      if isRequester then this.(rsp := d) else this.(req := d)
    }
  }

  /** The random source: a 32-bit number for the padding's length, then its bytes. */
  datatype Random = Random(count: nat, stream: nat -> byte)

  function Padding(encrypts: bool, random: Random): (p: seq<byte>)
    ensures if encrypts then 1 <= |p| <= SPDM_MAX_RAND_COUNT else p == []
  {
    if encrypts then seq<byte>(random.count % SPDM_MAX_RAND_COUNT + 1, i requires 0 <= i => random.stream(i)) else []
  }

  predicate EndsSession(content: Content) {
    content.Control? && |content.header| > 1 && content.header[1] == SPDM_RSP_END_SESSION_ACK
  }

  /** `encrypt_secure_content`: no message without a session; the end-of-session
      acknowledgement releases it. */
  function Encrypt(c: Crypto, s: Session, content: Content, random: Random): (Session, Option<seq<byte>>)
    requires s.Valid()
  {
    if s.NoSession? then (s, None)
    else
      var wire := Wire(c, s.id, s.Outgoing(), Plaintext(content, Padding(s.encrypts, random)));
      (if EndsSession(content) then NoSession else s.WithOutgoing(Advance(c, s.version, s.Outgoing())), Some(wire))
  }

  /** `decrypt_secure_content`: the counter moves before the message is authenticated. */
  function Decrypt(c: Crypto, s: Session, wire: seq<byte>): (Session, Outcome)
    requires s.Valid()
  {
    if |wire| == 0 then (s, Overrun)
    else if wire[0] % 128 != SECURED_MESSAGE then (s, Rejected)
    else if |wire| < 5 then (s, Overrun)
    else if s.NoSession? || wire[1..5] != s.id then (s, Rejected)
    else (s.WithIncoming(Advance(c, s.version, s.Incoming())), OpenWire(c, s.Incoming(), wire))
  }

  /** Any message that names the session, genuine or not, moves the receiver's counter by
      one: after a forged one the receiver is a message ahead of the sender, and never
      uses the epoch and IV of the next genuine message for it. */
  lemma ForgeryDesynchronizes(c: Crypto, s: Session, forged: seq<byte>)
    requires s.Session? && s.Valid() && ForSession(s.id, forged)
    ensures var d := s.Incoming(); var d' := Decrypt(c, s, forged).0.Incoming();
            d' == Advance(c, s.version, d)
            && !(d'.epoch == d.epoch && Iv(d'.salt, d'.sequence) == Iv(d.salt, d.sequence))
  {
    var d := s.Incoming();
    assert AdvanceBy(c, s.version, d, 1) == Advance(c, s.version, AdvanceBy(c, s.version, d, 0));
    IvsDiffer(c, s.version, d, 0, 1);
  }

  // ----- runs of two endpoints

  datatype Message = Message(content: Content, padding: seq<byte>)

  /** One direction between the endpoints: messages under way, everything sent, and what
      the receiver made of each message delivered. */
  datatype Line = Line(inFlight: seq<seq<byte>>, sent: seq<Message>, got: seq<Outcome>)

  datatype World = World(requester: Session, responder: Session, up: Line, down: Line)

  datatype Side = Requester | Responder

  datatype Step = Send(side: Side, content: Content, random: Random) | Receive(side: Side)

  predicate Enabled(w: World, s: Step) {
    w.requester.Valid() && w.responder.Valid()
    && (s.Receive? ==> (if s.side == Requester then w.down else w.up).inFlight != [])
  }

  function Posted(l: Line, wire: Option<seq<byte>>, m: Message): Line {
    if wire.None? then l else l.(inFlight := l.inFlight + [wire.value], sent := l.sent + [m])
  }

  function Delivered(l: Line, o: Outcome): Line
    requires l.inFlight != []
  {
    l.(inFlight := l.inFlight[1..], got := l.got + [o])
  }

  function After(c: Crypto, w: World, s: Step): World
    requires Enabled(w, s)
  {
    match s
    case Send(Requester, content, random) =>
      var (s', wire) := Encrypt(c, w.requester, content, random);
      w.(requester := s', up := Posted(w.up, wire, MessageOf(w.requester, content, random)))
    case Send(Responder, content, random) =>
      var (s', wire) := Encrypt(c, w.responder, content, random);
      w.(responder := s', down := Posted(w.down, wire, MessageOf(w.responder, content, random)))
    case Receive(Requester) =>
      var (s', o) := Decrypt(c, w.requester, w.down.inFlight[0]);
      w.(requester := s', down := Delivered(w.down, o))
    case Receive(Responder) =>
      var (s', o) := Decrypt(c, w.responder, w.up.inFlight[0]);
      w.(responder := s', up := Delivered(w.up, o))
  }

  function MessageOf(s: Session, content: Content, random: Random): Message {
    Message(content, Padding(s.Session? && s.encrypts, random))
  }

  const EMPTY_LINE := Line([], [], [])

  /** An established session: both ends hold the same keys, salts and counters. */
  predicate Established(w: World) {
    && w.requester.Session? && w.requester.Valid() && w.requester.isRequester
    && w.responder == w.requester.(isRequester := false, encrypts := w.responder.Session? && w.responder.encrypts)
    && w.up == EMPTY_LINE && w.down == EMPTY_LINE
  }

  predicate IsRun(c: Crypto, ws: seq<World>, steps: seq<Step>) {
    && |ws| == |steps| + 1 && Established(ws[0])
    && forall i :: 0 <= i < |steps| ==> Enabled(ws[i], steps[i]) && ws[i + 1] == After(c, ws[i], steps[i])
  }

  /** The fixed data of one direction of a run: the session's id and version, and the
      direction's state at its start. */
  datatype Origin = Origin(id: seq<byte>, version: nat, start: Direction)

  predicate OriginOk(o: Origin) {
    |o.id| == SESSION_ID_SIZE && DirectionOk(o.start)
  }

  function StateAt(c: Crypto, o: Origin, n: nat): (d: Direction)
    requires OriginOk(o)
    ensures DirectionOk(d)
  {
    AdvanceBy(c, o.version, o.start, n)
  }

  function WireAt(c: Crypto, o: Origin, n: nat, m: Message): seq<byte>
    requires OriginOk(o)
  {
    Wire(c, o.id, StateAt(c, o, n), Plaintext(m.content, m.padding))
  }

  /** Message `i` under way was encrypted in order. */
  predicate FlightOk(c: Crypto, o: Origin, l: Line, i: nat)
    requires OriginOk(o) && |l.got| + |l.inFlight| == |l.sent| && i < |l.inFlight|
  {
    l.inFlight[i] == WireAt(c, o, |l.got| + i, l.sent[|l.got| + i])
  }

  /** Delivered message `i` was accepted as the content sent when it fits, unless its
      receiver had released the session. */
  predicate GotOk(receiver: Option<Direction>, l: Line, i: nat)
    requires |l.got| <= |l.sent| && i < |l.got|
  {
    OutcomeOk(receiver, l.sent[i], l.got[i])
  }

  /** Both ends are as far as the messages they handled; what is under way was encrypted
      in order; what was delivered has a suitable outcome. */
  predicate LineOk(c: Crypto, o: Origin, sender: Option<Direction>, receiver: Option<Direction>, l: Line)
    requires OriginOk(o)
  {
    && |l.got| + |l.inFlight| == |l.sent|
    && (sender.Some? ==> sender.value == StateAt(c, o, |l.sent|))
    && (receiver.Some? ==> receiver.value == StateAt(c, o, |l.got|))
    && (forall i :: 0 <= i < |l.inFlight| ==> FlightOk(c, o, l, i))
    && (forall i :: 0 <= i < |l.got| ==> GotOk(receiver, l, i))
  }

  predicate OutcomeOk(receiver: Option<Direction>, m: Message, o: Outcome) {
    (o == Accepted(Framed(m.content)) <==> Fits(m.content, m.padding)) || (receiver.None? && o.Rejected?)
  }

  lemma SendKeepsLine(c: Crypto, o: Origin, d: Direction, receiver: Option<Direction>, l: Line, m: Message)
    requires OriginOk(o) && LineOk(c, o, Some(d), receiver, l)
    ensures DirectionOk(d)
    ensures LineOk(c, o, Some(Advance(c, o.version, d)), receiver,
                   Posted(l, Some(Wire(c, o.id, d, Plaintext(m.content, m.padding))), m))
  {
    PostKeepsLine(c, o, Some(d), Some(Advance(c, o.version, d)), receiver, l, m, WireAt(c, o, |l.sent|, m));
  }

  lemma FlightAfterPost(c: Crypto, o: Origin, l: Line, m: Message, wire: seq<byte>, i: nat)
    requires OriginOk(o) && |l.got| + |l.inFlight| == |l.sent| && i <= |l.inFlight|
    requires if i < |l.inFlight| then FlightOk(c, o, l, i) else wire == WireAt(c, o, |l.sent|, m)
    ensures FlightOk(c, o, Posted(l, Some(wire), m), i)
  {
    var (l', n) := (Posted(l, Some(wire), m), |l.got| + i);
    assert if i < |l.inFlight| then l'.sent[n] == l.sent[n] else l'.sent[n] == m;
    assert if i < |l.inFlight| then l'.inFlight[i] == l.inFlight[i] else l'.inFlight[i] == wire;
  }

  lemma PostKeepsLine(c: Crypto, o: Origin, sender: Option<Direction>, sender': Option<Direction>,
                      receiver: Option<Direction>, l: Line, m: Message, wire: seq<byte>)
    requires OriginOk(o) && LineOk(c, o, sender, receiver, l) && wire == WireAt(c, o, |l.sent|, m)
    requires sender'.Some? ==> sender'.value == StateAt(c, o, |l.sent| + 1)
    ensures LineOk(c, o, sender', receiver, Posted(l, Some(wire), m))
  {
    var l' := Posted(l, Some(wire), m);
    forall i | 0 <= i < |l'.inFlight| ensures FlightOk(c, o, l', i) {
      FlightAfterPost(c, o, l, m, wire, i);
    }
    forall i | 0 <= i < |l'.got| ensures GotOk(receiver, l', i) {
      assert GotOk(receiver, l, i);
    }
  }

  lemma OutcomeKept(receiver: Option<Direction>, receiver': Option<Direction>, m: Message, out: Outcome)
    requires OutcomeOk(receiver, m, out) && (receiver.None? ==> receiver'.None?)
    ensures OutcomeOk(receiver', m, out)
  {
  }

  lemma FlightAfterDelivery(c: Crypto, o: Origin, l: Line, out: Outcome, i: nat)
    requires OriginOk(o) && |l.got| + |l.inFlight| == |l.sent| && i + 1 < |l.inFlight| && FlightOk(c, o, l, i + 1)
    ensures FlightOk(c, o, Delivered(l, out), i)
  {
    assert Delivered(l, out).inFlight[i] == l.inFlight[i + 1];
  }

  /** Delivering the oldest message, with an outcome that suits it. */
  lemma DeliverKeepsLine(c: Crypto, o: Origin, sender: Option<Direction>, receiver: Option<Direction>,
                         receiver': Option<Direction>, l: Line, out: Outcome)
    requires OriginOk(o) && LineOk(c, o, sender, receiver, l) && l.inFlight != []
    requires receiver'.Some? ==> receiver.Some? && receiver'.value == StateAt(c, o, |l.got| + 1)
    requires receiver.None? ==> receiver'.None?
    requires OutcomeOk(receiver', l.sent[|l.got|], out)
    ensures LineOk(c, o, sender, receiver', Delivered(l, out))
  {
    var l' := Delivered(l, out);
    forall i | 0 <= i < |l'.got| ensures GotOk(receiver', l', i) {
      if i < |l.got| {
        assert GotOk(receiver, l, i);
        OutcomeKept(receiver, receiver', l.sent[i], l.got[i]);
      }
    }
    forall i | 0 <= i < |l'.inFlight| ensures FlightOk(c, o, l', i) {
      FlightAfterDelivery(c, o, l, out, i);
    }
  }

  lemma FirstInFlight(c: Crypto, o: Origin, sender: Option<Direction>, receiver: Option<Direction>, l: Line)
    requires OriginOk(o) && LineOk(c, o, sender, receiver, l) && l.inFlight != []
    ensures l.inFlight[0] == WireAt(c, o, |l.got|, l.sent[|l.got|])
  {
    assert FlightOk(c, o, l, 0);
  }

  lemma GenuineWire(c: Crypto, o: Origin, n: nat, m: Message, receiver: Option<Direction>)
    requires OriginOk(o)
    ensures ForSession(o.id, WireAt(c, o, n, m))
    ensures OutcomeOk(receiver, m, OpenWire(c, StateAt(c, o, n), WireAt(c, o, n, m)))
  {
    WireParts(c, o.id, StateAt(c, o, n), Plaintext(m.content, m.padding));
    OpenInvertsWire(c, o.id, StateAt(c, o, n), m.content, m.padding);
  }

  lemma ReceiveKeepsLine(c: Crypto, o: Origin, sender: Option<Direction>, d: Direction, l: Line)
    requires OriginOk(o) && LineOk(c, o, sender, Some(d), l) && l.inFlight != []
    ensures DirectionOk(d) && ForSession(o.id, l.inFlight[0])
    ensures LineOk(c, o, sender, Some(Advance(c, o.version, d)), Delivered(l, OpenWire(c, d, l.inFlight[0])))
  {
    var next := Some(Advance(c, o.version, StateAt(c, o, |l.got|)));
    FirstInFlight(c, o, sender, Some(d), l);
    GenuineWire(c, o, |l.got|, l.sent[|l.got|], next);
    DeliverKeepsLine(c, o, sender, Some(d), next, l, OpenWire(c, d, l.inFlight[0]));
  }

  /** A receiver that released the session rejects what still arrives. */
  lemma RejectKeepsLine(c: Crypto, o: Origin, sender: Option<Direction>, l: Line)
    requires OriginOk(o) && LineOk(c, o, sender, None, l) && l.inFlight != []
    ensures ForSession(o.id, l.inFlight[0])
    ensures LineOk(c, o, sender, None, Delivered(l, Rejected))
  {
    FirstInFlight(c, o, sender, None, l);
    GenuineWire(c, o, |l.got|, l.sent[|l.got|], None);
    DeliverKeepsLine(c, o, sender, None, None, l, Rejected);
  }

  function ReqOf(s: Session): Option<Direction> {
    if s.Session? then Some(s.req) else None
  }

  function RspOf(s: Session): Option<Direction> {
    if s.Session? then Some(s.rsp) else None
  }

  predicate SessionOf(s: Session, isRequester: bool, o: Origin) {
    s.Valid() && (s.Session? ==> s.isRequester == isRequester && s.id == o.id && s.version == o.version)
  }

  predicate WorldOk(c: Crypto, w: World, up: Origin, down: Origin)
    requires OriginOk(up) && OriginOk(down)
  {
    && up.id == down.id && up.version == down.version
    && SessionOf(w.requester, true, up) && SessionOf(w.responder, false, up)
    && LineOk(c, up, ReqOf(w.requester), ReqOf(w.responder), w.up)
    && LineOk(c, down, RspOf(w.responder), RspOf(w.requester), w.down)
  }

  /** Releasing a session forgets its states: what is known of a line stays true. */
  lemma ReleaseKeepsLine(c: Crypto, o: Origin, sender: Option<Direction>, receiver: Option<Direction>, l: Line)
    requires OriginOk(o) && LineOk(c, o, sender, receiver, l)
    ensures LineOk(c, o, None, receiver, l) && LineOk(c, o, sender, None, l)
  {
    forall i | 0 <= i < |l.got| ensures GotOk(None, l, i) {
      assert GotOk(receiver, l, i);
      OutcomeKept(receiver, None, l.sent[i], l.got[i]);
    }
  }

  lemma EncryptKeepsLines(c: Crypto, s: Session, content: Content, random: Random, own: Origin, other: Origin,
                          receiver: Option<Direction>, sender: Option<Direction>, l: Line, back: Line)
    requires OriginOk(own) && OriginOk(other) && s.Session? && s.Valid() && s.id == own.id && s.version == own.version
    requires LineOk(c, own, Some(s.Outgoing()), receiver, l) && LineOk(c, other, sender, Some(s.Incoming()), back)
    ensures var (s', wire) := Encrypt(c, s, content, random);
            && SessionOf(s', s.isRequester, own)
            && LineOk(c, own, if s'.Session? then Some(s'.Outgoing()) else None, receiver,
                      Posted(l, wire, MessageOf(s, content, random)))
            && LineOk(c, other, sender, if s'.Session? then Some(s'.Incoming()) else None, back)
  {
    var m := MessageOf(s, content, random);
    SendKeepsLine(c, own, s.Outgoing(), receiver, l, m);
    ReleaseKeepsLine(c, own, Some(Advance(c, own.version, s.Outgoing())), receiver,
                     Posted(l, Some(Wire(c, own.id, s.Outgoing(), Plaintext(m.content, m.padding))), m));
    ReleaseKeepsLine(c, other, sender, Some(s.Incoming()), back);
  }

  lemma DecryptKeepsLine(c: Crypto, s: Session, own: Origin, sender: Option<Direction>, l: Line)
    requires OriginOk(own) && SessionOf(s, s.Session? && s.isRequester, own) && l.inFlight != []
    requires LineOk(c, own, sender, if s.Session? then Some(s.Incoming()) else None, l)
    ensures var (s', out) := Decrypt(c, s, l.inFlight[0]);
            && (s.NoSession? ==> s'.NoSession?)
            && (s.Session? ==> s' == s.WithIncoming(Advance(c, s.version, s.Incoming())))
            && LineOk(c, own, sender, if s'.Session? then Some(s'.Incoming()) else None, Delivered(l, out))
  {
    if s.Session? {
      ReceiveKeepsLine(c, own, sender, s.Incoming(), l);
    } else {
      RejectKeepsLine(c, own, sender, l);
    }
  }

  lemma SendKeepsWorldOk(c: Crypto, w: World, s: Step, up: Origin, down: Origin)
    requires OriginOk(up) && OriginOk(down) && WorldOk(c, w, up, down) && Enabled(w, s) && s.Send?
    ensures WorldOk(c, After(c, w, s), up, down)
  {
    if s.side == Requester && w.requester.Session? {
      EncryptKeepsLines(c, w.requester, s.content, s.random, up, down, ReqOf(w.responder), RspOf(w.responder),
                        w.up, w.down);
    } else if s.side == Responder && w.responder.Session? {
      EncryptKeepsLines(c, w.responder, s.content, s.random, down, up, RspOf(w.requester), ReqOf(w.requester),
                        w.down, w.up);
    }
  }

  lemma ReceiveKeepsWorldOk(c: Crypto, w: World, s: Step, up: Origin, down: Origin)
    requires OriginOk(up) && OriginOk(down) && WorldOk(c, w, up, down) && Enabled(w, s) && s.Receive?
    ensures WorldOk(c, After(c, w, s), up, down)
  {
    if s.side == Requester {
      DecryptKeepsLine(c, w.requester, down, RspOf(w.responder), w.down);
    } else {
      DecryptKeepsLine(c, w.responder, up, ReqOf(w.requester), w.up);
    }
  }

  lemma StepKeepsWorldOk(c: Crypto, w: World, s: Step, up: Origin, down: Origin)
    requires OriginOk(up) && OriginOk(down) && WorldOk(c, w, up, down) && Enabled(w, s)
    ensures WorldOk(c, After(c, w, s), up, down)
  {
    if s.Send? {
      SendKeepsWorldOk(c, w, s, up, down);
    } else {
      ReceiveKeepsWorldOk(c, w, s, up, down);
    }
  }

  lemma EstablishedWorldOk(c: Crypto, w: World)
    requires Established(w)
    ensures WorldOk(c, w, UpOrigin(w), DownOrigin(w))
  {
  }

  lemma RunStep(c: Crypto, ws: seq<World>, steps: seq<Step>, i: nat)
    requires IsRun(c, ws, steps) && i < |steps|
    ensures Enabled(ws[i], steps[i]) && ws[i + 1] == After(c, ws[i], steps[i])
  {
  }

  lemma {:induction false} RunKeepsWorldOk(c: Crypto, ws: seq<World>, steps: seq<Step>, i: nat)
    requires IsRun(c, ws, steps) && i < |ws|
    ensures WorldOk(c, ws[i], UpOrigin(ws[0]), DownOrigin(ws[0]))
  {
    if i == 0 {
      EstablishedWorldOk(c, ws[0]);
    } else {
      RunKeepsWorldOk(c, ws, steps, i - 1);
      RunStep(c, ws, steps, i - 1);
      StepKeepsWorldOk(c, ws[i - 1], steps[i - 1], UpOrigin(ws[0]), DownOrigin(ws[0]));
    }
  }

  function UpOrigin(w: World): (o: Origin)
    requires Established(w)
    ensures OriginOk(o)
  {
    Origin(w.requester.id, w.requester.version, w.requester.req)
  }

  function DownOrigin(w: World): (o: Origin)
    requires Established(w)
    ensures OriginOk(o)
  {
    Origin(w.requester.id, w.requester.version, w.requester.rsp)
  }

  /** Lockstep, over any interleaving of the two directions: the ends of a direction are
      apart by exactly the messages under way, automatic re-keys included, and hold the
      same secret, key, salt and counter when there are none. */
  lemma Lockstep(c: Crypto, ws: seq<World>, steps: seq<Step>, i: nat)
    requires IsRun(c, ws, steps) && i < |ws| && ws[i].requester.Session? && ws[i].responder.Session?
    ensures DirectionOk(ws[i].requester.rsp) && DirectionOk(ws[i].responder.req)
    ensures ws[i].requester.req == AdvanceBy(c, ws[0].requester.version, ws[i].responder.req, |ws[i].up.inFlight|)
    ensures ws[i].responder.rsp == AdvanceBy(c, ws[0].requester.version, ws[i].requester.rsp, |ws[i].down.inFlight|)
    ensures ws[i].up.inFlight == [] && ws[i].down.inFlight == [] ==>
              ws[i].requester.req == ws[i].responder.req && ws[i].requester.rsp == ws[i].responder.rsp
  {
    var w, version := ws[i], ws[0].requester.version;
    RunKeepsWorldOk(c, ws, steps, i);
    AdvanceTwice(c, version, ws[0].requester.req, |w.up.got|, |w.up.inFlight|);
    AdvanceTwice(c, version, ws[0].requester.rsp, |w.down.got|, |w.down.inFlight|);
  }

  lemma {:induction false} AdvanceTwice(c: Crypto, version: nat, d: Direction, m: nat, n: nat)
    requires DirectionOk(d)
    ensures AdvanceBy(c, version, AdvanceBy(c, version, d, m), n) == AdvanceBy(c, version, d, m + n)
  {
    if n > 0 {
      AdvanceTwice(c, version, d, m, n - 1);
    }
  }

  /** Delivery: messages arrive in order, and the `k`-th one delivered is accepted as the
      `k`-th content sent, random padding removed, precisely when it fits in 65535 bytes;
      only a receiver that released its session rejects a genuine message. */
  lemma DeliveredIsSent(c: Crypto, ws: seq<World>, steps: seq<Step>, i: nat, k: nat)
    requires IsRun(c, ws, steps) && i < |ws| && k < |ws[i].up.got|
    ensures |ws[i].up.got| <= |ws[i].up.sent|
    ensures var m := ws[i].up.sent[k]; var out := ws[i].up.got[k];
            (out == Accepted(Framed(m.content)) <==> Fits(m.content, m.padding))
            || (ws[i].responder.NoSession? && out.Rejected?)
  {
    RunKeepsWorldOk(c, ws, steps, i);
    assert GotOk(ReqOf(ws[i].responder), ws[i].up, k);
  }

  lemma DeliveredIsSentDown(c: Crypto, ws: seq<World>, steps: seq<Step>, i: nat, k: nat)
    requires IsRun(c, ws, steps) && i < |ws| && k < |ws[i].down.got|
    ensures |ws[i].down.got| <= |ws[i].down.sent|
    ensures var m := ws[i].down.sent[k]; var out := ws[i].down.got[k];
            (out == Accepted(Framed(m.content)) <==> Fits(m.content, m.padding))
            || (ws[i].requester.NoSession? && out.Rejected?)
  {
    RunKeepsWorldOk(c, ws, steps, i);
    assert GotOk(RspOf(ws[i].requester), ws[i].down, k);
  }

  // ----- counters and IVs over runs

  function Sender(w: World, side: Side): Session {
    if side == Requester then w.requester else w.responder
  }

  /** The line a side sends on. */
  function SendLine(w: World, side: Side): Line {
    if side == Requester then w.up else w.down
  }

  function SendOrigin(w: World, side: Side): (o: Origin)
    requires Established(w)
    ensures OriginOk(o)
  {
    if side == Requester then UpOrigin(w) else DownOrigin(w)
  }

  /** A sender is in the state that its number of sent messages gives. */
  lemma SenderState(c: Crypto, ws: seq<World>, steps: seq<Step>, i: nat, side: Side)
    requires IsRun(c, ws, steps) && i < |ws| && Sender(ws[i], side).Session?
    ensures DirectionOk(Sender(ws[i], side).Outgoing())
    ensures Sender(ws[i], side).Outgoing() == StateAt(c, SendOrigin(ws[0], side), |SendLine(ws[i], side).sent|)
  {
    RunKeepsWorldOk(c, ws, steps, i);
  }

  /** Over a run, the counter with which either side encrypts its next message is below the
      re-key limit and given by the messages sent, so that its 16-bit copy in the header is
      exact. */
  lemma HeaderCounterExact(c: Crypto, ws: seq<World>, steps: seq<Step>, i: nat, side: Side)
    requires IsRun(c, ws, steps) && i < |ws| && Sender(ws[i], side).Session?
    ensures var d, start := Sender(ws[i], side).Outgoing(), SendOrigin(ws[0], side).start;
            && d.sequence == (start.sequence + |SendLine(ws[i], side).sent|) % MAX_SESSION_REKEY_COUNT
            && LittleEndian(d.sequence, 2) == [d.sequence % 256, d.sequence / 256]
  {
    var o := SendOrigin(ws[0], side);
    SenderState(c, ws, steps, i, side);
    CounterAfter(c, o.version, o.start, |SendLine(ws[i], side).sent|);
    TwoBytesLittleEndian(Sender(ws[i], side).Outgoing().sequence);
  }

  /** Whether a step encrypts a message of a side. */
  predicate Encrypts(w: World, s: Step, side: Side) {
    s.Send? && s.side == side && Sender(w, side).Session?
  }

  lemma StepSends(c: Crypto, ws: seq<World>, steps: seq<Step>, i: nat, side: Side)
    requires IsRun(c, ws, steps) && i < |steps|
    ensures |SendLine(ws[i + 1], side).sent| == |SendLine(ws[i], side).sent|
            + (if Encrypts(ws[i], steps[i], side) then 1 else 0)
  {
    RunStep(c, ws, steps, i);
  }

  lemma {:induction false} SentGrows(c: Crypto, ws: seq<World>, steps: seq<Step>, i: nat, j: nat, side: Side)
    requires IsRun(c, ws, steps) && i <= j < |ws|
    ensures |SendLine(ws[i], side).sent| <= |SendLine(ws[j], side).sent|
    decreases j - i
  {
    if i < j {
      StepSends(c, ws, steps, i, side);
      SentGrows(c, ws, steps, i + 1, j, side);
    }
  }

  /** No two messages that one side encrypts in a run share the key epoch and the IV. */
  lemma EpochAndIvDiffer(c: Crypto, ws: seq<World>, steps: seq<Step>, i: nat, j: nat, side: Side)
    requires IsRun(c, ws, steps) && i < j < |steps|
    requires Encrypts(ws[i], steps[i], side) && Encrypts(ws[j], steps[j], side)
    ensures var a, b := Sender(ws[i], side).Outgoing(), Sender(ws[j], side).Outgoing();
            DirectionOk(a) && DirectionOk(b) && a.epoch <= b.epoch
            && !(a.epoch == b.epoch && Iv(a.salt, a.sequence) == Iv(b.salt, b.sequence))
  {
    var o := SendOrigin(ws[0], side);
    SenderState(c, ws, steps, i, side);
    SenderState(c, ws, steps, j, side);
    StepSends(c, ws, steps, i, side);
    SentGrows(c, ws, steps, i + 1, j, side);
    IvsDiffer(c, o.version, o.start, |SendLine(ws[i], side).sent|, |SendLine(ws[j], side).sent|);
    EpochGrows(c, o.version, o.start, |SendLine(ws[i], side).sent|, |SendLine(ws[j], side).sent|);
  }

  /** Which key a side encrypts its next message with: with `n` messages sent, the one
      expanded from the secret of epoch (start + n) / 10000. */
  ghost function EpochOf(ws: seq<World>, i: nat, side: Side): nat
    requires i < |ws| && Established(ws[0])
  {
    (SendOrigin(ws[0], side).start.sequence + |SendLine(ws[i], side).sent|) / 10000
  }

  lemma SenderKey(c: Crypto, ws: seq<World>, steps: seq<Step>, i: nat, side: Side)
    requires IsRun(c, ws, steps) && i < |ws| && Sender(ws[i], side).Session?
    requires Keyed(c, SendOrigin(ws[0], side).version, SendOrigin(ws[0], side).start)
    ensures var o, d := SendOrigin(ws[0], side), Sender(ws[i], side).Outgoing();
            var secret := SecretAt(c, o.version, o.start.secret, EpochOf(ws, i, side));
            && d.secret == secret && d.epoch == o.start.epoch + EpochOf(ws, i, side)
            && d.key == c.expand(secret, Info(32, o.version, [0x6B, 0x65, 0x79]), 32)
            && d.salt == c.expand(secret, Info(12, o.version, [0x69, 0x76]), 12)
  {
    var o := SendOrigin(ws[0], side);
    SenderState(c, ws, steps, i, side);
    KeyOfEpoch(c, o.version, o.start, |SendLine(ws[i], side).sent|);
    CounterAfter(c, o.version, o.start, |SendLine(ws[i], side).sent|);
  }

  /** No IV reuse: when two messages that one side encrypts in a run have the same key and
      the same IV, then the secrets of two different epochs expand to one key. */
  lemma NoIvReuse(c: Crypto, ws: seq<World>, steps: seq<Step>, i: nat, j: nat, side: Side)
    requires IsRun(c, ws, steps) && i < j < |steps|
    requires Keyed(c, SendOrigin(ws[0], side).version, SendOrigin(ws[0], side).start)
    requires Encrypts(ws[i], steps[i], side) && Encrypts(ws[j], steps[j], side)
    ensures DirectionOk(Sender(ws[i], side).Outgoing()) && DirectionOk(Sender(ws[j], side).Outgoing())
    ensures var o, a, b := SendOrigin(ws[0], side), Sender(ws[i], side).Outgoing(), Sender(ws[j], side).Outgoing();
            var d, e := EpochOf(ws, i, side), EpochOf(ws, j, side);
            a.key == b.key && Iv(a.salt, a.sequence) == Iv(b.salt, b.sequence) ==>
              d < e
              && c.expand(SecretAt(c, o.version, o.start.secret, d), Info(32, o.version, [0x6B, 0x65, 0x79]), 32)
                 == c.expand(SecretAt(c, o.version, o.start.secret, e), Info(32, o.version, [0x6B, 0x65, 0x79]), 32)
  {
    EpochAndIvDiffer(c, ws, steps, i, j, side);
    SenderKey(c, ws, steps, i, side);
    SenderKey(c, ws, steps, j, side);
  }

  // ----- single messages, byte by byte

  /** The bytes of a message: its type with the integrity bit, the session, the counter, the
      length, the encrypted plaintext and its tag. The eight bytes after the type are
      authenticated; the plaintext is the content's length, the content and the padding. */
  lemma MessageBytes(c: Crypto, s: Session, content: Content, random: Random)
    requires s.Session? && s.Valid()
    ensures var d := s.Outgoing();
            var framed := match content case Control(header, body) => [0x05] + header + body case AppData(body) => body;
            var plain := [|framed| % 256, |framed| / 256 % 256] + framed + Padding(s.encrypts, random);
            var total := |plain| + 16;
            var header := s.id + [d.sequence % 256, d.sequence / 256 % 256] + [total % 256, total / 256 % 256];
            var sealed := c.seal(d.key, Iv(d.salt, d.sequence), header, plain);
            Encrypt(c, s, content, random).1 == Some([0x86] + header + sealed.text + sealed.tag)
  {
    TwoBytesLittleEndian(|Framed(content)|);
    TwoBytesLittleEndian(s.Outgoing().sequence);
    TwoBytesLittleEndian(|Plaintext(content, Padding(s.encrypts, random))| + TAG_SIZE);
  }

  /** The padding: one to 32 bytes, as many as the low five bits of the first random number say,
      when encryption was negotiated, and none otherwise. */
  lemma PaddingBytes(encrypts: bool, random: Random, k: nat)
    ensures |Padding(encrypts, random)| == if encrypts then random.count % 32 + 1 else 0
    ensures k < |Padding(encrypts, random)| ==> Padding(encrypts, random)[k] == random.stream(k)
  {
  }

  /** The IV: the first eight bytes of the salt combined bit by bit with the counter, low
      byte first, and the last four as they are. */
  lemma IvBytes(salt: seq<byte>, sequence: nat, k: nat)
    requires |salt| == 12 && k < 12
    ensures Iv(salt, sequence)[k] == if k < 8 then Xor(salt[k], sequence / Pow256(k) % 256) else salt[k]
  {
    if k < 8 {
      LittleEndianByte(sequence, 8, k);
    }
  }

  /** Sending moves the counter or releases the session, which only the acknowledgement of
      its end does. */
  lemma SendingReleases(c: Crypto, s: Session, content: Content, random: Random)
    requires s.Session? && s.Valid()
    ensures Encrypt(c, s, content, random).0 ==
              if content.Control? && |content.header| > 1 && content.header[1] == 0x6C then NoSession
              else if s.isRequester then s.(req := Advance(c, s.version, s.req))
              else s.(rsp := Advance(c, s.version, s.rsp))
  {
  }

  /** A message is accepted only if the cipher opens it under the receiver's key and IV, with
      the eight header bytes authenticated; then the content is what the plaintext's length
      field delimits. */
  lemma AcceptedIsAuthentic(c: Crypto, s: Session, wire: seq<byte>)
    requires s.Valid() && Decrypt(c, s, wire).1.Accepted?
    ensures s.Session? && |wire| >= 27 && wire[1..5] == s.id && wire[0] % 128 == 6
    ensures var d := s.Incoming(); var low: int, high: int := wire[7], wire[8]; var n := low + 256 * high - 16;
            0 <= n && n + 25 <= |wire| < 0x1_0000
            && var plain := c.open(d.key, Iv(d.salt, d.sequence), wire[1..9], wire[9..9 + n], wire[9 + n..25 + n]);
               plain.Some? && |plain.value| == n >= 2
               && var first: int, second: int := plain.value[0], plain.value[1]; var m := first + 256 * second;
                  2 + m <= n && Decrypt(c, s, wire).1.content == plain.value[2..2 + m]
  {
    var d := s.Incoming();
    assert Decrypt(c, s, wire).1 == OpenWire(c, d, wire);
    var plain := Opened(c, d.key, Iv(d.salt, d.sequence), wire);
    UnpackedLength(plain.value, |wire|);
    TextLengthIs(wire);
  }

  lemma UnpackedLength(plain: seq<byte>, received: nat)
    requires |plain| < received && |plain| < 0x1_0000 && Unpack(plain, received).Accepted?
    ensures received < 0x1_0000 && |plain| >= 2
    ensures var low: int, high: int := plain[0], plain[1]; var n := low + 256 * high;
            2 + n <= |plain| && Unpack(plain, received).content == plain[2..2 + n]
  {
    var high := received / 0x1_0000;
    assert high >= 1 ==> high * 0x1_0000 >= 0x1_0000;
  }

  lemma TextLengthIs(wire: seq<byte>)
    requires |wire| >= 9
    ensures var low: int, high: int := wire[7], wire[8]; var n := low + 256 * high - 16;
            TextLength(wire) == if n >= 0 then n else n + 0x1_0000
  {
  }

  /** A message that does not name the receiver's session changes nothing and is not accepted;
      one that does moves the receiver's counter, whatever becomes of it. */
  lemma ReceivingMoves(c: Crypto, s: Session, wire: seq<byte>)
    requires s.Valid()
    ensures Decrypt(c, s, wire).0 ==
              if s.Session? && ForSession(s.id, wire) then s.WithIncoming(Advance(c, s.version, s.Incoming())) else s
    ensures !(s.Session? && ForSession(s.id, wire)) ==>
              Decrypt(c, s, wire).1 == if |wire| == 0 || (|wire| < 5 && wire[0] % 128 == 6) then Overrun else Rejected
  {
  }
}
