/** An endpoint of the secured channel as the program keeps it: session fields updated in
    place, messages written into and cut out of a buffer. */
module SpdmEndpoint {
  import opened Bits
  import opened Bytes
  import opened Options
  import opened SpdmCrypto
  import opened SpdmChannel

  /** Appends bytes at a moving position of a buffer. */
  method Append(buf: array<byte>, at: nat, src: seq<byte>) returns (next: nat)
    requires at + |src| <= buf.Length
    modifies buf
    ensures next == at + |src| && buf[..next] == old(buf[..at]) + src
  {
    CopyInto(buf, at, src);
    next := at + |src|;
    assert buf[..next] == buf[..at] + buf[at..next];
    assert buf[..at] == old(buf[..])[..at];
  }

  /** Appends the message type, the header and the body of a control message, or the
      application data. */
  method AppendFramed(buf: array<byte>, at: nat, content: Content) returns (next: nat)
    requires at + |Framed(content)| <= buf.Length
    modifies buf
    ensures next == at + |Framed(content)| && buf[..next] == old(buf[..at]) + Framed(content)
  {
    if content.Control? {
      ghost var before := buf[..at];
      next := Append(buf, at, [SPDM_MESSAGE]);
      next := Append(buf, next, content.header);
      next := Append(buf, next, content.body);
      InOnePiece(before, [SPDM_MESSAGE], content.header, content.body);
    } else {
      next := Append(buf, at, content.body);
    }
  }

  /** The parts of a plaintext through a moving position. */
  method WritePlaintext(plain: array<byte>, field: seq<byte>, content: Content, padding: seq<byte>)
    requires |field| + |Framed(content)| + |padding| == plain.Length
    modifies plain
    ensures plain[..] == field + Framed(content) + padding
  {
    var at := Append(plain, 0, field);
    assert plain[..at] == field;
    at := AppendFramed(plain, at, content);
    at := Append(plain, at, padding);
    assert plain[..at] == plain[..];
  }

  lemma InOnePiece(a: seq<byte>, b: seq<byte>, c: seq<byte>, d: seq<byte>)
    ensures a + b + c + d == a + (b + c + d)
  {
  }

  /** `spdm_bin_concat`. */
  method ConcatBinary(version: nat, name: seq<byte>, context: seq<byte>, msgLen: nat, output: array<byte>, size: nat)
    returns (ok: bool, filled: nat)
    requires size <= output.Length
    modifies output
    ensures match BinConcat(version, name, context, size, msgLen)
            case None => !ok && filled == size && output[..] == old(output[..])
            case Some(s) => ok && filled == |s| && output[..filled] == s
  {
    ok, filled := false, size;
    if size < 1 + 9 + |name| + |context| {
      return;
    }
    var at := Append(output, 0, LittleEndian(msgLen, 2));
    at := Append(output, at, if version == SPDM_VERSION_11 then VERSION_DETAIL_11 else VERSION_DETAIL_12);
    at := Append(output, at, name);
    at := Append(output, at, context);
    ok, filled := true, 1 + 9 + |name| + |context|;
  }

  /** `spdm_gen_key_iv`: the second label is concatenated with the buffer size the first
      one left. */
  method GenerateKeyIv(c: Crypto, version: nat, secret: seq<byte>) returns (key: seq<byte>, salt: seq<byte>)
    ensures key == KeyOf(c, version, secret) && salt == SaltOf(c, version, secret)
  {
    var binStr := new byte[BIN_STR_SIZE];
    var ok, size := ConcatBinary(version, LABEL_KEY, [], KEY_SIZE, binStr, BIN_STR_SIZE);
    key := c.expand(secret, binStr[..size], KEY_SIZE);
    ok, size := ConcatBinary(version, LABEL_IV, [], SALT_SIZE, binStr, size);
    salt := c.expand(secret, binStr[..size], SALT_SIZE);
  }

  /** The secret, key and salt that follow a secret. */
  method DeriveNext(c: Crypto, version: nat, secret: seq<byte>)
    returns (next: seq<byte>, key: seq<byte>, salt: seq<byte>)
    ensures next == NextSecret(c, version, secret) && key == KeyOf(c, version, next) && salt == SaltOf(c, version, next)
  {
    var binStr := new byte[BIN_STR_SIZE];
    var ok, size := ConcatBinary(version, LABEL_TRAFFIC_UPDATE, [], SECRET_SIZE, binStr, BIN_STR_SIZE);
    next := c.expand(secret, binStr[..size], SECRET_SIZE);
    key, salt := GenerateKeyIv(c, version, next);
  }

  /** Writes a whole message: type, header, encrypted plaintext, tag. */
  method WriteMessage(c: Crypto, id: seq<byte>, key: seq<byte>, iv: seq<byte>, counter: nat, plain: array<byte>,
                      buffer: array<byte>)
    returns (length: nat)
    requires |id| == SESSION_ID_SIZE && buffer != plain
    requires 1 + HEADER_SIZE + plain.Length + TAG_SIZE <= buffer.Length
    modifies buffer
    ensures var header := Header(id, counter, plain.Length); var s := c.seal(key, iv, header, plain[..]);
            && length == 1 + HEADER_SIZE + plain.Length + TAG_SIZE
            && buffer[..length] == [SECURED_MESSAGE + 0x80] + header + s.text + s.tag
  {
    var at := Append(buffer, 0, [SECURED_MESSAGE + 0x80]);
    at := Append(buffer, at, id);
    at := Append(buffer, at, LittleEndian(counter, 2));
    at := Append(buffer, at, LittleEndian(plain.Length + TAG_SIZE, 2));
    var aad := buffer[1..at];
    assert aad == Header(id, counter, plain.Length);
    var s := c.seal(key, iv, aad, plain[..]);
    at := Append(buffer, at, s.text);
    length := Append(buffer, at, s.tag);
  }

  class SessionContext {
    const crypto: Crypto
    var valid: bool
    var isRequester: bool
    var id: seq<byte>
    var version: nat
    var encrypts: bool
    var secretReq: seq<byte>
    var keyReq: seq<byte>
    var saltReq: seq<byte>
    var sequenceReq: nat
    var secretRsp: seq<byte>
    var keyRsp: seq<byte>
    var saltRsp: seq<byte>
    var sequenceRsp: nat
    ghost var epochReq: nat
    ghost var epochRsp: nat

    ghost function Req(): Direction
      reads this
    {
      Direction(secretReq, keyReq, saltReq, sequenceReq, epochReq)
    }

    ghost function Rsp(): Direction
      reads this
    {
      Direction(secretRsp, keyRsp, saltRsp, sequenceRsp, epochRsp)
    }

    ghost function Abstract(): Session
      reads this
    {
      if valid then Session(isRequester, id, version, encrypts, Req(), Rsp()) else NoSession
    }

    constructor (crypto: Crypto, isRequester: bool, id: seq<byte>, version: nat, encrypts: bool, req: Direction,
                 rsp: Direction)
      ensures this.crypto == crypto && Abstract() == Session(isRequester, id, version, encrypts, req, rsp)
    {
      this.crypto := crypto;
      this.valid, this.isRequester, this.id, this.version, this.encrypts := true, isRequester, id, version, encrypts;
      secretReq, keyReq, saltReq, sequenceReq, epochReq := req.secret, req.key, req.salt, req.sequence, req.epoch;
      secretRsp, keyRsp, saltRsp, sequenceRsp, epochRsp := rsp.secret, rsp.key, rsp.salt, rsp.sequence, rsp.epoch;
    }

    /** `spdm_update_key` for one direction. */
    method UpdateSessionKey(requestMode: bool)
      modifies this
      ensures valid == old(valid) && isRequester == old(isRequester) && id == old(id) && version == old(version)
      ensures encrypts == old(encrypts)
      ensures Req() == if requestMode then UpdateKey(crypto, version, old(Req())) else old(Req())
      ensures Rsp() == if requestMode then old(Rsp()) else UpdateKey(crypto, version, old(Rsp()))
    {
      if requestMode {
        secretReq, keyReq, saltReq := DeriveNext(crypto, version, secretReq);
        sequenceReq, epochReq := 0, epochReq + 1;
      } else {
        secretRsp, keyRsp, saltRsp := DeriveNext(crypto, version, secretRsp);
        sequenceRsp, epochRsp := 0, epochRsp + 1;
      }
    }

    /** Takes the key, the IV and the counter for the next message of a direction, and
        moves the direction on, re-keying it at the limit. */
    method NextMessage(requestMode: bool) returns (key: seq<byte>, iv: seq<byte>, counter: nat)
      requires valid && Abstract().Valid()
      modifies this
      ensures valid && isRequester == old(isRequester) && id == old(id) && version == old(version)
              && encrypts == old(encrypts)
      ensures var d := if requestMode then old(Req()) else old(Rsp());
              key == d.key && iv == Iv(d.salt, d.sequence) && counter == d.sequence
      ensures Req() == if requestMode then Advance(crypto, version, old(Req())) else old(Req())
      ensures Rsp() == if requestMode then old(Rsp()) else Advance(crypto, version, old(Rsp()))
    {
      if requestMode {
        key, iv, counter := keyReq, Iv(saltReq, sequenceReq), sequenceReq;
        sequenceReq := sequenceReq + 1;
        if sequenceReq >= MAX_SESSION_REKEY_COUNT {
          UpdateSessionKey(true);
        }
      } else {
        key, iv, counter := keyRsp, Iv(saltRsp, sequenceRsp), sequenceRsp;
        sequenceRsp := sequenceRsp + 1;
        if sequenceRsp >= MAX_SESSION_REKEY_COUNT {
          UpdateSessionKey(false);
        }
      }
    }

    /** The plaintext of a message: its length, content and random padding. */
    method BuildPlaintext(content: Content, random: Random) returns (plain: array<byte>)
      requires ContentOk(content)
      ensures fresh(plain) && plain[..] == Plaintext(content, Padding(encrypts, random))
    {
      var length := 2 + |content.body|;
      if content.Control? {
        length := length + 1 + SPDM_HEADER_SIZE;
      }
      var padding := Padding(encrypts, random);
      plain := new byte[length + |padding|];
      WritePlaintext(plain, LittleEndian(length - 2, 2), content, padding);
    }

    /** `encrypt_secure_content`. */
    method EncryptSecureContent(content: Content, random: Random, buffer: array<byte>) returns (ok: bool, length: nat)
      requires Abstract().Valid() && ContentOk(content)
      requires 1 + HEADER_SIZE + |Plaintext(content, Padding(encrypts, random))| + TAG_SIZE <= buffer.Length
      modifies this, buffer
      ensures var (s', wire) := Encrypt(crypto, old(Abstract()), content, random);
              && Abstract() == s' && (ok <==> wire.Some?)
              && (ok ==> length == |wire.value| && buffer[..length] == wire.value)
    {
      ok, length := false, 0;
      if !valid {
        return;
      }
      var plain := BuildPlaintext(content, random);
      ghost var d := Abstract().Outgoing();
      var key, iv, counter := NextMessage(isRequester);
      length := WriteMessage(crypto, id, key, iv, counter, plain, buffer);
      assert buffer[..length] == Wire(crypto, id, d, plain[..]);
      ok := true;
      if content.Control? && content.header[1] == SPDM_RSP_END_SESSION_ACK {
        valid := false;
      }
    }

    /** The verdict on a message and the session after it. */
    method OpenMessage(wire: seq<byte>) returns (out: Outcome)
      requires Abstract().Valid()
      modifies this
      ensures (Abstract(), out) == Decrypt(crypto, old(Abstract()), wire)
    {
      if |wire| == 0 {
        return Overrun;
      }
      if wire[0] % 128 != SECURED_MESSAGE {
        return Rejected;
      }
      if |wire| < 5 {
        return Overrun;
      }
      if !valid || wire[1..5] != id {
        return Rejected;
      }
      var key, iv, _ := NextMessage(!isRequester);
      if |wire| < 9 || 9 + TextLength(wire) + TAG_SIZE > |wire| {
        return Overrun;
      }
      var plain := Opened(crypto, key, iv, wire);
      if plain.None? {
        return Rejected;
      }
      out := Unpack(plain.value, |wire|);
    }

    /** `decrypt_secure_content`: an accepted content replaces the message in the buffer. */
    method DecryptSecureContent(buffer: array<byte>, length: nat) returns (out: Outcome)
      requires Abstract().Valid() && length <= buffer.Length
      modifies this, buffer
      ensures (Abstract(), out) == Decrypt(crypto, old(Abstract()), old(buffer[..length]))
      ensures out.Accepted? ==> |out.content| <= length && buffer[..|out.content|] == out.content
    {
      ghost var s := Abstract();
      var wire := buffer[..length];
      out := OpenMessage(wire);
      if out.Accepted? {
        AcceptedIsShorter(crypto, s, wire);
        CopyInto(buffer, 0, out.content);
      }
    }
  }

  lemma AcceptedIsShorter(c: Crypto, s: Session, wire: seq<byte>)
    requires s.Valid() && Decrypt(c, s, wire).1.Accepted?
    ensures |Decrypt(c, s, wire).1.content| <= |wire|
  {
  }
}
