/** The LM-OTS key contexts: objects whose buffers and flags the code updates. */
module LmotsContexts {
  import opened Bytes
  import opened Options
  import opened LmsParams
  import opened HashEngines
  import opened Lmots

  predicate WellSized(p: OtsParams) {
    |p.keyId| == I_KEY_ID_LEN && |p.leafId| == Q_LEAF_ID_LEN && p.otsType < Pow256(TYPE_LEN)
  }

  const NO_PARAMS := OtsParams(Zeros(I_KEY_ID_LEN), Zeros(Q_LEAF_ID_LEN), 0)

  /** What a private context holds. */
  datatype OtsKey = OtsKey(params: OtsParams, key: seq<byte>, have: bool) {
    predicate Valid() {
      WellSized(params) && |key| == PRIVATE_KEY_BYTES
    }

    /** The key after it has signed: erased, and no longer available. */
    function Spent(): OtsKey {
      this.(key := Zeros(PRIVATE_KEY_BYTES), have := false)
    }
  }

  /** What a public context holds. */
  datatype OtsPublic = OtsPublic(params: OtsParams, key: seq<byte>, have: bool) {
    predicate Valid() {
      WellSized(params) && |key| == N_HASH_LEN_MAX
    }
  }

  /** The key that generation puts into a fresh context. */
  function GeneratedKey(sha: Sha256, p: OtsParams, seed: seq<byte>): OtsKey {
    OtsKey(p, DerivedKey(sha, p, seed, Zeros(PRIVATE_KEY_BYTES), SigDigitCount(p.otsType)), true)
  }

  /** What generation leaves in each byte of a fresh key buffer: derived rows
      start 32 bytes apart and the bytes between them stay 0. Chains are read at
      the hash length's stride instead, so digit `i`'s chain starts from the
      `i`-th derived row for N32 (`ChainStartsAtDerivedRow`), while for N24 it
      starts from 24 bytes that straddle derived rows and the zeros between. */
  lemma {:induction false} GeneratedKeyByte(sha: Sha256, p: OtsParams, seed: seq<byte>, k: nat, b: nat)
    requires k <= P_SIG_DIGIT_COUNT_MAX && b < PRIVATE_KEY_BYTES
    ensures DerivedKey(sha, p, seed, Zeros(PRIVATE_KEY_BYTES), k)[b]
            == if b / 32 < k && b % 32 < NHashLen(p.otsType) then DerivedRow(sha, p, seed, b / 32)[b % 32] else 0
  {
    if k > 0 {
      GeneratedKeyByte(sha, p, seed, k - 1, b);
      var before, at := DerivedKey(sha, p, seed, Zeros(PRIVATE_KEY_BYTES), k - 1), (k - 1) * 32;
      SpliceByte(before, at, DerivedRow(sha, p, seed, k - 1), b);
      assert b / 32 == k - 1 <==> at <= b < at + 32;
    }
  }

  lemma SpliceByte(s: seq<byte>, off: nat, t: seq<byte>, b: nat)
    requires off + |t| <= |s| && b < |s|
    ensures Splice(s, off, t)[b] == if off <= b < off + |t| then t[b - off] else s[b]
  {
  }

  lemma ChainStartsAtDerivedRow(sha: Sha256, p: OtsParams, seed: seq<byte>, i: nat)
    requires p.otsType == LMOTS_N32_W8 && i < SigDigitCount(p.otsType)
    ensures Row(GeneratedKey(sha, p, seed).key, i, 32) == DerivedRow(sha, p, seed, i)
  {
    var key := GeneratedKey(sha, p, seed).key;
    var (row, derived) := (Row(key, i, 32), DerivedRow(sha, p, seed, i));
    forall k | 0 <= k < 32
      ensures row[k] == derived[k]
    {
      GeneratedKeyByte(sha, p, seed, SigDigitCount(p.otsType), i * 32 + k);
    }
  }

  // ----- public key encoding

  const PUB_I_OFFSET := TYPE_LEN
  const PUB_Q_OFFSET := PUB_I_OFFSET + I_KEY_ID_LEN
  const PUB_HASH_OFFSET := PUB_Q_OFFSET + Q_LEAF_ID_LEN

  function EncodeOtsPublic(v: OtsPublic): (bytes: seq<byte>)
    requires v.Valid()
    ensures |bytes| == OtsPublicKeyLen(v.params.otsType)
  {
    ToBE(v.params.otsType, TYPE_LEN) + v.params.keyId + v.params.leafId + v.key[..NHashLen(v.params.otsType)]
  }

  /** The context and return code of an import. The type is stored before the
      length is checked, so a rejected key still changes it. */
  function ImportOtsPublic(v: OtsPublic, key: seq<byte>): (r: (OtsPublic, Ret))
    requires v.Valid()
    ensures r.0.Valid()
  {
    if |key| < TYPE_LEN then (v, BadInputData)
    else
      FromBEBound(key[..TYPE_LEN]);
      var otsType := FromBE(key[..TYPE_LEN]);
      if |key| != OtsPublicKeyLen(otsType) then (v.(params := v.params.(otsType := otsType)), BadInputData)
      else (OtsPublic(OtsParams(key[PUB_I_OFFSET..PUB_Q_OFFSET], key[PUB_Q_OFFSET..PUB_HASH_OFFSET], otsType),
                      Splice(v.key, 0, key[PUB_HASH_OFFSET..]), true),
            Success)
  }

  /** Exporting an imported key gives back the imported bytes, whatever the type. */
  lemma OtsExportAfterImport(v: OtsPublic, key: seq<byte>)
    requires v.Valid() && ImportOtsPublic(v, key).1 == Success
    ensures EncodeOtsPublic(ImportOtsPublic(v, key).0) == key
  {
    var w := ImportOtsPublic(v, key).0;
    DecodeThenEncode(key[..TYPE_LEN]);
    assert w.key[..NHashLen(w.params.otsType)] == key[PUB_HASH_OFFSET..];
    assert key == key[..TYPE_LEN] + key[PUB_I_OFFSET..PUB_Q_OFFSET] + key[PUB_Q_OFFSET..PUB_HASH_OFFSET]
                  + key[PUB_HASH_OFFSET..];
  }

  /** Importing an exported key restores parameters, key hash and flag; the bytes
      past the hash length stay those of the importing context, so the whole
      context is restored exactly when these agree. */
  lemma OtsImportAfterExport(v: OtsPublic, into: OtsPublic)
    requires v.Valid() && v.have && into.Valid()
    ensures var (w, ret) := ImportOtsPublic(into, EncodeOtsPublic(v));
            var n := NHashLen(v.params.otsType);
            ret == Success && w.params == v.params && w.have && w.key[..n] == v.key[..n]
            && (w == v <==> into.key[n..] == v.key[n..])
  {
    var key := EncodeOtsPublic(v);
    var n := NHashLen(v.params.otsType);
    EncodeThenDecode(v.params.otsType, TYPE_LEN);
    assert key[..TYPE_LEN] == ToBE(v.params.otsType, TYPE_LEN);
    assert key[PUB_I_OFFSET..PUB_Q_OFFSET] == v.params.keyId;
    assert key[PUB_Q_OFFSET..PUB_HASH_OFFSET] == v.params.leafId;
    assert key[PUB_HASH_OFFSET..] == v.key[..n];
    var w := ImportOtsPublic(into, key).0;
    assert w.key == v.key[..n] + into.key[n..];
    assert v.key == v.key[..n] + v.key[n..];
    assert w.key[n..] == into.key[n..];
  }

  // ----- verification

  /** What `mbedtls_lmots_verify` returns when the hash engine does not fail. */
  function OtsVerifyResult(sha: Sha256, v: OtsPublic, msg: Message, sig: seq<byte>): Ret
    requires v.Valid()
  {
    if msg.Bad() || !v.have || v.params.otsType != LMOTS_N32_W8 then BadInputData
    else if |sig| < TYPE_LEN || FromBE(sig[..TYPE_LEN]) != LMOTS_N32_W8 then VerifyFailed
    else if |sig| != OtsSigLen(LMOTS_N32_W8) then VerifyFailed
    else if OtsCandidate(sha, v.params, msg.Text(), sig) != v.key then VerifyFailed
    else Success
  }

  /** One-time round trip (sections 4.3, 4.5 and 4.6 of RFC 8554): a signature
      under a key verifies under its public key exactly for N32_W8. */
  lemma OtsSignThenVerify(sha: Sha256, k: OtsKey, v: OtsPublic, msg: Message, c: seq<byte>)
    requires k.Valid() && ValidOtsType(k.params.otsType) && !msg.Bad()
    requires v.Valid() && v.have && v.params == k.params
    requires v.key[..NHashLen(k.params.otsType)] == OtsPublicKey(sha, k.params, k.key)
    requires |c| == NHashLen(k.params.otsType)
    ensures OtsVerifyResult(sha, v, msg, OtsSignature(sha, k.params, k.key, msg.Text(), c)) == Success
            <==> k.params.otsType == LMOTS_N32_W8
  {
    var sig := OtsSignature(sha, k.params, k.key, msg.Text(), c);
    SignatureReproducesPublicKey(sha, k.params, k.key, msg.Text(), c);
    EncodeThenDecode(k.params.otsType, TYPE_LEN);
    assert sig[..TYPE_LEN] == ToBE(k.params.otsType, TYPE_LEN);
    if k.params.otsType == LMOTS_N32_W8 {
      assert v.key[..N_HASH_LEN_MAX] == v.key;
    }
  }

  /** The body of the key generation loop: one row derived from the seed. */
  method DeriveRow(e: HashEngine, p: OtsParams, seed: seq<byte>, i: nat) returns (status: PsaStatus, row: seq<byte>)
    ensures status == PsaSuccess ==> row == DerivedRow(e.sha256, p, seed, i)
    ensures e.reliable ==> status == PsaSuccess
  {
    var temp;
    status, temp := e.Run(p.keyId + p.leafId + ToBE(i, 2) + [0xFF] + seed);
    row := temp[..NHashLen(p.otsType)];
  }

  /** The temporary signature: every chain walked up to its message digit. */
  method HashMessageDigits(e: HashEngine, p: OtsParams, key: seq<byte>, text: seq<byte>, c: seq<byte>)
    returns (ret: Ret, chains: seq<byte>)
    requires |key| == PRIVATE_KEY_BYTES && |c| == NHashLen(p.otsType)
    ensures ret == Success ==>
      ToBE(p.otsType, TYPE_LEN) + c + chains == OtsSignature(e.sha256, p, key, text, c)
    ensures e.reliable && ValidOtsType(p.otsType) ==> ret == Success
  {
    DigitsFit(p.otsType);
    chains := [];
    var n := NHashLen(p.otsType);
    var tmpDigitArray := new byte[P_SIG_DIGIT_COUNT_MAX];
    var tmpSig := new byte[PRIVATE_KEY_BYTES];
    ret := CreateDigitArrayWithChecksum(e, p, text, c, tmpDigitArray);
    if ret != Success {
      return;
    }
    var digits := tmpDigitArray[..n + 2];
    ret := HashDigitArray(e, p, key, None, Some(digits), tmpSig);
    if e.reliable && ValidOtsType(p.otsType) {
      EveryMessageHashes(MessageDigest(e.sha256, p, text, c));
    }
    chains := tmpSig[..SigDigitCount(p.otsType) * n];
  }

  class LmotsPrivate {
    var params: OtsParams
    var privateKey: seq<byte>
    var havePrivateKey: bool

    ghost predicate Valid()
      reads this
    {
      View().Valid()
    }

    ghost function View(): OtsKey
      reads this
    {
      OtsKey(params, privateKey, havePrivateKey)
    }

    /** `mbedtls_lmots_private_init`. */
    constructor ()
      ensures Valid() && View() == OtsKey(NO_PARAMS, Zeros(PRIVATE_KEY_BYTES), false)
    {
      params := NO_PARAMS;
      privateKey := Zeros(PRIVATE_KEY_BYTES);
      havePrivateKey := false;
    }

    /** One pass of the key generation loop: the next row is derived and stored. */
    method StoreDerivedRow(e: HashEngine, p: OtsParams, seed: seq<byte>, i: nat, ghost start: seq<byte>)
      returns (status: PsaStatus)
      requires |start| == PRIVATE_KEY_BYTES && i < SigDigitCount(p.otsType)
      requires privateKey == DerivedKey(e.sha256, p, seed, start, i)
      modifies `privateKey
      ensures status == PsaSuccess ==> privateKey == DerivedKey(e.sha256, p, seed, start, i + 1)
      ensures status != PsaSuccess ==> privateKey == old(privateKey)
      ensures e.reliable ==> status == PsaSuccess
    {
      var row;
      status, row := DeriveRow(e, p, seed, i);
      if status == PsaSuccess {
        privateKey := Splice(privateKey, i * N_HASH_LEN_MAX, row);
      }
    }

    /** The key generation loop. */
    method DeriveRows(e: HashEngine, p: OtsParams, seed: seq<byte>) returns (status: PsaStatus)
      requires |privateKey| == PRIVATE_KEY_BYTES
      modifies `privateKey
      ensures |privateKey| == PRIVATE_KEY_BYTES
      ensures status == PsaSuccess ==>
        privateKey == DerivedKey(e.sha256, p, seed, old(privateKey), SigDigitCount(p.otsType))
      ensures e.reliable ==> status == PsaSuccess
    {
      status := PsaSuccess;
      var i := 0;
      while i < SigDigitCount(p.otsType)
        invariant i <= SigDigitCount(p.otsType) && status == PsaSuccess
        invariant privateKey == DerivedKey(e.sha256, p, seed, old(privateKey), i)
      {
        status := StoreDerivedRow(e, p, seed, i, old(privateKey));
        if status != PsaSuccess {
          return;
        }
        i := i + 1;
      }
    }

    /** `mbedtls_lmots_generate_private_key`. */
    method GeneratePrivateKey(e: HashEngine, otsType: nat, keyId: seq<byte>, leaf: nat, seed: seq<byte>)
      returns (ret: Ret)
      requires Valid() && |keyId| == I_KEY_ID_LEN
      modifies this
      ensures Valid()
      ensures old(havePrivateKey) || !ValidOtsType(otsType) ==> ret == BadInputData && View() == old(View())
      ensures ret == Success ==>
        var p := OtsParams(keyId, ToBE(leaf, Q_LEAF_ID_LEN), otsType);
        View() == OtsKey(p, DerivedKey(e.sha256, p, seed, old(privateKey), SigDigitCount(otsType)), true)
      ensures ret != Success ==> havePrivateKey == old(havePrivateKey)
      ensures e.reliable && !old(havePrivateKey) && ValidOtsType(otsType) ==> ret == Success
    {
      if havePrivateKey {
        return BadInputData;
      }
      if !ValidOtsType(otsType) {
        return BadInputData;
      }
      var p := OtsParams(keyId, ToBE(leaf, Q_LEAF_ID_LEN), otsType);
      WidthOfType(otsType);
      params := p;
      var status := DeriveRows(e, p, seed);
      if status != PsaSuccess {
        return PsaToMbedtls(status);
      }
      havePrivateKey := true;
      ret := Success;
    }

    /** `mbedtls_lmots_sign`: the signature is complete before the key is erased,
        and the key is erased before the signature is released. */
    method Sign(e: HashEngine, rng: Rng, msg: Message, sig: array<byte>, off: nat, sigSize: nat)
      returns (ret: Ret)
      requires Valid() && off + sigSize <= sig.Length
      modifies this, sig
      ensures Valid()
      ensures ret == Success ==>
        old(havePrivateKey) && !msg.Bad() && rng.status == 0 && OtsSigLen(params.otsType) <= sigSize
        && View() == old(View()).Spent()
        && sig[..] == Splice(old(sig[..]), off,
             OtsSignature(e.sha256, params, old(privateKey), msg.Text(), rng.Take(NHashLen(params.otsType))))
      ensures ret != Success ==> View() == old(View()) && sig[..] == old(sig[..])
      ensures msg.Bad() ==> ret == BadInputData
      ensures !msg.Bad() && sigSize < OtsSigLen(old(params.otsType)) ==> ret == BufferTooSmall
      ensures !msg.Bad() && OtsSigLen(old(params.otsType)) <= sigSize ==>
        (!old(havePrivateKey) ==> ret == BadInputData)
        && (old(havePrivateKey) && rng.status != 0 ==> ret == RngError(rng.status))
      ensures e.reliable && ValidOtsType(old(params.otsType)) && !msg.Bad() ==>
        OtsSigLen(old(params.otsType)) <= sigSize && old(havePrivateKey) && rng.status == 0 ==> ret == Success
    {
      if msg.Bad() {
        return BadInputData;
      }
      if sigSize < OtsSigLen(params.otsType) {
        return BufferTooSmall;
      }
      if !havePrivateKey {
        return BadInputData;
      }
      var n := NHashLen(params.otsType);
      var tmpCRandom := rng.Take(n);
      if rng.status != 0 {
        return RngError(rng.status);
      }
      var tmpSig;
      ret, tmpSig := HashMessageDigits(e, params, privateKey, msg.Text(), tmpCRandom);
      if ret != Success {
        return;
      }
      UnsignedIntToNetworkBytes(params.otsType, TYPE_LEN, sig, off);
      havePrivateKey := false;
      privateKey := Zeros(PRIVATE_KEY_BYTES);
      CopyInto(sig, off + TYPE_LEN, tmpCRandom);
      CopyInto(sig, off + TYPE_LEN + n, tmpSig);
      SpliceThrice(old(sig[..]), off, ToBE(params.otsType, TYPE_LEN), tmpCRandom, tmpSig);
    }
  }

  lemma WidthOfType(otsType: nat)
    requires otsType < 256
    ensures otsType < Pow256(TYPE_LEN)
  {
    assert Pow256(4) == 256 * Pow256(3) && Pow256(3) >= 1;
  }

  class LmotsPublic {
    var params: OtsParams
    var publicKey: seq<byte>
    var havePublicKey: bool

    ghost predicate Valid()
      reads this
    {
      View().Valid()
    }

    ghost function View(): OtsPublic
      reads this
    {
      OtsPublic(params, publicKey, havePublicKey)
    }

    /** `mbedtls_lmots_public_init`. */
    constructor ()
      ensures Valid() && View() == OtsPublic(NO_PARAMS, Zeros(N_HASH_LEN_MAX), false)
    {
      params := NO_PARAMS;
      publicKey := Zeros(N_HASH_LEN_MAX);
      havePublicKey := false;
    }

    /** `mbedtls_lmots_import_public_key`. */
    method ImportPublicKey(key: seq<byte>) returns (ret: Ret)
      requires Valid()
      modifies this
      ensures Valid()
      ensures (View(), ret) == ImportOtsPublic(old(View()), key)
    {
      if |key| < TYPE_LEN {
        return BadInputData;
      }
      var otsType := NetworkBytesToUnsignedInt(TYPE_LEN, key);
      params := params.(otsType := otsType);
      if |key| != OtsPublicKeyLen(params.otsType) {
        return BadInputData;
      }
      params := params.(keyId := key[PUB_I_OFFSET..PUB_Q_OFFSET]);
      params := params.(leafId := key[PUB_Q_OFFSET..PUB_HASH_OFFSET]);
      assert key[PUB_HASH_OFFSET..] == key[PUB_HASH_OFFSET..PUB_HASH_OFFSET + NHashLen(params.otsType)];
      publicKey := Splice(publicKey, 0, key[PUB_HASH_OFFSET..PUB_HASH_OFFSET + NHashLen(params.otsType)]);
      havePublicKey := true;
      ret := Success;
    }

    /** `mbedtls_lmots_export_public_key`. */
    method ExportPublicKey(key: array<byte>, keySize: nat) returns (ret: Ret, keyLen: nat)
      requires Valid() && keySize <= key.Length
      modifies key
      ensures ret == if keySize < OtsPublicKeyLen(params.otsType) then BufferTooSmall
                     else if !havePublicKey then BadInputData else Success
      ensures ret == Success ==>
        keyLen == OtsPublicKeyLen(params.otsType) && key[..] == Splice(old(key[..]), 0, EncodeOtsPublic(View()))
      ensures ret != Success ==> key[..] == old(key[..])
    {
      keyLen := 0;
      if keySize < OtsPublicKeyLen(params.otsType) {
        return BufferTooSmall, 0;
      }
      if !havePublicKey {
        return BadInputData, 0;
      }
      var n := NHashLen(params.otsType);
      UnsignedIntToNetworkBytes(params.otsType, TYPE_LEN, key, 0);
      CopyInto(key, PUB_I_OFFSET, params.keyId);
      CopyInto(key, PUB_Q_OFFSET, params.leafId);
      CopyInto(key, PUB_HASH_OFFSET, publicKey[..n]);
      SpliceThrice(old(key[..]), 0, ToBE(params.otsType, TYPE_LEN), params.keyId, params.leafId);
      SpliceTwice(old(key[..]), 0, ToBE(params.otsType, TYPE_LEN) + params.keyId + params.leafId, publicKey[..n]);
      return Success, OtsPublicKeyLen(params.otsType);
    }

    /** `mbedtls_lmots_calculate_public_key`. */
    method CalculatePublicKey(e: HashEngine, priv: LmotsPrivate) returns (ret: Ret)
      requires Valid() && priv.Valid()
      modifies this
      ensures Valid()
      ensures ret == Success ==>
        priv.havePrivateKey
        && View() == OtsPublic(priv.params,
             Splice(old(publicKey), 0, OtsPublicKey(e.sha256, priv.params, priv.privateKey)), true)
      ensures ret != Success ==> View() == old(View())
      ensures e.reliable && priv.havePrivateKey && ValidOtsType(priv.params.otsType) ==> ret == Success
    {
      if !priv.havePrivateKey {
        return BadInputData;
      }
      DigitsFit(priv.params.otsType);
      var n := NHashLen(priv.params.otsType);
      var yHashedDigits := new byte[PRIVATE_KEY_BYTES];
      ret := HashDigitArray(e, priv.params, priv.privateKey, None, None, yHashedDigits);
      if ValidOtsType(priv.params.otsType) {
        assert ChainFrom(None, 0) < ChainTo(None, 0);
      }
      if ret != Success {
        return;
      }
      var key;
      ret, key := PublicKeyFromHashedDigitArray(e, priv.params, yHashedDigits[..]);
      assert yHashedDigits[..][..SigDigitCount(priv.params.otsType) * n]
             == yHashedDigits[..SigDigitCount(priv.params.otsType) * n];
      if ret != Success {
        return;
      }
      publicKey := Splice(publicKey, 0, key);
      params := priv.params;
      havePublicKey := true;
    }

    /** `mbedtls_lmots_verify`. */
    method Verify(e: HashEngine, msg: Message, sig: seq<byte>) returns (ret: Ret)
      requires Valid()
      ensures e.reliable ==> ret == OtsVerifyResult(e.sha256, View(), msg, sig)
      ensures ret == Success ==> OtsVerifyResult(e.sha256, View(), msg, sig) == Success
    {
      if msg.Bad() {
        return BadInputData;
      }
      if !havePublicKey {
        return BadInputData;
      }
      if params.otsType != LMOTS_N32_W8 {
        return BadInputData;
      }
      if |sig| < TYPE_LEN {
        return VerifyFailed;
      }
      var sigType := NetworkBytesToUnsignedInt(TYPE_LEN, sig);
      if sigType != LMOTS_N32_W8 {
        return VerifyFailed;
      }
      var candidate := new byte[N_HASH_LEN_MAX];
      ret := CalculatePublicKeyCandidate(e, params, msg, sig, candidate, NHashLen(params.otsType));
      if ret != Success {
        return VerifyFailed;
      }
      assert candidate[..] == candidate[..NHashLen(params.otsType)];
      if candidate[..] != publicKey {
        return VerifyFailed;
      }
      ret := Success;
    }
  }
}
