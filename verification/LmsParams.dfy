/** Parameter sets and buffer layout of the LMS code (lms.h, lmots.h), and its
    return codes. Type identifiers are the 32-bit values of the C enums, so an
    unsupported identifier is a value like any other: its lengths are all 0. */
module LmsParams {
  import opened Bytes

  const LMOTS_N32_W8 := 4
  const LMOTS_N24_W8 := 8
  const LMS_M32_H10 := 6
  const LMS_M24_H5 := 10

  const N_HASH_LEN_MAX := 32
  const P_SIG_DIGIT_COUNT_MAX := 34
  const M_NODE_BYTES_MAX := 32
  const I_KEY_ID_LEN := 16
  const Q_LEAF_ID_LEN := 4
  const TYPE_LEN := 4
  const DIGIT_MAX_VALUE := 255

  function NHashLen(otsType: nat): (n: nat)
    ensures n <= N_HASH_LEN_MAX
  {
    if otsType == LMOTS_N32_W8 then 32 else if otsType == LMOTS_N24_W8 then 24 else 0
  }

  function SigDigitCount(otsType: nat): (p: nat)
    ensures p <= P_SIG_DIGIT_COUNT_MAX
    ensures ValidOtsType(otsType) ==> p == NHashLen(otsType) + 2
  {
    if otsType == LMOTS_N32_W8 then 34 else if otsType == LMOTS_N24_W8 then 26 else 0
  }

  function HTreeHeight(lmsType: nat): nat {
    if lmsType == LMS_M32_H10 then 10 else if lmsType == LMS_M24_H5 then 5 else 0
  }

  function MNodeBytes(lmsType: nat): (m: nat)
    ensures m <= M_NODE_BYTES_MAX
  {
    if lmsType == LMS_M32_H10 then 32 else if lmsType == LMS_M24_H5 then 24 else 0
  }

  predicate ValidOtsType(t: nat) {
    t == LMOTS_N32_W8 || t == LMOTS_N24_W8
  }

  predicate ValidLmsType(t: nat) {
    t == LMS_M32_H10 || t == LMS_M24_H5
  }

  function OtsSigLen(otsType: nat): nat {
    TYPE_LEN + NHashLen(otsType) + SigDigitCount(otsType) * NHashLen(otsType)
  }

  function OtsPublicKeyLen(otsType: nat): nat {
    TYPE_LEN + I_KEY_ID_LEN + Q_LEAF_ID_LEN + NHashLen(otsType)
  }

  function LmsSigLen(lmsType: nat, otsType: nat): nat {
    Q_LEAF_ID_LEN + OtsSigLen(otsType) + TYPE_LEN + HTreeHeight(lmsType) * MNodeBytes(lmsType)
  }

  function LmsPublicKeyLen(lmsType: nat): nat {
    TYPE_LEN + TYPE_LEN + I_KEY_ID_LEN + MNodeBytes(lmsType)
  }

  /** Number of leaves, which is also the number of the first leaf node. */
  function LeafCount(lmsType: nat): nat {
    Pow2(HTreeHeight(lmsType))
  }

  /** Return codes; `RngError` carries whatever the caller's RNG returned. */
  datatype Ret =
    | Success
    | BadInputData
    | OutOfPrivateKeys
    | VerifyFailed
    | AllocFailed
    | BufferTooSmall
    | CorruptionDetected
    | FeatureUnsupported
    | HwAccelFailed
    | GenericError
    | RngError(code: int)

  datatype PsaStatus =
    | PsaSuccess
    | PsaBufferTooSmall
    | PsaInvalidArgument
    | PsaNotSupported
    | PsaCorruptionDetected
    | PsaHardwareFailure
    | PsaOther

  /** The LMS error table with its generic fallback (psa_util.c). */
  function PsaToMbedtls(s: PsaStatus): (r: Ret)
    ensures r == Success <==> s == PsaSuccess
  {
    match s
    case PsaSuccess => Success
    case PsaBufferTooSmall => BufferTooSmall
    case PsaInvalidArgument => BadInputData
    case PsaNotSupported => FeatureUnsupported
    case PsaCorruptionDetected => CorruptionDetected
    case PsaHardwareFailure => HwAccelFailed
    case PsaOther => GenericError
  }
}

/** The SHA-256 engine: an arbitrary function to 32-byte strings, computed by an
    engine that may fail on any call unless it is declared reliable. */
module HashEngines {
  import opened Bytes
  import opened LmsParams

  type Digest = s: seq<byte> | |s| == 32 witness Zeros(32)

  type Sha256 = seq<byte> -> Digest

  /** Two different inputs whose hashes agree on the first `n` bytes. */
  predicate Collides(sha: Sha256, n: nat, a: seq<byte>, b: seq<byte>)
    requires n <= 32
  {
    a != b && sha(a)[..n] == sha(b)[..n]
  }

  datatype HashEngine = HashEngine(sha256: Sha256, reliable: bool) {
    /** One session: setup, the updates whose concatenation is `data`, finish. */
    method Run(data: seq<byte>) returns (status: PsaStatus, digest: Digest)
      ensures status == PsaSuccess ==> digest == sha256(data)
      ensures reliable ==> status == PsaSuccess
    {
      digest := sha256(data);
      status := PsaSuccess;
      if !reliable {
        status := *;
      }
    }
  }

  /** The caller's random source: the value it returns and the bytes it delivers. */
  datatype Rng = Rng(status: int, stream: nat -> byte) {
    function Take(n: nat): (bytes: seq<byte>)
      ensures |bytes| == n
    {
      seq<byte>(n, (i: nat) => stream(i))
    }
  }

  /** A message pointer with its size; a null pointer is legal only for size 0. */
  datatype Message = NullMessage(size: nat) | Message(data: seq<byte>) {
    predicate Bad() {
      NullMessage? && size != 0
    }

    function Text(): seq<byte>
    {
      if NullMessage? then [] else data
    }
  }
}
