/** What the secured channel takes from its cryptographic library: AES-GCM and HKDF as
    uninterpreted functions with the laws the protocol relies on. */
module SpdmCrypto {
  import opened Bits
  import opened Bytes
  import opened Options

  const TAG_SIZE := 16
  const SECRET_SIZE := 48
  const KEY_SIZE := 32
  const SALT_SIZE := 12

  datatype Sealed = Sealed(text: seq<byte>, tag: seq<byte>)

  /** `seal(key, iv, aad, plain)`, `open(key, iv, aad, text, tag)` and
      `expand(secret, info, length)`. */
  datatype Functions = Functions(
    seal: (seq<byte>, seq<byte>, seq<byte>, seq<byte>) -> Sealed,
    open: (seq<byte>, seq<byte>, seq<byte>, seq<byte>, seq<byte>) -> Option<seq<byte>>,
    expand: (seq<byte>, seq<byte>, nat) -> seq<byte>)

  /** Decryption inverts encryption under the same key, IV and header, and lengths are
      the ones asked for. Nothing is said about any other decryption. */
  ghost predicate Lawful(f: Functions) {
    && (forall key, iv, aad, plain :: |f.seal(key, iv, aad, plain).text| == |plain|)
    && (forall key, iv, aad, plain :: |f.seal(key, iv, aad, plain).tag| == TAG_SIZE)
    && (forall key, iv, aad, plain ::
          var s := f.seal(key, iv, aad, plain); f.open(key, iv, aad, s.text, s.tag) == Some(plain))
    && (forall key, iv, aad, text, tag ::
          var r := f.open(key, iv, aad, text, tag); r.Some? ==> |r.value| == |text|)
    && (forall secret, info, n :: |f.expand(secret, info, n)| == n)
  }

  /** The weakest instance: no encryption, a zero tag. */
  const PLAIN := Functions(
    (key, iv, aad, plain) => Sealed(plain, Zeros(TAG_SIZE)),
    (key, iv, aad, text, tag) => Some(text),
    (secret, info, n) => Zeros(n))

  type Crypto = f: Functions | Lawful(f) witness PLAIN

  // ----- initialisation vectors

  /** The first bytes of a salt combined with a sequence number. */
  function XorBytes(a: seq<byte>, b: seq<byte>): (r: seq<byte>)
    requires |a| == |b|
    ensures |r| == |a| && forall i :: 0 <= i < |a| ==> r[i] == Xor(a[i], b[i])
  {
    seq(|a|, i requires 0 <= i < |a| => Xor(a[i], b[i]))
  }

  /** The IV of a message: the salt with the 64-bit sequence number combined into its
      first eight bytes. */
  function Iv(salt: seq<byte>, sequence: nat): (iv: seq<byte>)
    requires |salt| == SALT_SIZE
    ensures |iv| == SALT_SIZE
  {
    XorBytes(salt[..8], LittleEndian(sequence, 8)) + salt[8..]
  }

  /** Under one salt, different sequence numbers give different IVs. */
  lemma IvInjective(salt: seq<byte>, v: nat, w: nat)
    requires |salt| == SALT_SIZE && v < Pow256(8) && w < Pow256(8) && Iv(salt, v) == Iv(salt, w)
    ensures v == w
  {
    var a, b := LittleEndian(v, 8), LittleEndian(w, 8);
    assert Iv(salt, v)[..8] == XorBytes(salt[..8], a) && Iv(salt, w)[..8] == XorBytes(salt[..8], b);
    forall i | 0 <= i < 8 ensures a[i] == b[i] {
      XorCancels(salt[i], a[i]);
      XorCancels(salt[i], b[i]);
      assert XorBytes(salt[..8], a)[i] == Xor(salt[i], a[i]);
      assert XorBytes(salt[..8], b)[i] == Xor(salt[i], b[i]);
    }
    assert a == b;
    LittleEndianInjective(v, w, 8);
  }
}
