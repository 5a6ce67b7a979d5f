/** Key manifests byte by byte: where an image's fields are, and what a slot holds once an
    image was appended. */
module ManifestLayout {
  import opened Bits
  import opened Bytes
  import opened Options
  import opened ProvisionUfm
  import opened KeyCancellation
  import opened KeyManifests

  lemma FourByteField(s: seq<byte>, at: nat)
    requires at + 4 <= |s|
    ensures var a: int, b: int, c: int, d: int := s[at], s[at + 1], s[at + 2], s[at + 3];
            Field(s, at, 4) == a + 256 * b + 0x1_0000 * c + 0x100_0000 * d
  {
    var t := s[at..at + 4];
    assert FromLittleEndian(t) == s[at] + 256 * FromLittleEndian(t[1..]);
    assert FromLittleEndian(t[1..]) == s[at + 1] + 256 * FromLittleEndian(t[2..]) by { assert t[1..][1..] == t[2..]; }
    assert t[2..] == s[at + 2..at + 4];
    TwoByteField(s, at + 2);
  }

  /** Four bytes that make up a number, in the order in which they are stored. */
  lemma FieldIs(s: seq<byte>, at: nat, a: byte, b: byte, c: byte, d: byte)
    requires at + 4 <= |s|
    ensures var w: int, x: int, y: int, z: int := a, b, c, d;
            Field(s, at, 4) == w + 256 * x + 0x1_0000 * y + 0x100_0000 * z <==> s[at..at + 4] == [a, b, c, d]
  {
    FourByteField(s, at);
    var w: int, x: int, y: int, z: int := s[at], s[at + 1], s[at + 2], s[at + 3];
    LowAndHigh(w, a, x + 256 * y + 0x1_0000 * z, b + 256 * c + 0x1_0000 * d);
    LowAndHigh(x, b, y + 256 * z, c + 256 * d);
    LowAndHigh(y, c, z, d);
    assert s[at..at + 4] == [s[at], s[at + 1], s[at + 2], s[at + 3]];
  }

  lemma LowAndHigh(low: int, low': int, high: int, high': int)
    requires 0 <= low < 256 && 0 <= low' < 256
    ensures low + 256 * high == low' + 256 * high' <==> low == low' && high == high'
  {
  }

  lemma TwoBytesAre(s: seq<byte>, at: nat)
    requires at + 2 <= |s|
    ensures Field(s, at, 2) == SECTION_SIZE <==> s[at..at + 2] == [16, 0]
  {
    TwoByteField(s, at);
    assert s[at..at + 2] == [s[at], s[at + 1]];
  }

  lemma SectionBytes(s: seq<byte>, at: nat)
    requires at + SECTION_SIZE <= |s|
    ensures SectionOk(s, at) <==>
              s[at..at + 2] == [0x10, 0x00] && s[at + 4..at + 8] == [0xD7, 0x28, 0x7F, 0xF2]
              && s[at + 12..at + 16] == [0x06, 0x02, 0x00, 0x00]
  {
    TwoBytesAre(s, at);
    FieldIs(s, at + 4, 0xD7, 0x28, 0x7F, 0xF2);
    FieldIs(s, at + 12, 0x06, 0x02, 0x00, 0x00);
  }

  /** A manifest is found in an image exactly when, after the header of the length given in its
      first two bytes, the section of 16 bytes and the manifest of 518 have their lengths and
      magic numbers; its fields are the hash type, the number of keys and eight hashes. */
  lemma ManifestFields(s: seq<byte>, at: nat, i: nat)
    requires at + 48 <= |s| && i < 8
    ensures var low: int, high: int := s[at], s[at + 1]; var section := at + low + 256 * high; var body := section + 16;
            var m := ManifestIn(s, at);
            && (m.Some? <==>
                  body + 518 <= |s|
                  && s[section..section + 2] == [0x10, 0x00] && s[section + 4..section + 8] == [0xD7, 0x28, 0x7F, 0xF2]
                  && s[section + 12..section + 16] == [0x06, 0x02, 0x00, 0x00]
                  && s[body..body + 4] == [0x6D, 0x79, 0x65, 0x6B])
            && (m.Some? ==>
                  m.value.hashType == s[body + 4] && m.value.keyCount == s[body + 5] && |m.value.hashes| == 8
                  && m.value.hashes[i] == s[body + 6 + 64 * i..body + 70 + 64 * i])
  {
    TwoByteField(s, at);
    var section := at + HeaderLength(s, at);
    if section + 534 <= |s| {
      SectionBytes(s, section);
      FieldIs(s, section + 16, 0x6D, 0x79, 0x65, 0x6B);
    }
  }

  /** The length that is written: what the image says in its bytes 40 to 43, and 520 bytes of
      a public key, in 32 bits. */
  lemma LengthIs(image: seq<byte>)
    requires |image| == 2048
    ensures var a: int, b: int, c: int, d: int := image[40], image[41], image[42], image[43];
            AppendLength(image) == (a + 256 * b + 0x1_0000 * c + 0x100_0000 * d + 520) % 0x1_0000_0000
  {
    FourByteField(image, 40);
  }

  /** When an append succeeds: the image fits and holds a manifest, there is a free slot, and
      every flash operation that is needed succeeds. */
  lemma AppendSucceeds(f: Partition, image: seq<byte>, io: AppendIo, n: nat)
    requires |image| == 2048 && |io.broken| == 4096 && IsPrefix(f, n) && (n < SlotCount(f) ==> io.readable(n))
    ensures Append(f, image, io).1 <==>
              n < SlotCount(f) && AppendLength(image) <= 2048 && ManifestIn(image, 0).Some?
              && io.sourceOk && io.eraseOk && io.writeOk && (n % 2 == 1 ==> io.readPageOk && io.rewriteOk)
  {
    if n < SlotCount(f) {
      NextIsFree(f, io.readable, n);
    } else {
      NoneIsFree(f, io.readable, n);
    }
  }

  /** Then the first free slot has the image's bytes, and is erased from there on. */
  lemma AppendedSlot(f: Partition, image: seq<byte>, io: AppendIo, n: nat, b: nat)
    requires |image| == 2048 && |io.broken| == 4096 && IsPrefix(f, n) && io.readable(n) && b < 2048
    requires Append(f, image, io).1
    ensures var f' := Append(f, image, io).0;
            |f'| == |f| && n * 2048 + 2048 <= |f|
            && f'[n * 2048 + b] == if b < AppendLength(image) then image[b] else 0xFF
  {
    AppendIsRewrite(f, image, io, n);
    WrittenSlot(f, n, image[..AppendLength(image)], b);
  }

  lemma WrittenSlot(f: Partition, n: nat, data: seq<byte>, b: nat)
    requires n < SlotCount(f) && |data| <= 2048 && b < 2048
    ensures n * 2048 + 2048 <= |f| && Rewritten(f, n, data)[n * 2048 + b] == if b < |data| then data[b] else 0xFF
  {
    SlotInPage(f, n);
    SlotsAfterRewrite(f, n, data, n);
    SlotByte(Rewritten(f, n, data), n, b);
    PaddedByte(data, 2048, b);
  }

  lemma SlotByte(f: Partition, k: nat, b: nat)
    requires k < SlotCount(f) && b < 2048
    ensures k * 2048 + 2048 <= |f| && Slot(f, k)[b] == f[k * 2048 + b]
  {
    SlotInPage(f, k);
  }

  lemma PaddedByte(data: seq<byte>, n: nat, b: nat)
    requires |data| <= n && b < n
    ensures (data + Erased(n - |data|))[b] == if b < |data| then data[b] else 0xFF
  {
  }

  lemma NextIsFree(f: Partition, readable: nat -> bool, n: nat)
    requires IsPrefix(f, n) && n < SlotCount(f) && readable(n)
    ensures AppendSlot(f, readable, 0) == Some(n)
  {
    assert !Occupied(f, n);
    FreeIsFound(f, readable, 0, n);
    FirstFreeIs(f, readable, n);
  }

  lemma {:induction false} FreeIsFound(f: Partition, readable: nat -> bool, k: nat, n: nat)
    requires k <= n < SlotCount(f) && readable(n) && !Occupied(f, n)
    ensures AppendSlot(f, readable, k).Some?
    decreases n - k
  {
    if k < n {
      FreeIsFound(f, readable, k + 1, n);
    }
  }

  lemma NoneIsFree(f: Partition, readable: nat -> bool, n: nat)
    requires IsPrefix(f, n) && n == SlotCount(f)
    ensures AppendSlot(f, readable, 0).None?
  {
    assert forall k :: 0 <= k < SlotCount(f) ==> Occupied(f, k);
  }

  // ----- finding and matching keys

  /** The bytes of a hash that count: 32 for type 1, 48 for type 2. */
  predicate SameHash(hashType: nat, a: seq<byte>, b: seq<byte>)
    requires |a| == |b| == 64
  {
    (hashType == 1 || hashType == 2) && forall j :: 0 <= j < (if hashType == 1 then 32 else 48) ==> a[j] == b[j]
  }

  lemma SamePrefix(hashType: nat, a: seq<byte>, b: seq<byte>)
    requires |a| == |b| == 64 && HashLength(hashType) > 0
    ensures a[..HashLength(hashType)] == b[..HashLength(hashType)] <==> SameHash(hashType, a, b)
  {
    var n := HashLength(hashType);
    assert n == if hashType == 1 then 32 else 48;
    if a[..n] == b[..n] {
      assert forall j :: 0 <= j < n ==> a[j] == a[..n][j] && b[j] == b[..n][j];
    }
  }

  /** Key `i` of a manifest is the one looked for, under a known hash type. */
  predicate HoldsKey(m: KeyManifest, csk: Digests, i: nat)
    requires ManifestOk(m)
  {
    i < 8 && i < m.keyCount && SameHash(m.hashType, m.hashes[i], csk(m.hashType))
  }

  lemma KeyIsFound(m: KeyManifest, csk: Digests, i: nat)
    requires ManifestOk(m) && HashLength(m.hashType) > 0
    ensures FindKeyId(m, csk, 0) == Some(i) <==>
              HoldsKey(m, csk, i) && forall j :: 0 <= j < i ==> !HoldsKey(m, csk, j)
    ensures FindKeyId(m, csk, 0).None? <==> forall j: nat :: !HoldsKey(m, csk, j)
  {
    var r := FindKeyId(m, csk, 0);
    forall j: nat ensures HoldsKey(m, csk, j) <==> j <= MAX_KEY_ID && j < m.keyCount && KeyAt(m, csk, j) {
      if j <= MAX_KEY_ID {
        SamePrefix(m.hashType, m.hashes[j], csk(m.hashType));
      }
    }
    if r.Some? {
      assert HoldsKey(m, csk, r.value);
    }
  }

  /** A slot whose headers and manifest can be read has the key. */
  predicate HasKey(f: Partition, csk: Digests, readable: nat -> bool, k: nat, i: nat)
    requires k < SlotCount(f)
  {
    SlotManifestOk(f, k);
    readable(k) && SlotManifest(f, k).Some? && HoldsKey(SlotManifest(f, k).value, csk, i)
  }

  ghost predicate LacksKey(f: Partition, csk: Digests, readable: nat -> bool, k: nat)
    requires k < SlotCount(f)
  {
    forall j: nat :: !HasKey(f, csk, readable, k, j)
  }

  /** Key `i` is the first one of the slot that is the key looked for. */
  ghost predicate HasFirst(f: Partition, csk: Digests, readable: nat -> bool, k: nat, i: nat)
    requires k < SlotCount(f)
  {
    HasKey(f, csk, readable, k, i) && forall j :: 0 <= j < i ==> !HasKey(f, csk, readable, k, j)
  }

  lemma FoundInSlot(f: Partition, csk: Digests, readable: nat -> bool, k: nat, i: nat)
    requires k < SlotCount(f)
    ensures FindInSlot(f, csk, readable, k) == Some(i) <==> HasFirst(f, csk, readable, k, i)
    ensures FindInSlot(f, csk, readable, k).None? <==> LacksKey(f, csk, readable, k)
  {
    SlotManifestOk(f, k);
    var m := SlotManifest(f, k);
    if readable(k) && m.Some? {
      if HashLength(m.value.hashType) > 0 {
        KeyIsFound(m.value, csk, i);
      }
      assert forall j: nat :: HasKey(f, csk, readable, k, j) <==> HoldsKey(m.value, csk, j);
    }
  }

  /** The search, exactly: it finds key `i` in slot `k` when that slot has it and neither an
      earlier key of the slot nor an earlier slot does. */
  lemma FoundExactly(f: Partition, csk: Digests, readable: nat -> bool, k: nat, i: nat)
    ensures Find(f, csk, readable) == Some((k, i)) <==>
              k < SlotCount(f) && HasFirst(f, csk, readable, k, i)
              && forall x :: 0 <= x < k ==> LacksKey(f, csk, readable, x)
  {
    var found := SlotResults(f, csk, readable);
    forall x | 0 <= x < |found| ensures found[x].None? <==> LacksKey(f, csk, readable, x) {
      FoundInSlot(f, csk, readable, x, 0);
    }
    FirstFoundIs(found, k, i);
    if k < SlotCount(f) {
      FoundInSlot(f, csk, readable, k, i);
    }
  }

  lemma FirstFoundIs(found: seq<Option<nat>>, k: nat, i: nat)
    ensures FirstFound(found, 0) == Some((k, i)) <==>
              k < |found| && found[k] == Some(i) && forall x :: 0 <= x < k ==> found[x].None?
  {
  }

  /** A listed key matches a slot when the cancellation can read the slot's manifest and the
      key with the listed id there has the listed hash, under the listed hash type. The key
      count of the manifest is not looked at. */
  lemma MatchesExactly(f: Partition, seen: nat -> bool, kc: KcManifest, n: nat, k: nat)
    requires KcManifestOk(kc) && n < |kc.keys| && k < SlotCount(f)
    ensures Matches(CancelSlots(f, seen), k, kc, n) <==>
              seen(k) && SlotManifest(f, k).Some? && kc.keys[n].id <= 7
              && SlotManifest(f, k).value.hashType == kc.hashType
              && ManifestOk(SlotManifest(f, k).value)
              && SameHash(kc.hashType, SlotManifest(f, k).value.hashes[kc.keys[n].id], kc.keys[n].hash)
  {
    SlotManifestOk(f, k);
    var m := SlotManifest(f, k);
    if m.Some? && kc.keys[n].id <= MAX_KEY_ID {
      assert kc.keys[n] in kc.keys;
      SamePrefix(kc.hashType, m.value.hashes[kc.keys[n].id], kc.keys[n].hash);
    }
  }
}
