/** A key manifest store, in good order, in which the cancellation of a key misses it: an
    earlier manifest has the key's hash beyond the keys it counts. */
module StaleHashes {
  import opened Bits
  import opened Bytes
  import opened Options
  import opened ProvisionUfm
  import opened KeyCancellation
  import opened KeyManifests

  const BODY_OFFSET := HEADER_SIZE + SECTION_SIZE
  const REST_SIZE := KEY_MANIFEST_SIZE - BODY_OFFSET - 6

  function ImageHeader(): (s: seq<byte>)
    ensures |s| == HEADER_SIZE
  {
    LittleEndian(HEADER_SIZE, 2) + LittleEndian(UPDATE_FORMAT_TYPE_KEYM, 2)
      + LittleEndian(KEY_MANAGEMENT_HEADER_MAGIC, 4)
    + Zeros(32) + LittleEndian(BODY_OFFSET + MANIFEST_SIZE, 4) + Zeros(4)
  }

  function ImageSection(): (s: seq<byte>)
    ensures |s| == SECTION_SIZE
  {
    LittleEndian(SECTION_SIZE, 2) + Zeros(2) + LittleEndian(KEY_MANAGEMENT_SECTION_MAGIC, 4) + Zeros(4)
    + LittleEndian(MANIFEST_SIZE, 4)
  }

  /** A key manifest image that counts `keyCount` keys; all its hashes are zero. */
  function ManifestImage(keyCount: byte): (s: seq<byte>)
    ensures |s| == KEY_MANIFEST_SIZE
  {
    ImageHeader() + ImageSection() + LittleEndian(KEY_MANIFEST_SECTION_MAGIC, 4) + [HASH_TYPE_SHA256, keyCount]
      + Zeros(REST_SIZE)
  }

  function Manifest(keyCount: byte): (m: KeyManifest)
    ensures ManifestOk(m)
  {
    KeyManifest(HASH_TYPE_SHA256, keyCount, seq(MAX_KEY_ID + 1, _ => Zeros(KEY_HASH_SIZE)))
  }

  lemma FieldReads(s: seq<byte>, at: nat, v: nat, n: nat)
    requires at + n <= |s| && s[at..at + n] == LittleEndian(v, n) && v < Pow256(n)
    ensures Field(s, at, n) == v
  {
    LittleEndianRoundTrip(v, n);
  }

  lemma Widths()
    ensures Pow256(2) == 0x1_0000 && Pow256(4) == 0x1_0000_0000
  {
    assert Pow256(2) == 0x1_0000;
  }

  lemma HeaderFields(s: seq<byte>)
    requires |s| >= HEADER_SIZE && s[..HEADER_SIZE] == ImageHeader()
    ensures HeaderLength(s, 0) == HEADER_SIZE && IsKeyManifest(s)
  {
    var h := ImageHeader();
    Widths();
    assert s[0..2] == h[0..2] && s[2..4] == h[2..4] && s[4..8] == h[4..8];
    FieldReads(s, 0, HEADER_SIZE, 2);
    FieldReads(s, 2, UPDATE_FORMAT_TYPE_KEYM, 2);
    FieldReads(s, 4, KEY_MANAGEMENT_HEADER_MAGIC, 4);
  }

  lemma SectionFields(s: seq<byte>)
    requires |s| >= BODY_OFFSET && s[HEADER_SIZE..BODY_OFFSET] == ImageSection()
    ensures SectionOk(s, HEADER_SIZE)
  {
    var t := ImageSection();
    Widths();
    assert s[48..50] == t[0..2] && s[52..56] == t[4..8] && s[60..64] == t[12..16];
    FieldReads(s, 48, SECTION_SIZE, 2);
    FieldReads(s, 52, KEY_MANAGEMENT_SECTION_MAGIC, 4);
    FieldReads(s, 60, MANIFEST_SIZE, 4);
  }

  lemma BodyFields(s: seq<byte>, keyCount: byte)
    requires |s| == KEY_MANIFEST_SIZE
    requires s[BODY_OFFSET..] == LittleEndian(KEY_MANIFEST_SECTION_MAGIC, 4) + [HASH_TYPE_SHA256, keyCount]
             + Zeros(REST_SIZE)
    ensures Field(s, BODY_OFFSET, 4) == KEY_MANIFEST_SECTION_MAGIC
    ensures s[BODY_OFFSET + 4] == HASH_TYPE_SHA256 && s[BODY_OFFSET + 5] == keyCount
    ensures HashList(s, BODY_OFFSET + 6) == Manifest(keyCount).hashes
  {
    var t := s[BODY_OFFSET..];
    Widths();
    assert s[64..68] == t[0..4];
    FieldReads(s, 64, KEY_MANIFEST_SECTION_MAGIC, 4);
    assert s[68] == t[4] && s[69] == t[5];
    forall i | 70 <= i < KEY_MANIFEST_SIZE ensures s[i] == 0 {
      assert s[i] == t[i - 64];
    }
    var (a, b) := (HashList(s, BODY_OFFSET + 6), Manifest(keyCount).hashes);
    forall i | 0 <= i <= MAX_KEY_ID ensures a[i] == b[i] {
      assert a[i] == Zeros(KEY_HASH_SIZE);
    }
  }

  lemma ImageHoldsManifest(keyCount: byte)
    ensures HeaderLength(ManifestImage(keyCount), 0) == HEADER_SIZE && IsKeyManifest(ManifestImage(keyCount))
    ensures ManifestIn(ManifestImage(keyCount), 0) == Some(Manifest(keyCount))
  {
    var s := ManifestImage(keyCount);
    assert s[..HEADER_SIZE] == ImageHeader() && s[HEADER_SIZE..BODY_OFFSET] == ImageSection();
    HeaderFields(s);
    SectionFields(s);
    BodyFields(s, keyCount);
  }

  lemma SlotHoldsManifest(f: Partition, k: nat, keyCount: byte)
    requires k < SlotCount(f) && Slot(f, k) == ManifestImage(keyCount)
    ensures Occupied(f, k) && WithinSlot(f, k) && SlotManifest(f, k) == Some(Manifest(keyCount))
  {
    ImageHoldsManifest(keyCount);
    ManifestOfSlot(f, k);
  }

  /** Two manifests with the same hash: the first counts no key, the second one. */
  function StaleStore(): Partition {
    ManifestImage(0) + ManifestImage(1)
  }

  lemma TwoSlots(f: Partition, a: seq<byte>, b: seq<byte>)
    requires f == a + b && |a| == |b| == KEY_MANIFEST_SIZE
    ensures SlotCount(f) == 2 && Slot(f, 0) == a && Slot(f, 1) == b
  {
  }

  lemma StaleSlots(f: Partition)
    requires f == StaleStore()
    ensures SlotCount(f) == 2 && StoreOk(f, 2)
    ensures SlotManifest(f, 0) == Some(Manifest(0)) && SlotManifest(f, 1) == Some(Manifest(1))
  {
    TwoSlots(f, ManifestImage(0), ManifestImage(1));
    SlotHoldsManifest(f, 0, 0);
    SlotHoldsManifest(f, 1, 1);
    TwoOccupied(f);
  }

  lemma TwoOccupied(f: Partition)
    requires SlotCount(f) == 2 && Occupied(f, 0) && Occupied(f, 1) && WithinSlot(f, 0) && WithinSlot(f, 1)
    ensures StoreOk(f, 2)
  {
  }

  /** The search passes over the slot that does not count the key. */
  lemma StaleSlotIsPassed(f: Partition, csk: Digests, all: nat -> bool)
    requires SlotCount(f) == 2 && SlotManifest(f, 0) == Some(Manifest(0)) && SlotManifest(f, 1) == Some(Manifest(1))
    requires csk(HASH_TYPE_SHA256) == Zeros(KEY_HASH_SIZE) && all(0) && all(1)
    ensures Find(f, csk, all) == Some((1, 0))
  {
    assert FindInSlot(f, csk, all, 0) == None;
    assert FindInSlot(f, csk, all, 1) == Some(0) by {
      assert KeyAt(Manifest(1), csk, 0);
    }
    var rs := SlotResults(f, csk, all);
    assert rs[0] == None && rs[1] == Some(0);
    assert FirstFound(rs, 0) == FirstFound(rs, 1);
  }

  function KeyZero(): (kc: KcManifest)
    ensures KcManifestOk(kc)
  {
    KcManifest(BMC_PFM_CANCELLATION, HASH_TYPE_SHA256, [ListedKey(0, Zeros(KEY_HASH_SIZE))])
  }

  /** In this store the key is found in slot 1, its cancellation succeeds, and it is still
      accepted there: the stale hash in slot 0 took the cancellation. */
  lemma StaleHashTakesCancellation(u: Ufm, csk: Digests, all: nat -> bool, works: Ios)
    requires csk(HASH_TYPE_SHA256) == Zeros(KEY_HASH_SIZE) && all(0) && all(1)
    requires FlashWorks(works, CancelSlots(StaleStore(), all), KeyZero())
    requires VerifyCskKeyId(u, PFR_BMC_PFM, 1, 0, true)
    ensures var f := StaleStore();
            var (u', ok) := CancelCskKeys(u, PFR_BMC_PFM, KeyZero(), CancelSlots(f, all), works);
            && StoreOk(f, 2) && Find(f, csk, all) == Some((1, 0)) && SlotManifest(f, 1).Some?
            && Lists(KeyZero(), 0, SlotManifest(f, 1).value, 0, csk)
            && ok && VerifyCskKeyId(u', PFR_BMC_PFM, 1, 0, true)
  {
    var f, kc := StaleStore(), KeyZero();
    StaleSlots(f);
    StaleSlotIsPassed(f, csk, all);
    assert Matches(CancelSlots(f, all), 0, kc, 0);
    EarlierMatchTakesCancellation(f, u, csk, all, all, PFR_BMC_PFM, kc, works, 1, 0, true, 0);
  }
}
