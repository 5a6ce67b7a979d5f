/** Key cancellation (cerberus_pfr_key_cancellation.c): one policy byte for each key
    manifest slot, one bit for each key, cleared when the key is cancelled. */
module KeyCancellation {
  import opened Bits
  import opened Bytes
  import opened Options
  import opened ProvisionUfm

  const MAX_KEY_MANIFEST_ID := 15
  const MAX_KEY_ID := 7
  const MAX_CANCEL_KEY := 8
  const HASH_TYPE_SHA256 := 1
  const HASH_TYPE_SHA384 := 2
  const KEY_HASH_SIZE := 64

  const PFR_CPLD_UPDATE_CAPSULE := 0
  const PFR_PCH_PFM := 1
  const PFR_PCH_UPDATE_CAPSULE := 2
  const PFR_BMC_PFM := 3
  const PFR_BMC_UPDATE_CAPSULE := 4
  const CPLD_CAPSULE_CANCELLATION := 0x100
  const PCH_PFM_CANCELLATION := 0x101
  const BMC_PFM_CANCELLATION := 0x103

  const POLICY_FOR_PCH_PFM := 0x0ec
  const POLICY_FOR_BMC_PFM := 0x10c
  const POLICY_FOR_CPLD_CAPSULE := 0x12c

  /** `get_cancellation_policy_offset`; 0 for an unknown type. */
  function PolicyOffset(pcType: nat): nat {
    if pcType == CPLD_CAPSULE_CANCELLATION || pcType == PFR_CPLD_UPDATE_CAPSULE then POLICY_FOR_CPLD_CAPSULE
    else if pcType == PCH_PFM_CANCELLATION || pcType == PFR_PCH_PFM || pcType == PFR_PCH_UPDATE_CAPSULE then
      POLICY_FOR_PCH_PFM
    else if pcType == BMC_PFM_CANCELLATION || pcType == PFR_BMC_PFM || pcType == PFR_BMC_UPDATE_CAPSULE then
      POLICY_FOR_BMC_PFM
    else 0
  }

  /** `check_cancellation_pc_type`. */
  predicate PolicyAllowed(pcType: nat, policy: nat) {
    if pcType == PFR_CPLD_UPDATE_CAPSULE then policy == CPLD_CAPSULE_CANCELLATION
    else if pcType == PFR_BMC_PFM || pcType == PFR_BMC_UPDATE_CAPSULE then policy == BMC_PFM_CANCELLATION
    else if pcType == PFR_PCH_PFM || pcType == PFR_PCH_UPDATE_CAPSULE then policy == PCH_PFM_CANCELLATION
    else false
  }

  predicate ValidId(slot: nat, id: nat) {
    slot <= MAX_KEY_MANIFEST_ID && id <= MAX_KEY_ID
  }

  predicate KnownPolicy(offset: nat) {
    offset == POLICY_FOR_PCH_PFM || offset == POLICY_FOR_BMC_PFM || offset == POLICY_FOR_CPLD_CAPSULE
  }

  /** Whether a key is still valid under a policy. */
  predicate KeyBit(u: Ufm, offset: nat, slot: nat, id: nat)
    requires KnownPolicy(offset) && ValidId(slot, id)
  {
    TestBit(u[offset + slot], id)
  }

  /** `verify_csk_key_id`: whether the key may be used. */
  predicate VerifyCskKeyId(u: Ufm, pcType: nat, slot: nat, id: nat, readOk: bool) {
    PolicyOffset(pcType) != 0 && ValidId(slot, id) && readOk && KeyBit(u, PolicyOffset(pcType), slot, id)
  }

  /** `cancel_csk_key_id`: the contents after it and whether it reports success. */
  function CancelCskKeyId(u: Ufm, pcType: nat, slot: nat, id: nat, readOk: bool, io: Io): (Ufm, bool) {
    var offset := PolicyOffset(pcType);
    if offset == 0 || !ValidId(slot, id) || !readOk then (u, false)
    else UfmWrite(u, offset + slot, [ClearBit(u[offset + slot], id)], io)
  }

  lemma CancelledBit(u: Ufm, pcType: nat, slot: nat, id: nat, readOk: bool, io: Io)
    requires CancelCskKeyId(u, pcType, slot, id, readOk, io).1 && io.writeOk
    ensures var offset := PolicyOffset(pcType); var u' := CancelCskKeyId(u, pcType, slot, id, readOk, io).0;
            && KnownPolicy(offset) && ValidId(slot, id) && !KeyBit(u', offset, slot, id)
            && (forall k :: 0 <= k < |u| && k != offset + slot ==> u'[k] == u[k])
            && (forall b :: 0 <= b <= MAX_KEY_ID && b != id ==>
                  (KeyBit(u', offset, slot, b) <==> KeyBit(u, offset, slot, b)))
  {
    var offset := PolicyOffset(pcType);
    var u' := CancelCskKeyId(u, pcType, slot, id, readOk, io).0;
    WrittenByte(u, offset + slot, ClearBit(u[offset + slot], id));
    forall b | 0 <= b <= MAX_KEY_ID
      ensures KeyBit(u', offset, slot, b) <==> b != id && KeyBit(u, offset, slot, b)
    {
      ClearBitTest(u[offset + slot], id, b);
    }
  }

  lemma WrittenByte(u: Ufm, at: nat, v: byte)
    requires at < PROVISION_UFM_SIZE
    ensures Splice(u, at, [v]) == u[at := v]
  {
  }

  // ----- cancelling listed keys (cerberus_pfr_cancel_csk_keys)

  datatype KeyManifest = KeyManifest(hashType: nat, keyCount: nat, hashes: seq<seq<byte>>)

  predicate ManifestOk(m: KeyManifest) {
    |m.hashes| == MAX_KEY_ID + 1 && forall h :: h in m.hashes ==> |h| == KEY_HASH_SIZE
  }

  datatype ListedKey = ListedKey(id: nat, hash: seq<byte>)

  /** A key cancellation manifest that `cerberus_pfr_get_key_cancellation_manifest` accepts. */
  datatype KcManifest = KcManifest(policy: nat, hashType: nat, keys: seq<ListedKey>)

  function HashLength(hashType: nat): nat {
    if hashType == HASH_TYPE_SHA256 then 32 else if hashType == HASH_TYPE_SHA384 then 48 else 0
  }

  predicate KcManifestOk(kc: KcManifest) {
    && 1 <= |kc.keys| <= MAX_CANCEL_KEY && HashLength(kc.hashType) > 0
    && forall k :: k in kc.keys ==> |k.hash| == KEY_HASH_SIZE
  }

  /** The manifests the loop looks at: None for a slot that is skipped. */
  type Slots = s: seq<Option<KeyManifest>> |
    |s| <= MAX_KEY_MANIFEST_ID + 1 && forall m :: m in s && m.Some? ==> ManifestOk(m.value)

  /** Listed key `i` is in the slot, under the key id it is listed with. */
  predicate Matches(slots: Slots, k: nat, kc: KcManifest, i: nat)
    requires KcManifestOk(kc) && i < |kc.keys| && k < |slots|
  {
    && slots[k].Some? && slots[k].value.hashType == kc.hashType && kc.keys[i].id <= MAX_KEY_ID
    && var n := HashLength(kc.hashType);
       slots[k].value.hashes[kc.keys[i].id][..n] == kc.keys[i].hash[..n]
  }

  /** What the flash does when listed key `i` is cancelled in slot `k`. */
  datatype CancelIo = CancelIo(readOk: bool, io: Io)

  type Ios = (nat, nat) -> CancelIo

  /** `remaining` is the bitmap of listed keys not yet cancelled. */
  datatype Cancelling = Cancelling(u: Ufm, remaining: seq<bool>)

  function CancelOne(s: Cancelling, slots: Slots, k: nat, kc: KcManifest, i: nat, ios: Ios): (s': Cancelling)
    requires KcManifestOk(kc) && i < |kc.keys| == |s.remaining| && k < |slots|
    ensures |s'.remaining| == |s.remaining|
  {
    if !s.remaining[i] || !Matches(slots, k, kc, i) then s
    else
      var (u, ok) := CancelCskKeyId(s.u, kc.policy, k, kc.keys[i].id, ios(k, i).readOk, ios(k, i).io);
      Cancelling(u, if ok then s.remaining[i := false] else s.remaining)
  }

  function CancelInSlot(s: Cancelling, slots: Slots, k: nat, kc: KcManifest, i: nat, ios: Ios): (s': Cancelling)
    requires KcManifestOk(kc) && i <= |kc.keys| == |s.remaining| && k < |slots|
    ensures |s'.remaining| == |s.remaining|
    decreases |kc.keys| - i
  {
    if i == |kc.keys| then s else CancelInSlot(CancelOne(s, slots, k, kc, i, ios), slots, k, kc, i + 1, ios)
  }

  predicate AllDone(remaining: seq<bool>) {
    forall i :: 0 <= i < |remaining| ==> !remaining[i]
  }

  function CancelInSlots(s: Cancelling, slots: Slots, k: nat, kc: KcManifest, ios: Ios): (s': Cancelling)
    requires KcManifestOk(kc) && |s.remaining| == |kc.keys| && k <= |slots|
    ensures |s'.remaining| == |s.remaining|
    decreases |slots| - k
  {
    if k == |slots| || AllDone(s.remaining) then s
    else CancelInSlots(CancelInSlot(s, slots, k, kc, 0, ios), slots, k + 1, kc, ios)
  }

  function CancelStart(u: Ufm, kc: KcManifest): Cancelling {
    Cancelling(u, seq(|kc.keys|, _ => true))
  }

  /** `cerberus_pfr_cancel_csk_keys` once the cancellation manifest is read. */
  function CancelCskKeys(u: Ufm, pcType: nat, kc: KcManifest, slots: Slots, ios: Ios): (Ufm, bool)
    requires KcManifestOk(kc)
  {
    if !PolicyAllowed(pcType, kc.policy) then (u, false)
    else
      var s := CancelInSlots(CancelStart(u, kc), slots, 0, kc, ios);
      (s.u, AllDone(s.remaining))
  }

  // ----- what a cancellation does to the policies

  predicate AllStored(ios: Ios, slots: Slots, kc: KcManifest) {
    forall k, i :: 0 <= k < |slots| && 0 <= i < |kc.keys| ==> ios(k, i).io.writeOk
  }

  /** Listed key `i` has a matching slot whose bit is clear. */
  ghost predicate Cancelled(u: Ufm, slots: Slots, kc: KcManifest, i: nat)
    requires KcManifestOk(kc) && i < |kc.keys| && KnownPolicy(PolicyOffset(kc.policy))
  {
    exists k :: 0 <= k < |slots| && Matches(slots, k, kc, i) && !KeyBit(u, PolicyOffset(kc.policy), k, kc.keys[i].id)
  }

  /** Some listed key matches this slot under this key id. */
  ghost predicate Listed(slots: Slots, k: nat, kc: KcManifest, id: nat)
    requires KcManifestOk(kc)
  {
    k < |slots| && exists i :: 0 <= i < |kc.keys| && kc.keys[i].id == id && Matches(slots, k, kc, i)
  }

  /** From `u` to `u'` only bits of listed keys were cleared, and nothing else changed. */
  ghost predicate OnlyListedCleared(u: Ufm, u': Ufm, slots: Slots, kc: KcManifest)
    requires KcManifestOk(kc) && KnownPolicy(PolicyOffset(kc.policy))
  {
    var offset := PolicyOffset(kc.policy);
    && (forall j :: 0 <= j < |u| && !(offset <= j <= offset + MAX_KEY_MANIFEST_ID) ==> u'[j] == u[j])
    && (forall k, b :: ValidId(k, b) ==> BitKept(u, u', offset, k, b, slots, kc))
  }

  ghost predicate BitKept(u: Ufm, u': Ufm, offset: nat, k: nat, b: nat, slots: Slots, kc: KcManifest)
    requires KcManifestOk(kc) && KnownPolicy(offset) && ValidId(k, b)
  {
    && (KeyBit(u', offset, k, b) ==> KeyBit(u, offset, k, b))
    && (KeyBit(u, offset, k, b) && !KeyBit(u', offset, k, b) ==> Listed(slots, k, kc, b))
  }

  ghost predicate Progress(u: Ufm, s: Cancelling, slots: Slots, kc: KcManifest)
    requires KcManifestOk(kc) && KnownPolicy(PolicyOffset(kc.policy)) && |s.remaining| == |kc.keys|
  {
    OnlyListedCleared(u, s.u, slots, kc) && DoneAreCancelled(s, slots, kc)
  }

  ghost predicate DoneAreCancelled(s: Cancelling, slots: Slots, kc: KcManifest)
    requires KcManifestOk(kc) && KnownPolicy(PolicyOffset(kc.policy)) && |s.remaining| == |kc.keys|
  {
    forall i :: 0 <= i < |kc.keys| && !s.remaining[i] ==> Cancelled(s.u, slots, kc, i)
  }

  lemma CancelOneKeeps(u: Ufm, s: Cancelling, slots: Slots, k: nat, kc: KcManifest, i: nat, ios: Ios)
    requires KcManifestOk(kc) && KnownPolicy(PolicyOffset(kc.policy)) && i < |kc.keys| == |s.remaining| && k < |slots|
    requires AllStored(ios, slots, kc) && Progress(u, s, slots, kc)
    ensures Progress(u, CancelOne(s, slots, k, kc, i, ios), slots, kc)
  {
    var s' := CancelOne(s, slots, k, kc, i, ios);
    var id, readOk, io := kc.keys[i].id, ios(k, i).readOk, ios(k, i).io;
    if s.remaining[i] && Matches(slots, k, kc, i) && CancelCskKeyId(s.u, kc.policy, k, id, readOk, io).1 {
      CancelledBit(s.u, kc.policy, k, id, readOk, io);
      assert Listed(slots, k, kc, id);
      OneBitKeeps(u, s.u, s'.u, slots, k, kc, id);
      forall j | 0 <= j < |kc.keys| && !s'.remaining[j] ensures Cancelled(s'.u, slots, kc, j) {
        if j != i { CancelledStays(s.u, s'.u, slots, k, kc, id, j); }
      }
    }
  }

  /** Clearing one listed bit. */
  lemma OneBitKeeps(u: Ufm, v: Ufm, w: Ufm, slots: Slots, k: nat, kc: KcManifest, id: nat)
    requires KcManifestOk(kc) && KnownPolicy(PolicyOffset(kc.policy)) && ValidId(k, id) && Listed(slots, k, kc, id)
    requires OnlyListedCleared(u, v, slots, kc)
    requires var offset := PolicyOffset(kc.policy);
             && !KeyBit(w, offset, k, id)
             && (forall j :: 0 <= j < |v| && j != offset + k ==> w[j] == v[j])
             && (forall b :: 0 <= b <= MAX_KEY_ID && b != id ==> (KeyBit(w, offset, k, b) <==> KeyBit(v, offset, k, b)))
    ensures OnlyListedCleared(u, w, slots, kc)
  {
    var offset := PolicyOffset(kc.policy);
    forall k', b | ValidId(k', b) ensures BitKept(u, w, offset, k', b, slots, kc) {
      assert BitKept(u, v, offset, k', b, slots, kc);
    }
  }

  lemma CancelledStays(v: Ufm, w: Ufm, slots: Slots, k: nat, kc: KcManifest, id: nat, j: nat)
    requires KcManifestOk(kc) && KnownPolicy(PolicyOffset(kc.policy)) && ValidId(k, id) && j < |kc.keys|
    requires Cancelled(v, slots, kc, j)
    requires var offset := PolicyOffset(kc.policy);
             && !KeyBit(w, offset, k, id)
             && (forall x :: 0 <= x < |v| && x != offset + k ==> w[x] == v[x])
             && (forall b :: 0 <= b <= MAX_KEY_ID && b != id ==> (KeyBit(w, offset, k, b) <==> KeyBit(v, offset, k, b)))
    ensures Cancelled(w, slots, kc, j)
  {
    var offset := PolicyOffset(kc.policy);
    var k' :| 0 <= k' < |slots| && Matches(slots, k', kc, j) && !KeyBit(v, offset, k', kc.keys[j].id);
    assert !KeyBit(w, offset, k', kc.keys[j].id);
  }

  lemma {:induction false} CancelInSlotKeeps(u: Ufm, s: Cancelling, slots: Slots, k: nat, kc: KcManifest, i: nat,
                                             ios: Ios)
    requires KcManifestOk(kc) && KnownPolicy(PolicyOffset(kc.policy)) && i <= |kc.keys| == |s.remaining| && k < |slots|
    requires AllStored(ios, slots, kc) && Progress(u, s, slots, kc)
    ensures Progress(u, CancelInSlot(s, slots, k, kc, i, ios), slots, kc)
    decreases |kc.keys| - i
  {
    if i < |kc.keys| {
      CancelOneKeeps(u, s, slots, k, kc, i, ios);
      CancelInSlotKeeps(u, CancelOne(s, slots, k, kc, i, ios), slots, k, kc, i + 1, ios);
    }
  }

  lemma {:induction false} CancelInSlotsKeeps(u: Ufm, s: Cancelling, slots: Slots, k: nat, kc: KcManifest, ios: Ios)
    requires KcManifestOk(kc) && KnownPolicy(PolicyOffset(kc.policy)) && |s.remaining| == |kc.keys| && k <= |slots|
    requires AllStored(ios, slots, kc) && Progress(u, s, slots, kc)
    ensures Progress(u, CancelInSlots(s, slots, k, kc, ios), slots, kc)
    decreases |slots| - k
  {
    if k == |slots| || AllDone(s.remaining) {
      assert CancelInSlots(s, slots, k, kc, ios) == s;
    } else {
      var s1 := CancelInSlot(s, slots, k, kc, 0, ios);
      CancelInSlotKeeps(u, s, slots, k, kc, 0, ios);
      CancelInSlotsKeeps(u, s1, slots, k + 1, kc, ios);
      assert CancelInSlots(s, slots, k, kc, ios) == CancelInSlots(s1, slots, k + 1, kc, ios);
    }
  }

  lemma AllowedIsKnown(pcType: nat, policy: nat)
    requires PolicyAllowed(pcType, policy)
    ensures KnownPolicy(PolicyOffset(policy)) && PolicyOffset(policy) == PolicyOffset(pcType)
  {
  }

  /** Each image type allows the keys of one cancellation type; other types allow none. */
  lemma AllowedExactly(pcType: nat, policy: nat)
    ensures PolicyAllowed(pcType, policy) <==>
              (pcType == 0 && policy == 0x100) || ((pcType == 1 || pcType == 2) && policy == 0x101)
              || ((pcType == 3 || pcType == 4) && policy == 0x103)
  {
  }

  /** When cancelling reports success and its writes were stored, every listed key has a
      matching slot whose bit is now clear; whether it succeeds or not, no bit is set,
      only bits of listed keys are cleared, and the rest of the flash is unchanged. */
  lemma CancellationIsComplete(u: Ufm, pcType: nat, kc: KcManifest, slots: Slots, ios: Ios)
    requires KcManifestOk(kc) && AllStored(ios, slots, kc) && PolicyAllowed(pcType, kc.policy)
    ensures var (u', ok) := CancelCskKeys(u, pcType, kc, slots, ios);
            && KnownPolicy(PolicyOffset(kc.policy)) && OnlyListedCleared(u, u', slots, kc)
            && (ok ==> forall i :: 0 <= i < |kc.keys| ==> Cancelled(u', slots, kc, i))
  {
    AllowedIsKnown(pcType, kc.policy);
    assert OnlyListedCleared(u, u, slots, kc);
    CancelInSlotsKeeps(u, CancelStart(u, kc), slots, 0, kc, ios);
  }

  // ----- exactly which keys a cancellation clears

  predicate FlashWorks(ios: Ios, slots: Slots, kc: KcManifest) {
    forall k, i :: 0 <= k < |slots| && 0 <= i < |kc.keys| ==> ios(k, i) == CancelIo(true, Io(true, true, true))
  }

  /** Listed key `i` matches some slot before `k`. */
  ghost predicate MatchesBefore(slots: Slots, k: nat, kc: KcManifest, i: nat)
    requires KcManifestOk(kc) && i < |kc.keys| && k <= |slots|
  {
    exists x :: 0 <= x < k && Matches(slots, x, kc, i)
  }

  /** A listed key that is still to be cancelled, from key `i` on, is in slot `k` under `id`. */
  ghost predicate ToCancel(remaining: seq<bool>, slots: Slots, k: nat, kc: KcManifest, i: nat, id: nat)
    requires KcManifestOk(kc) && i <= |kc.keys| == |remaining| && k < |slots|
  {
    exists j :: i <= j < |kc.keys| && remaining[j] && kc.keys[j].id == id && Matches(slots, k, kc, j)
  }

  ghost predicate FirstMatch(slots: Slots, k: nat, kc: KcManifest, i: nat)
    requires KcManifestOk(kc) && i < |kc.keys| && k < |slots|
  {
    Matches(slots, k, kc, i) && !MatchesBefore(slots, k, kc, i)
  }

  /** Slot `k` is the first one that some listed key matches, and under `id`. */
  ghost predicate FirstMatched(slots: Slots, k: nat, kc: KcManifest, id: nat)
    requires KcManifestOk(kc)
  {
    k < |slots| && exists j :: 0 <= j < |kc.keys| && FirstMatch(slots, k, kc, j) && kc.keys[j].id == id
  }

  ghost predicate AllMatch(slots: Slots, kc: KcManifest)
    requires KcManifestOk(kc)
  {
    forall n :: 0 <= n < |kc.keys| ==> MatchesBefore(slots, |slots|, kc, n)
  }

  lemma CancelOneMarks(s: Cancelling, slots: Slots, k: nat, kc: KcManifest, i: nat, ios: Ios)
    requires KcManifestOk(kc) && KnownPolicy(PolicyOffset(kc.policy)) && i < |kc.keys| == |s.remaining| && k < |slots|
    requires FlashWorks(ios, slots, kc)
    ensures CancelOne(s, slots, k, kc, i, ios).remaining ==
              s.remaining[i := s.remaining[i] && !Matches(slots, k, kc, i)]
  {
  }

  lemma CancelOneClears(s: Cancelling, slots: Slots, k: nat, kc: KcManifest, i: nat, ios: Ios, x: nat, b: nat)
    requires KcManifestOk(kc) && KnownPolicy(PolicyOffset(kc.policy)) && i < |kc.keys| == |s.remaining| && k < |slots|
    requires FlashWorks(ios, slots, kc) && ValidId(x, b)
    ensures var s' := CancelOne(s, slots, k, kc, i, ios); var offset := PolicyOffset(kc.policy);
            KeyBit(s'.u, offset, x, b) <==>
              KeyBit(s.u, offset, x, b) && !(x == k && b == kc.keys[i].id && s.remaining[i] && Matches(slots, k, kc, i))
  {
    if s.remaining[i] && Matches(slots, k, kc, i) {
      var io := Io(true, true, true);
      CancelOneWrites(s, slots, k, kc, i, ios, io);
      CancelledBit(s.u, kc.policy, k, kc.keys[i].id, true, io);
    }
  }

  lemma CancelOneWrites(s: Cancelling, slots: Slots, k: nat, kc: KcManifest, i: nat, ios: Ios, io: Io)
    requires KcManifestOk(kc) && KnownPolicy(PolicyOffset(kc.policy)) && i < |kc.keys| == |s.remaining| && k < |slots|
    requires ios(k, i) == CancelIo(true, io) && io == Io(true, true, true) && s.remaining[i] && Matches(slots, k, kc, i)
    ensures CancelCskKeyId(s.u, kc.policy, k, kc.keys[i].id, true, io).1
    ensures CancelOne(s, slots, k, kc, i, ios) ==
              Cancelling(CancelCskKeyId(s.u, kc.policy, k, kc.keys[i].id, true, io).0, s.remaining[i := false])
  {
  }

  lemma {:induction false} CancelInSlotMarks(s: Cancelling, slots: Slots, k: nat, kc: KcManifest, i: nat, ios: Ios,
                                             n: nat)
    requires KcManifestOk(kc) && KnownPolicy(PolicyOffset(kc.policy)) && i <= |kc.keys| == |s.remaining| && k < |slots|
    requires FlashWorks(ios, slots, kc) && n < |kc.keys|
    ensures CancelInSlot(s, slots, k, kc, i, ios).remaining[n] <==>
            s.remaining[n] && !(n >= i && Matches(slots, k, kc, n))
    decreases |kc.keys| - i
  {
    if i < |kc.keys| {
      CancelOneMarks(s, slots, k, kc, i, ios);
      CancelInSlotMarks(CancelOne(s, slots, k, kc, i, ios), slots, k, kc, i + 1, ios, n);
    }
  }

  lemma {:induction false} CancelInSlotClears(s: Cancelling, slots: Slots, k: nat, kc: KcManifest, i: nat, ios: Ios,
                                              x: nat, b: nat)
    requires KcManifestOk(kc) && KnownPolicy(PolicyOffset(kc.policy)) && i <= |kc.keys| == |s.remaining| && k < |slots|
    requires FlashWorks(ios, slots, kc) && ValidId(x, b)
    ensures KeyBit(CancelInSlot(s, slots, k, kc, i, ios).u, PolicyOffset(kc.policy), x, b) <==>
              KeyBit(s.u, PolicyOffset(kc.policy), x, b) && !(x == k && ToCancel(s.remaining, slots, k, kc, i, b))
    decreases |kc.keys| - i
  {
    if i < |kc.keys| {
      var s1 := CancelOne(s, slots, k, kc, i, ios);
      CancelOneMarks(s, slots, k, kc, i, ios);
      CancelOneClears(s, slots, k, kc, i, ios, x, b);
      CancelInSlotClears(s1, slots, k, kc, i + 1, ios, x, b);
      ToCancelFrom(s.remaining, s1.remaining, slots, k, kc, i, b);
    }
  }

  lemma ToCancelFrom(remaining: seq<bool>, remaining': seq<bool>, slots: Slots, k: nat, kc: KcManifest, i: nat, id: nat)
    requires KcManifestOk(kc) && i < |kc.keys| == |remaining| == |remaining'| && k < |slots|
    requires forall j :: i < j < |kc.keys| ==> remaining'[j] == remaining[j]
    ensures ToCancel(remaining, slots, k, kc, i, id) <==>
              (remaining[i] && kc.keys[i].id == id && Matches(slots, k, kc, i))
                || ToCancel(remaining', slots, k, kc, i + 1, id)
  {
  }

  /** The keys still to be cancelled at slot `k` are those that no earlier slot matches. */
  ghost predicate LeftAt(remaining: seq<bool>, slots: Slots, k: nat, kc: KcManifest)
    requires KcManifestOk(kc) && |kc.keys| == |remaining| && k <= |slots|
  {
    forall n :: 0 <= n < |kc.keys| ==> (remaining[n] <==> !MatchesBefore(slots, k, kc, n))
  }

  lemma CancelInSlotLeaves(s: Cancelling, slots: Slots, k: nat, kc: KcManifest, ios: Ios)
    requires KcManifestOk(kc) && KnownPolicy(PolicyOffset(kc.policy)) && |kc.keys| == |s.remaining| && k < |slots|
    requires FlashWorks(ios, slots, kc) && LeftAt(s.remaining, slots, k, kc)
    ensures LeftAt(CancelInSlot(s, slots, k, kc, 0, ios).remaining, slots, k + 1, kc)
  {
    var s' := CancelInSlot(s, slots, k, kc, 0, ios);
    forall n | 0 <= n < |kc.keys| ensures s'.remaining[n] <==> !MatchesBefore(slots, k + 1, kc, n) {
      CancelInSlotMarks(s, slots, k, kc, 0, ios, n);
    }
  }

  lemma {:induction false} CancelInSlotsFinishes(s: Cancelling, slots: Slots, k: nat, kc: KcManifest, ios: Ios)
    requires KcManifestOk(kc) && KnownPolicy(PolicyOffset(kc.policy)) && |kc.keys| == |s.remaining| && k <= |slots|
    requires FlashWorks(ios, slots, kc) && LeftAt(s.remaining, slots, k, kc)
    ensures AllDone(CancelInSlots(s, slots, k, kc, ios).remaining) <==> AllMatch(slots, kc)
    decreases |slots| - k
  {
    if AllDone(s.remaining) {
      StillMatches(s.remaining, slots, k, kc);
    } else if k < |slots| {
      CancelInSlotLeaves(s, slots, k, kc, ios);
      CancelInSlotsFinishes(CancelInSlot(s, slots, k, kc, 0, ios), slots, k + 1, kc, ios);
    }
  }

  lemma ToCancelIsFirst(remaining: seq<bool>, slots: Slots, k: nat, kc: KcManifest, id: nat)
    requires KcManifestOk(kc) && |kc.keys| == |remaining| && k < |slots| && LeftAt(remaining, slots, k, kc)
    ensures ToCancel(remaining, slots, k, kc, 0, id) <==> FirstMatched(slots, k, kc, id)
  {
  }

  lemma {:induction false} CancelInSlotsClears(s: Cancelling, slots: Slots, k: nat, kc: KcManifest, ios: Ios, x: nat,
                                               b: nat)
    requires KcManifestOk(kc) && KnownPolicy(PolicyOffset(kc.policy)) && |kc.keys| == |s.remaining| && k <= |slots|
    requires FlashWorks(ios, slots, kc) && ValidId(x, b) && LeftAt(s.remaining, slots, k, kc)
    ensures KeyBit(CancelInSlots(s, slots, k, kc, ios).u, PolicyOffset(kc.policy), x, b) <==>
              KeyBit(s.u, PolicyOffset(kc.policy), x, b) && !(x >= k && FirstMatched(slots, x, kc, b))
    decreases |slots| - k
  {
    if k == |slots| {
      assert !FirstMatched(slots, x, kc, b) || x < k;
    } else if AllDone(s.remaining) {
      StillMatches(s.remaining, slots, k, kc);
    } else {
      var s1 := CancelInSlot(s, slots, k, kc, 0, ios);
      CancelInSlotLeaves(s, slots, k, kc, ios);
      CancelInSlotClears(s, slots, k, kc, 0, ios, x, b);
      ToCancelIsFirst(s.remaining, slots, k, kc, b);
      CancelInSlotsClears(s1, slots, k + 1, kc, ios, x, b);
    }
  }

  /** Once every listed key has matched, no later slot is a first match. */
  lemma StillMatches(remaining: seq<bool>, slots: Slots, k: nat, kc: KcManifest)
    requires KcManifestOk(kc) && |kc.keys| == |remaining| && k <= |slots|
    requires LeftAt(remaining, slots, k, kc) && AllDone(remaining)
    ensures AllMatch(slots, kc) && forall x, b :: x >= k ==> !FirstMatched(slots, x, kc, b)
  {
    forall y, n | k <= y <= |slots| && 0 <= n < |kc.keys| ensures MatchesBefore(slots, y, kc, n) {
      assert !remaining[n] && MatchesBefore(slots, k, kc, n);
    }
  }

  /** With a working flash a cancellation clears, of the bits of its policy, exactly those
      under which a listed key is found in the first slot that it matches. */
  lemma CancelsFirstMatches(u: Ufm, pcType: nat, kc: KcManifest, slots: Slots, ios: Ios, k: nat, id: nat)
    requires KcManifestOk(kc) && FlashWorks(ios, slots, kc) && PolicyAllowed(pcType, kc.policy) && ValidId(k, id)
    ensures var u' := CancelCskKeys(u, pcType, kc, slots, ios).0; var offset := PolicyOffset(kc.policy);
            KnownPolicy(offset)
            && (KeyBit(u', offset, k, id) <==> KeyBit(u, offset, k, id) && !FirstMatched(slots, k, kc, id))
  {
    AllowedIsKnown(pcType, kc.policy);
    CancelInSlotsClears(CancelStart(u, kc), slots, 0, kc, ios, k, id);
  }

  /** It succeeds exactly when every listed key matches some slot. */
  lemma CancelSucceeds(u: Ufm, pcType: nat, kc: KcManifest, slots: Slots, ios: Ios)
    requires KcManifestOk(kc) && FlashWorks(ios, slots, kc)
    ensures CancelCskKeys(u, pcType, kc, slots, ios).1 <==>
              PolicyAllowed(pcType, kc.policy) && AllMatch(slots, kc)
  {
    if PolicyAllowed(pcType, kc.policy) {
      AllowedIsKnown(pcType, kc.policy);
      CancelInSlotsFinishes(CancelStart(u, kc), slots, 0, kc, ios);
    }
  }

  /** A cancelled key is refused for the manifest and for the capsule type of its policy. */
  lemma CancelledIsRefused(u: Ufm, policy: nat, slot: nat, id: nat, pcType: nat, readOk: bool)
    requires KnownPolicy(PolicyOffset(policy)) && ValidId(slot, id) && !KeyBit(u, PolicyOffset(policy), slot, id)
    requires (policy == BMC_PFM_CANCELLATION && (pcType == PFR_BMC_PFM || pcType == PFR_BMC_UPDATE_CAPSULE))
          || (policy == PCH_PFM_CANCELLATION && (pcType == PFR_PCH_PFM || pcType == PFR_PCH_UPDATE_CAPSULE))
          || (policy == CPLD_CAPSULE_CANCELLATION && pcType == PFR_CPLD_UPDATE_CAPSULE)
    ensures !VerifyCskKeyId(u, pcType, slot, id, readOk)
  {
  }

  /** Reported success says nothing about a write that was lost: the flash is then left
      erased, and every key of every policy is valid again. */
  lemma LostWriteRevivesKeys(u: Ufm, pcType: nat, slot: nat, id: nat, readOk: bool, io: Io, offset: nat, k: nat, b: nat)
    requires CancelCskKeyId(u, pcType, slot, id, readOk, io).1 && !io.writeOk
    requires KnownPolicy(offset) && ValidId(k, b)
    ensures KeyBit(CancelCskKeyId(u, pcType, slot, id, readOk, io).0, offset, k, b)
  {
    AllOnes(b);
  }

  /** On an erased provisioning flash every key of every slot is accepted, for the five image
      types and the three cancellation types, and nothing else is. */
  lemma FreshKeysAccepted(pcType: nat, slot: nat, id: nat, readOk: bool)
    ensures VerifyCskKeyId(Erased(PROVISION_UFM_SIZE), pcType, slot, id, readOk) <==>
              readOk && slot <= 15 && id <= 7
              && (pcType <= 4 || pcType == 0x100 || pcType == 0x101 || pcType == 0x103)
  {
    if id <= 7 {
      AllOnes(id);
    }
  }

  /** What is looked at: one byte for each slot, 16 for each policy, the three policies apart
      from each other and from the version numbers. */
  lemma VerifiedByte(u: Ufm, pcType: nat, slot: nat, id: nat, readOk: bool)
    ensures VerifyCskKeyId(u, pcType, slot, id, readOk) <==>
              readOk && slot <= 15 && id <= 7
              && (((pcType == 1 || pcType == 2 || pcType == 0x101) && TestBit(u[0xEC + slot], id))
                  || ((pcType == 3 || pcType == 4 || pcType == 0x103) && TestBit(u[0x10C + slot], id))
                  || ((pcType == 0 || pcType == 0x100) && TestBit(u[0x12C + slot], id)))
  {
  }

  lemma {:induction false} AllOnes(b: nat)
    requires b <= MAX_KEY_ID
    ensures TestBit(0xFF, b)
  {
    HighBits(8, 0, b);
    assert Pow2(8) - Pow2(0) == 0xFF;
  }
}
