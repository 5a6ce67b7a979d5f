/** Runs over the key manifest store and the provisioning flash that mix appends of key
    manifests, cancellations, updates and recovery checks, up to the next erase of the
    provisioning. */
module ProvisionRuns {
  import opened Bytes
  import opened Options
  import opened ProvisionUfm
  import opened Svn
  import opened KeyManifests
  import K = KeyCancellation

  /** The store, the number of manifests in it, and the provisioning flash. */
  datatype Device = Device(store: Partition, count: nat, ufm: Ufm)

  datatype Event =
    | SvnChange(e: SvnEvent)
    | Cancel(pcType: nat, kc: K.KcManifest, seen: nat -> bool, ios: K.Ios)
    | AppendManifest(image: seq<byte>, io: AppendIo)

  /** Every write of the provisioning is stored; an append is refused before it erases, or
      it succeeds, marks its slot, and could read the header of the first free slot. */
  predicate Stored(d: Device, e: Event) {
    match e
    case SvnChange(s) => s.io.writeOk
    case Cancel(_, kc, seen, ios) => K.KcManifestOk(kc) && K.AllStored(ios, CancelSlots(d.store, seen), kc)
    case AppendManifest(image, io) =>
      |image| == KEY_MANIFEST_SIZE && AppendIoOk(io)
      && if Append(d.store, image, io).1 then MarksSlot(image) && io.readable(d.count)
         else !ReachesErase(d.store, image, io)
  }

  function After(d: Device, e: Event): Device
    requires Stored(d, e)
  {
    match e
    case SvnChange(s) => d.(ufm := SvnStep(d.ufm, s))
    case Cancel(pcType, kc, seen, ios) =>
      d.(ufm := K.CancelCskKeys(d.ufm, pcType, kc, CancelSlots(d.store, seen), ios).0)
    case AppendManifest(image, io) =>
      var (store, ok) := Append(d.store, image, io);
      d.(store := store, count := if ok then d.count + 1 else d.count)
  }

  ghost predicate Step(d: Device, e: Event, d': Device) {
    Stored(d, e) && d' == After(d, e)
  }

  ghost predicate IsRun(ds: seq<Device>, es: seq<Event>) {
    |ds| == |es| + 1 && forall i {:trigger es[i]} :: 0 <= i < |es| ==> Step(ds[i], es[i], ds[i + 1])
  }

  lemma RunStep(ds: seq<Device>, es: seq<Event>, i: nat)
    requires IsRun(ds, es) && i < |es|
    ensures Step(ds[i], es[i], ds[i + 1])
  {
  }

  // ----- version numbers and key bits

  lemma CancelKeepsSvn(d: Device, e: Event, p: Policy)
    requires e.Cancel? && Stored(d, e)
    ensures GetSvn(After(d, e).ufm, p) == GetSvn(d.ufm, p)
  {
    if K.PolicyAllowed(e.pcType, e.kc.policy) {
      var u, u', at := d.ufm, After(d, e).ufm, Offset(p);
      K.CancellationIsComplete(u, e.pcType, e.kc, CancelSlots(d.store, e.seen), e.ios);
      SameBytes(u, u', at, 8);
      SamePolicy(u, u', p);
    }
  }

  lemma SameBytes(s: seq<byte>, t: seq<byte>, at: nat, n: nat)
    requires at + n <= |s| && at + n <= |t| && forall i :: at <= i < at + n ==> t[i] == s[i]
    ensures t[at..at + n] == s[at..at + n]
  {
    var a, b := s[at..at + n], t[at..at + n];
    forall i | 0 <= i < n ensures b[i] == a[i] {
      assert b[i] == t[at + i] && a[i] == s[at + i];
    }
  }

  lemma StepRaises(d: Device, e: Event, d': Device, p: Policy)
    requires Step(d, e, d')
    ensures GetSvn(d.ufm, p) <= GetSvn(d'.ufm, p)
  {
    match e
    case SvnChange(s) => StepNeverLowers(d.ufm, s, p);
    case Cancel(_, _, _, _) => CancelKeepsSvn(d, e, p);
    case AppendManifest(_, _) =>
  }

  lemma StepClears(d: Device, e: Event, d': Device, offset: nat, slot: nat, id: nat)
    requires Step(d, e, d') && K.KnownPolicy(offset) && K.ValidId(slot, id)
    ensures K.KeyBit(d'.ufm, offset, slot, id) ==> K.KeyBit(d.ufm, offset, slot, id)
  {
    if e.Cancel? {
      CancelClears(d.ufm, e.pcType, e.kc, CancelSlots(d.store, e.seen), e.ios, offset, slot, id);
    }
  }

  lemma CancelClears(u: Ufm, pcType: nat, kc: K.KcManifest, slots: K.Slots, ios: K.Ios, offset: nat, slot: nat, id: nat)
    requires K.KcManifestOk(kc) && K.AllStored(ios, slots, kc) && K.KnownPolicy(offset) && K.ValidId(slot, id)
    ensures K.KeyBit(K.CancelCskKeys(u, pcType, kc, slots, ios).0, offset, slot, id) ==> K.KeyBit(u, offset, slot, id)
  {
    if K.PolicyAllowed(pcType, kc.policy) {
      var u' := K.CancelCskKeys(u, pcType, kc, slots, ios).0;
      K.CancellationIsComplete(u, pcType, kc, slots, ios);
      if offset == K.PolicyOffset(kc.policy) {
        assert K.BitKept(u, u', offset, slot, id, slots, kc);
      }
    }
  }

  /** A measure that no step lowers is not lowered by a run. */
  lemma {:induction false} Nondecreasing(ds: seq<Device>, measure: Device -> nat, i: nat, j: nat)
    requires i <= j < |ds| && forall k :: 0 < k < |ds| ==> measure(ds[k - 1]) <= measure(ds[k])
    ensures measure(ds[i]) <= measure(ds[j])
    decreases j
  {
    if i < j {
      Nondecreasing(ds, measure, i, j - 1);
    }
  }

  lemma RunRaises(ds: seq<Device>, es: seq<Event>, p: Policy, measure: Device -> nat)
    requires IsRun(ds, es) && forall d: Device :: measure(d) == GetSvn(d.ufm, p)
    ensures forall k :: 0 < k < |ds| ==> measure(ds[k - 1]) <= measure(ds[k])
  {
    forall k | 0 < k < |ds| ensures measure(ds[k - 1]) <= measure(ds[k]) {
      RunStep(ds, es, k - 1);
      StepRaises(ds[k - 1], es[k - 1], ds[k], p);
    }
  }

  /** Anti-rollback: until the provisioning is erased, version numbers only rise. */
  lemma NumbersOnlyRise(ds: seq<Device>, es: seq<Event>, i: nat, j: nat, p: Policy)
    requires IsRun(ds, es) && i <= j < |ds|
    ensures GetSvn(ds[i].ufm, p) <= GetSvn(ds[j].ufm, p)
  {
    var measure := (d: Device) => GetSvn(d.ufm, p);
    RunRaises(ds, es, p, measure);
    Nondecreasing(ds, measure, i, j);
    assert measure(ds[i]) <= measure(ds[j]);
  }

  /** The version a step offers to store: that of an accepted update of the recovery image, or
      of the recovery image read by a recovery check. */
  function Offered(d: Device, e: Event, p: Policy): Option<nat> {
    if !e.SvnChange? || e.e.policy != p || e.e.svn > 64 || !e.e.io.readOk || !e.e.io.eraseOk then None
    else match e.e
      case Update(_, recovery, svn, _) => if recovery && GetSvn(d.ufm, p) <= svn then Some(svn) else None
      case Recovered(_, svn, _) => Some(svn)
  }

  function Larger(n: nat, m: Option<nat>): nat {
    if m.Some? && m.value > n then m.value else n
  }

  lemma StepIsLarger(d: Device, e: Event, d': Device, p: Policy)
    requires Step(d, e, d')
    ensures GetSvn(d'.ufm, p) == Larger(GetSvn(d.ufm, p), Offered(d, e, p))
  {
    match e
    case SvnChange(s) => StepNumber(d.ufm, s, p);
    case Cancel(_, _, _, _) => CancelKeepsSvn(d, e, p);
    case AppendManifest(_, _) =>
  }

  /** A measure that each step raises to what it offers ends as the largest of all of them. */
  lemma {:induction false} LargestOffer(ds: seq<Device>, es: seq<Event>, measure: Device -> nat,
                                        offer: (Device, Event) -> Option<nat>, i: nat, j: nat)
    requires |ds| == |es| + 1 && i <= j < |ds|
    requires forall k :: 0 < k < |ds| ==> measure(ds[k]) == Larger(measure(ds[k - 1]), offer(ds[k - 1], es[k - 1]))
    ensures measure(ds[i]) <= measure(ds[j])
    ensures forall k {:trigger es[k]} :: i <= k < j && offer(ds[k], es[k]).Some? ==>
              offer(ds[k], es[k]).value <= measure(ds[j])
    ensures measure(ds[j]) == measure(ds[i])
            || exists k {:trigger es[k]} :: i <= k < j && offer(ds[k], es[k]) == Some(measure(ds[j]))
    decreases j
  {
    if i < j {
      LargestOffer(ds, es, measure, offer, i, j - 1);
      assert measure(ds[j]) == Larger(measure(ds[j - 1]), offer(ds[j - 1], es[j - 1]));
      if measure(ds[j]) != measure(ds[j - 1]) {
        assert offer(ds[j - 1], es[j - 1]) == Some(measure(ds[j]));
      }
    }
  }

  lemma RunIsLarger(ds: seq<Device>, es: seq<Event>, p: Policy, measure: Device -> nat)
    requires IsRun(ds, es) && forall d: Device :: measure(d) == GetSvn(d.ufm, p)
    ensures forall k :: 0 < k < |ds| ==> measure(ds[k]) == Larger(measure(ds[k - 1]), Offered(ds[k - 1], es[k - 1], p))
  {
    forall k | 0 < k < |ds| ensures measure(ds[k]) == Larger(measure(ds[k - 1]), Offered(ds[k - 1], es[k - 1], p)) {
      RunStep(ds, es, k - 1);
      StepIsLarger(ds[k - 1], es[k - 1], ds[k], p);
    }
  }

  /** The stored number is the largest of the one at the start and of every version offered
      since. */
  lemma NumberIsLargest(ds: seq<Device>, es: seq<Event>, i: nat, j: nat, p: Policy) returns (n: nat, start: nat)
    requires IsRun(ds, es) && i <= j < |ds|
    ensures n == GetSvn(ds[j].ufm, p) && start == GetSvn(ds[i].ufm, p) && start <= n
    ensures forall k {:trigger es[k]} :: i <= k < j && Offered(ds[k], es[k], p).Some? ==>
              Offered(ds[k], es[k], p).value <= n
    ensures n == start || exists k {:trigger es[k]} :: i <= k < j && Offered(ds[k], es[k], p) == Some(n)
  {
    var measure := (d: Device) => GetSvn(d.ufm, p);
    RunIsLarger(ds, es, p, measure);
    LargestOffer(ds, es, measure, (d, e) => Offered(d, e, p), i, j);
    n, start := measure(ds[j]), measure(ds[i]);
  }

  /** An image is accepted exactly when its version is at most 64 and not below the number at
      the start nor any version offered since. In particular, once the recovery image was
      updated to a version, every image below it is refused. */
  lemma AcceptedVersions(ds: seq<Device>, es: seq<Event>, i: nat, j: nat, p: Policy, svn: nat)
    requires IsRun(ds, es) && i <= j < |ds|
    ensures SvnPolicyVerify(ds[j].ufm, p, svn) <==>
              svn <= 64 && GetSvn(ds[i].ufm, p) <= svn
              && forall k {:trigger es[k]} :: i <= k < j && Offered(ds[k], es[k], p).Some? ==>
                   Offered(ds[k], es[k], p).value <= svn
  {
    var n, start := NumberIsLargest(ds, es, i, j, p);
  }

  /** An image below the stored number is refused from then on. */
  lemma OldImageRefused(ds: seq<Device>, es: seq<Event>, i: nat, j: nat, p: Policy, svn: nat)
    requires IsRun(ds, es) && i <= j < |ds| && svn < GetSvn(ds[i].ufm, p)
    ensures !SvnPolicyVerify(ds[j].ufm, p, svn)
  {
    NumbersOnlyRise(ds, es, i, j, p);
  }

  /** Until the provisioning is erased, no key bit is ever set again: a cancelled key
      stays cancelled. */
  lemma {:induction false} KeysOnlyCleared(ds: seq<Device>, es: seq<Event>, i: nat, j: nat, offset: nat, slot: nat,
                                           id: nat)
    requires IsRun(ds, es) && i <= j < |ds| && K.KnownPolicy(offset) && K.ValidId(slot, id)
    ensures K.KeyBit(ds[j].ufm, offset, slot, id) ==> K.KeyBit(ds[i].ufm, offset, slot, id)
    decreases j - i
  {
    if i < j {
      RunStep(ds, es, i);
      StepClears(ds[i], es[i], ds[i + 1], offset, slot, id);
      KeysOnlyCleared(ds, es, i + 1, j, offset, slot, id);
    }
  }

  /** A cancellation lists the key of a slot, under the policy of this offset. */
  ghost predicate ListsKey(d: Device, e: Event, offset: nat, slot: nat, id: nat) {
    e.Cancel? && K.KcManifestOk(e.kc) && K.PolicyAllowed(e.pcType, e.kc.policy) && K.PolicyOffset(e.kc.policy) == offset
    && K.Listed(CancelSlots(d.store, e.seen), slot, e.kc, id)
  }

  lemma StepKeepsKey(d: Device, e: Event, d': Device, offset: nat, slot: nat, id: nat)
    requires Step(d, e, d') && K.KnownPolicy(offset) && K.ValidId(slot, id) && !ListsKey(d, e, offset, slot, id)
    ensures K.KeyBit(d'.ufm, offset, slot, id) == K.KeyBit(d.ufm, offset, slot, id)
  {
    StepClears(d, e, d', offset, slot, id);
    if e.Cancel? && K.PolicyAllowed(e.pcType, e.kc.policy) {
      K.CancellationIsComplete(d.ufm, e.pcType, e.kc, CancelSlots(d.store, e.seen), e.ios);
      if offset == K.PolicyOffset(e.kc.policy) {
        assert K.BitKept(d.ufm, d'.ufm, offset, slot, id, CancelSlots(d.store, e.seen), e.kc);
      }
    }
  }

  /** A key that no cancellation lists in its slot stays exactly as valid as it was. */
  lemma {:induction false} UnlistedKeysStay(ds: seq<Device>, es: seq<Event>, i: nat, j: nat, offset: nat, slot: nat,
                                            id: nat)
    requires IsRun(ds, es) && i <= j < |ds| && K.KnownPolicy(offset) && K.ValidId(slot, id)
    requires forall k {:trigger es[k]} :: i <= k < j ==> !ListsKey(ds[k], es[k], offset, slot, id)
    ensures K.KeyBit(ds[j].ufm, offset, slot, id) == K.KeyBit(ds[i].ufm, offset, slot, id)
    decreases j - i
  {
    if i < j {
      RunStep(ds, es, i);
      assert !ListsKey(ds[i], es[i], offset, slot, id);
      StepKeepsKey(ds[i], es[i], ds[i + 1], offset, slot, id);
      UnlistedKeysStay(ds, es, i + 1, j, offset, slot, id);
    }
  }

  // ----- the store

  /** A store and its number of manifests. */
  ghost predicate Ordered(d: Device) {
    StoreOk(d.store, d.count)
  }

  lemma ErasedIsOrdered(d: Device)
    requires d.count == 0 && d.store == Erased(|d.store|)
    ensures Ordered(d)
  {
    forall k | 0 <= k < SlotCount(d.store) ensures !Occupied(d.store, k) {
      assert Slot(d.store, k) == Erased(KEY_MANIFEST_SIZE);
      ErasedIsFree();
    }
  }

  /** What a step keeps of the store: its order, and every manifest in its slot. */
  ghost predicate ManifestsKept(d: Device, d': Device) {
    && Ordered(d) && Ordered(d') && |d'.store| == |d.store| && d.count <= d'.count
    && KeepsSlots(d.store, d'.store, d.count)
  }

  lemma StepKeepsManifests(d: Device, e: Event, d': Device)
    requires Step(d, e, d') && Ordered(d)
    ensures ManifestsKept(d, d')
  {
    if e.AppendManifest? && Append(d.store, e.image, e.io).1 {
      AppendKeepsStore(d.store, e.image, e.io, d.count);
      forall k | 0 <= k < d.count ensures Slot(d'.store, k) == Slot(d.store, k) {
        AppendConserves(d.store, e.image, e.io, d.count, k);
      }
    }
  }

  lemma KeptTwice(a: Device, b: Device, c: Device)
    requires ManifestsKept(a, b) && ManifestsKept(b, c)
    ensures ManifestsKept(a, c)
  {
    forall k | 0 <= k < a.count ensures Slot(c.store, k) == Slot(a.store, k) {
      assert Slot(b.store, k) == Slot(a.store, k);
    }
  }

  lemma {:induction false} ManifestsStayFrom(ds: seq<Device>, es: seq<Event>, i: nat, j: nat)
    requires IsRun(ds, es) && i <= j < |ds| && Ordered(ds[i])
    ensures ManifestsKept(ds[i], ds[j])
    decreases j - i
  {
    if i < j {
      RunStep(ds, es, i);
      StepKeepsManifests(ds[i], es[i], ds[i + 1]);
      ManifestsStayFrom(ds, es, i + 1, j);
      KeptTwice(ds[i], ds[i + 1], ds[j]);
    }
  }

  /** Over a run from a store in order, an erased one for instance, it stays in order, and
      no manifest is ever moved, changed or lost. */
  lemma ManifestsStay(ds: seq<Device>, es: seq<Event>, i: nat, j: nat)
    requires IsRun(ds, es) && Ordered(ds[0]) && i <= j < |ds|
    ensures ManifestsKept(ds[i], ds[j])
  {
    ManifestsStayFrom(ds, es, 0, i);
    ManifestsStayFrom(ds, es, i, j);
  }

  /** A key that the search locates keeps its manifest id and key id for good. */
  lemma FoundForGood(ds: seq<Device>, es: seq<Event>, i: nat, j: nat, csk: Digests, readable: nat -> bool)
    requires IsRun(ds, es) && Ordered(ds[0]) && i <= j < |ds|
    requires Find(ds[i].store, csk, readable).Some? && Find(ds[i].store, csk, readable).value.0 < ds[i].count
    ensures Find(ds[j].store, csk, readable) == Find(ds[i].store, csk, readable)
  {
    ManifestsStay(ds, es, i, j);
    var f, f' := ds[i].store, ds[j].store;
    ResultsKept(f, f', csk, readable, ds[i].count);
    FirstFoundKept(SlotResults(f, csk, readable), SlotResults(f', csk, readable), ds[i].count);
  }

  // ----- cancellations for good

  /** A cleared bit of a policy is refused at every later moment. */
  lemma ClearedForGood(ds: seq<Device>, es: seq<Event>, i: nat, j: nat, policy: nat, slot: nat, id: nat)
    requires IsRun(ds, es) && i <= j < |ds| && Cleared(ds[i].ufm, policy, slot, id)
    ensures Refused(ds[j].ufm, policy, slot, id)
  {
    KeysOnlyCleared(ds, es, i, j, K.PolicyOffset(policy), slot, id);
  }

  /** Once a key is cleared by step `i` it is refused from then on. */
  lemma ClearedByStep(ds: seq<Device>, es: seq<Event>, i: nat, j: nat, d': Device, policy: nat, slot: nat, id: nat)
    requires IsRun(ds, es) && i < j < |ds| && d' == ds[i + 1] && Cleared(d'.ufm, policy, slot, id)
    ensures Refused(ds[j].ufm, policy, slot, id)
  {
    ClearedForGood(ds, es, i + 1, j, policy, slot, id);
  }

  predicate Cleared(u: Ufm, policy: nat, slot: nat, id: nat) {
    K.KnownPolicy(K.PolicyOffset(policy)) && K.ValidId(slot, id) && !K.KeyBit(u, K.PolicyOffset(policy), slot, id)
  }

  /** The key of a slot is refused for every image type of a policy. */
  ghost predicate Refused(u: Ufm, policy: nat, slot: nat, id: nat) {
    forall pcType, readOk :: RefusedAs(u, policy, slot, id, pcType, readOk)
  }

  predicate RefusedAs(u: Ufm, policy: nat, slot: nat, id: nat, pcType: nat, readOk: bool) {
    K.PolicyOffset(pcType) == K.PolicyOffset(policy) ==> !K.VerifyCskKeyId(u, pcType, slot, id, readOk)
  }

  /** After a cancellation that succeeded, each listed key has a matching slot in which it
      is refused, for every later moment and every image type of the policy. */
  lemma CancelledForGood(ds: seq<Device>, es: seq<Event>, i: nat, j: nat, n: nat) returns (slot: nat)
    requires IsRun(ds, es) && i < j < |ds| && es[i].Cancel? && K.KcManifestOk(es[i].kc) && n < |es[i].kc.keys|
    requires K.CancelCskKeys(ds[i].ufm, es[i].pcType, es[i].kc, CancelSlots(ds[i].store, es[i].seen), es[i].ios).1
    ensures var slots := CancelSlots(ds[i].store, es[i].seen); slot < |slots| && K.Matches(slots, slot, es[i].kc, n)
    ensures Refused(ds[j].ufm, es[i].kc.policy, slot, es[i].kc.keys[n].id)
  {
    slot := ListedIsClearedAt(ds, es, i, n);
    ClearedByStep(ds, es, i, j, ds[i + 1], es[i].kc.policy, slot, es[i].kc.keys[n].id);
  }

  lemma ListedIsClearedAt(ds: seq<Device>, es: seq<Event>, i: nat, n: nat) returns (slot: nat)
    requires IsRun(ds, es) && i < |es| && es[i].Cancel? && K.KcManifestOk(es[i].kc) && n < |es[i].kc.keys|
    requires K.CancelCskKeys(ds[i].ufm, es[i].pcType, es[i].kc, CancelSlots(ds[i].store, es[i].seen), es[i].ios).1
    ensures var slots := CancelSlots(ds[i].store, es[i].seen); slot < |slots| && K.Matches(slots, slot, es[i].kc, n)
    ensures Cleared(ds[i + 1].ufm, es[i].kc.policy, slot, es[i].kc.keys[n].id)
  {
    RunStep(ds, es, i);
    slot := ListedIsCleared(ds[i], es[i], ds[i + 1], n);
  }

  lemma ListedIsCleared(d: Device, e: Event, d': Device, n: nat) returns (slot: nat)
    requires Step(d, e, d') && e.Cancel? && K.KcManifestOk(e.kc) && n < |e.kc.keys|
    requires K.CancelCskKeys(d.ufm, e.pcType, e.kc, CancelSlots(d.store, e.seen), e.ios).1
    ensures var slots := CancelSlots(d.store, e.seen); slot < |slots| && K.Matches(slots, slot, e.kc, n)
    ensures Cleared(d'.ufm, e.kc.policy, slot, e.kc.keys[n].id)
  {
    var slots := CancelSlots(d.store, e.seen);
    K.CancellationIsComplete(d.ufm, e.pcType, e.kc, slots, e.ios);
    assert K.Cancelled(d'.ufm, slots, e.kc, n);
    var offset, id := K.PolicyOffset(e.kc.policy), e.kc.keys[n].id;
    slot :| 0 <= slot < |slots| && K.Matches(slots, slot, e.kc, n) && !K.KeyBit(d'.ufm, offset, slot, id);
  }

  /** A cancellation of the key that the search locates, which sees its slot and no earlier
      slot that matches: at every later moment, whatever is appended, cancelled or
      updated, the search still locates the key there and it is refused. */
  lemma FoundKeyStaysRefused(ds: seq<Device>, es: seq<Event>, i: nat, j: nat, csk: Digests, readable: nat -> bool,
                             n: nat, k: nat, id: nat)
    requires IsRun(ds, es) && Ordered(ds[0]) && i < j < |ds|
    requires CancelsFound(ds[i], es[i], csk, readable, n, k, id) && k < ds[i].count
    ensures Find(ds[j].store, csk, readable) == Some((k, id)) && Refused(ds[j].ufm, es[i].kc.policy, k, id)
  {
    FoundForGood(ds, es, i, j, csk, readable);
    FoundIsClearedAt(ds, es, i, csk, readable, n, k, id);
    ClearedByStep(ds, es, i, j, ds[i + 1], es[i].kc.policy, k, id);
  }

  /** Listed key `n` of a cancellation with a working flash is the key that the search locates,
      and its slot the first one that the cancellation sees it in. */
  ghost predicate CancelsFound(d: Device, e: Event, csk: Digests, readable: nat -> bool, n: nat, k: nat, id: nat) {
    && e.Cancel? && K.KcManifestOk(e.kc) && n < |e.kc.keys| && K.PolicyAllowed(e.pcType, e.kc.policy)
    && K.FlashWorks(e.ios, CancelSlots(d.store, e.seen), e.kc)
    && Find(d.store, csk, readable) == Some((k, id)) && SlotManifest(d.store, k).Some?
    && Lists(e.kc, n, SlotManifest(d.store, k).value, id, csk)
    && e.seen(k) && !K.MatchesBefore(CancelSlots(d.store, e.seen), k, e.kc, n)
  }

  lemma FoundIsClearedAt(ds: seq<Device>, es: seq<Event>, i: nat, csk: Digests, readable: nat -> bool,
                         n: nat, k: nat, id: nat)
    requires IsRun(ds, es) && i < |es| && CancelsFound(ds[i], es[i], csk, readable, n, k, id)
    ensures Cleared(ds[i + 1].ufm, es[i].kc.policy, k, id)
  {
    RunStep(ds, es, i);
    FoundIsCleared(ds[i], es[i], ds[i + 1], csk, readable, n, k, id);
  }

  lemma FoundIsCleared(d: Device, e: Event, d': Device, csk: Digests, readable: nat -> bool, n: nat, k: nat, id: nat)
    requires Step(d, e, d') && CancelsFound(d, e, csk, readable, n, k, id)
    ensures Cleared(d'.ufm, e.kc.policy, k, id)
  {
    CancelledBitIsClear(d.store, d.ufm, csk, readable, e.seen, e.pcType, e.kc, e.ios, n, k, id);
  }

  lemma CancelledBitIsClear(f: Partition, u: Ufm, csk: Digests, readable: nat -> bool, seen: nat -> bool, pcType: nat,
                            kc: K.KcManifest, ios: K.Ios, n: nat, k: nat, id: nat)
    requires K.KcManifestOk(kc) && n < |kc.keys| && K.PolicyAllowed(pcType, kc.policy)
    requires K.FlashWorks(ios, CancelSlots(f, seen), kc)
    requires Find(f, csk, readable) == Some((k, id)) && SlotManifest(f, k).Some?
    requires Lists(kc, n, SlotManifest(f, k).value, id, csk)
    requires seen(k) && !K.MatchesBefore(CancelSlots(f, seen), k, kc, n)
    ensures K.KnownPolicy(K.PolicyOffset(kc.policy)) && K.ValidId(k, id)
    ensures !K.KeyBit(K.CancelCskKeys(u, pcType, kc, CancelSlots(f, seen), ios).0, K.PolicyOffset(kc.policy), k, id)
  {
    K.AllowedIsKnown(pcType, kc.policy);
    CancelledKeyIsRefused(f, u, csk, readable, seen, pcType, kc, ios, n, k, id, true);
  }
}
