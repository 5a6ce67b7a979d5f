/** The update loop of the platform state machine (`handle_update_requested` and
    `handle_recovery_requested`): immediate updates of active images and the
    two-phase update of recovery images. */
module PfrUpdate {
  import opened Options
  import opened PfrTypes

  /** Outcome of one `update_firmware_image` call: its result, whether it got as
      far as taking over the PCH staging, and as clearing the recovery field. */
  datatype UpdateOutcome = UpdateOutcome(ok: bool, tookStaging: bool, clearedRecovery: bool)

  /** What one update request meets: the staging hash of each region and the outcome
      of updating its active and its recovery image. */
  datatype UpdateInputs = UpdateInputs(staging: PerRegion<Reading>,
                                       primary: PerRegion<UpdateOutcome>, secondary: PerRegion<UpdateOutcome>)

  /** The variables of `handle_update_requested`: the regions still to do, those
      handled, the last result, the status, the cached hashes, the event's data and
      the events posted. `log` and `origins` are bookkeeping for the properties. */
  datatype UpdateRun = UpdateRun(region: Regions, handled: Regions, ok: bool, status: UpdateStatus,
                                 hashes: PerRegion<Hash>, evt: Event, posts: seq<Event>,
                                 log: seq<Dispatch>, origins: Origins)

  /** What `update_firmware_image` leaves in the status it is given. */
  function StatusAfterImage(s: UpdateStatus, r: RegionId, flash: Flash, o: UpdateOutcome): UpdateStatus {
    match r
    case Rot =>
      if s.recovery.rot == RECOVERY_PENDING_REQUEST_HANDLED then s.(recovery := s.recovery.Set(Rot, 0)) else s
    case _ =>
      var s1 := if r == Pch && o.tookStaging then s.(bmcToPch := false) else s;
      if flash == Secondary && o.clearedRecovery then s1.(recovery := s1.recovery.Set(r, 0)) else s1
  }

  /** The region a pass of the update loop works on. */
  function PassRegion(region: Regions): RegionId {
    if region.active.bmc || region.recovery.bmc then Bmc
    else if region.active.pch || region.recovery.pch then Pch
    else Rot
  }

  /** What `handle_recovery_requested` decides for a requested recovery update. */
  datatype Decision = Bypass | Tampered | UpdateRecovery | UpdateActiveFirst

  function Decide(u: UpdateRun, r: RegionId, o: UpdateInputs): Decision {
    if !Pending(u.status.recovery.Get(r)) then UpdateActiveFirst
    else if !u.evt.flags.bootDone then Bypass
    else if u.hashes.Get(r) == o.staging.Get(r).buffer then UpdateRecovery
    else Tampered
  }

  function PendingValue(source: nat, before: nat): nat {
    if source == BMC_UPDATE_INTENT then BMC_INTENT_RECOVERY_PENDING
    else if source == PCH_UPDATE_INTENT then PCH_INTENT_RECOVERY_PENDING
    else before
  }

  function SetRecovery(s: UpdateStatus, r: RegionId, v: nat): UpdateStatus {
    s.(recovery := s.recovery.Set(r, v))
  }

  /** The run after `handle_recovery_requested` for region `r`. */
  function RecoveryRequested(u: UpdateRun, r: RegionId, o: UpdateInputs): (u': UpdateRun)
    ensures u'.region == u.region.WithoutRecovery(r)
  {
    var u1 := u.(region := u.region.WithoutRecovery(r));
    var u2 := u1.(handled := u.handled.(recovery := u.handled.recovery.Set(r, true)));
    match Decide(u, r, o)
    case Bypass => u1
    case UpdateActiveFirst =>
      u2.(status := SetRecovery(u.status, r, PendingValue(u.evt.source, u.status.recovery.Get(r))),
          hashes := u.hashes.Set(r, o.staging.Get(r).buffer))
    case _ => u2.(status := SetRecovery(u.status, r, RECOVERY_PENDING_REQUEST_HANDLED))
  }

  /** The image update of a pass, on the region's active or recovery image. */
  function UpdateImage(u: UpdateRun, r: RegionId, flash: Flash, o: UpdateInputs): (u': UpdateRun)
    ensures u'.region == u.region && u'.log == u.log + [Dispatch(r, flash)]
  {
    var outcome := if flash == Primary then o.primary.Get(r) else o.secondary.Get(r);
    u.(ok := outcome.ok, status := StatusAfterImage(u.status, r, flash, outcome), log := u.log + [Dispatch(r, flash)])
  }

  /** The part of a pass that updates the active image. */
  function ActivePart(u: UpdateRun, r: RegionId, requested: bool, o: UpdateInputs): (u': UpdateRun)
    ensures u'.region == u.region.Without(r) && u'.log == u.log + [Dispatch(r, Primary)]
  {
    var u1 := u.(region := u.region.Without(r), handled := u.handled.(active := u.handled.active.Set(r, true)));
    var u2 := UpdateImage(u1, r, Primary, o);
    if requested then u2.(origins := u2.origins.Set(r, Some(Origin(o.staging.Get(r), u2.ok)))) else u2
  }

  /** A pass for region `r` in which its recovery image was requested. */
  function RecoveryPass(u: UpdateRun, r: RegionId, o: UpdateInputs): UpdateRun {
    var u1 := RecoveryRequested(u, r, o);
    match Decide(u, r, o)
    case UpdateRecovery => UpdateImage(u1, r, Secondary, o)
    case UpdateActiveFirst => ActivePart(u1, r, true, o)
    case _ => u1
  }

  /** The end of a pass: a failure clears the region's pending recovery update. */
  function FinishPass(u: UpdateRun, r: RegionId): (u': UpdateRun)
    ensures u'.region == u.region && u'.log == u.log && u'.origins == u.origins
  {
    var evt := u.evt.(handled := Intent(u.handled, false, false));
    if u.ok then u.(evt := evt)
    else u.(evt := evt, status := SetRecovery(u.status, r, 0), posts := u.posts + [evt.(kind := UpdateFailed)])
  }

  predicate KnownIntent(e: Event) {
    e.source == PCH_UPDATE_INTENT || e.source == BMC_UPDATE_INTENT
  }

  /** One pass of the update loop. */
  function UpdatePass(u: UpdateRun, o: UpdateInputs): UpdateRun {
    var r := PassRegion(u.region);
    if !KnownIntent(u.evt) then FinishPass(u, r)
    else FinishPass(if u.region.recovery.Get(r) then RecoveryPass(u, r, o) else ActivePart(u, r, false, o), r)
  }

  lemma ClearingABit(g: Regions, r: RegionId)
    ensures g.recovery.Get(r) ==> g.WithoutRecovery(r).Count() < g.Count()
    ensures g.active.Get(r) ==> g.Without(r).Count() < g.Count()
    ensures g.Without(r).Count() <= g.Count()
  {
  }

  /** A pass makes progress exactly for the two update intents: for them it clears at
      least one requested region bit, for any other source it clears none. */
  lemma PassClearsABit(u: UpdateRun, o: UpdateInputs)
    requires u.region.Any()
    ensures KnownIntent(u.evt) ==> UpdatePass(u, o).region.Count() < u.region.Count()
    ensures !KnownIntent(u.evt) ==> UpdatePass(u, o).region == u.region
  {
    var r := PassRegion(u.region);
    ClearingABit(u.region, r);
    ClearingABit(u.region.WithoutRecovery(r), r);
    if KnownIntent(u.evt) && !u.region.recovery.Get(r) {
      assert u.region.active.Get(r) by {
        if r == Rot { assert u.region.recovery == NONE_OF_THEM; }
      }
    }
  }

  /** The passes until no requested region is left. */
  function UpdateLoop(u: UpdateRun, o: UpdateInputs): (u': UpdateRun)
    requires KnownIntent(u.evt) || !u.region.Any()
    ensures !u'.region.Any()
    decreases u.region.Count()
  {
    if !u.region.Any() then u
    else
      PassClearsABit(u, o);
      UpdateLoop(UpdatePass(u, o), o)
  }

  /** The variables at the start of the loop. The PCH mask is applied to the event
      only, after the regions were taken from it. */
  function UpdateStart(p: Persisted, origins: Origins, e: Event): UpdateRun {
    var region := e.intent.regions;
    var toPch := e.source == BMC_UPDATE_INTENT && (region.active.pch || region.recovery.pch);
    UpdateRun(region, NO_REGIONS, true, if toPch then p.status.(bmcToPch := true) else p.status, p.hashes,
              if e.source == PCH_UPDATE_INTENT && region.Any() then e.(intent := e.intent.(regions := OnlyPch(region)))
              else e,
              [], [], origins)
  }

  function OnlyPch(g: Regions): Regions {
    Regions(NONE_OF_THEM.(pch := g.active.pch), NONE_OF_THEM.(pch := g.recovery.pch))
  }

  predicate Ends(e: Event) {
    KnownIntent(e) || !e.intent.regions.Any()
  }

  function RunUpdate(p: Persisted, origins: Origins, e: Event, o: UpdateInputs): UpdateRun
    requires Ends(e)
  {
    UpdateLoop(UpdateStart(p, origins, e), o)
  }

  /** The events an update posts: one UPDATE_FAILED for each pass that ends with a
      failure, then the outcome. */
  function UpdatePosts(u: UpdateRun): seq<Event> {
    u.posts + [u.evt.(flags := u.evt.flags.(bootDone := false), kind := if u.ok then UpdateDone else UpdateFailed)]
  }

  // ----- which images an update writes

  predicate Dispatched(log: seq<Dispatch>, r: RegionId, flash: Flash) {
    Dispatch(r, flash) in log
  }

  /** Whether the rest of the loop will update the given image of region `r`. */
  predicate Expected(u: UpdateRun, r: RegionId, flash: Flash, o: UpdateInputs) {
    match flash
    case Primary => u.region.active.Get(r) || (u.region.recovery.Get(r) && Decide(u, r, o) == UpdateActiveFirst)
    case Secondary => u.region.recovery.Get(r) && Decide(u, r, o) == UpdateRecovery
  }

  /** Region `s` has the same requests, fields and hash in both. */
  predicate SameAt(u: UpdateRun, u': UpdateRun, s: RegionId) {
    && u'.region.active.Get(s) == u.region.active.Get(s)
    && u'.region.recovery.Get(s) == u.region.recovery.Get(s)
    && u'.status.recovery.Get(s) == u.status.recovery.Get(s)
    && u'.hashes.Get(s) == u.hashes.Get(s)
    && u'.origins.Get(s) == u.origins.Get(s)
    && u'.evt.flags == u.evt.flags && u'.evt.source == u.evt.source
  }

  lemma UpdateImageLeavesOthers(u: UpdateRun, r: RegionId, flash: Flash, o: UpdateInputs, s: RegionId)
    requires s != r
    ensures SameAt(u, UpdateImage(u, r, flash, o), s)
  {
  }

  lemma ActivePartLeavesOthers(u: UpdateRun, r: RegionId, requested: bool, o: UpdateInputs, s: RegionId)
    requires s != r
    ensures SameAt(u, ActivePart(u, r, requested, o), s)
  {
    var u1 := u.(region := u.region.Without(r), handled := u.handled.(active := u.handled.active.Set(r, true)));
    UpdateImageLeavesOthers(u1, r, Primary, o, s);
  }

  lemma RecoveryRequestedLeavesOthers(u: UpdateRun, r: RegionId, o: UpdateInputs, s: RegionId)
    requires s != r
    ensures SameAt(u, RecoveryRequested(u, r, o), s)
  {
  }

  lemma RecoveryPassLeavesOthers(u: UpdateRun, r: RegionId, o: UpdateInputs, s: RegionId)
    requires s != r
    ensures SameAt(u, RecoveryPass(u, r, o), s)
  {
    var u1 := RecoveryRequested(u, r, o);
    RecoveryRequestedLeavesOthers(u, r, o, s);
    match Decide(u, r, o)
    case UpdateRecovery => UpdateImageLeavesOthers(u1, r, Secondary, o, s);
    case UpdateActiveFirst => ActivePartLeavesOthers(u1, r, true, o, s);
    case _ =>
  }

  lemma FinishPassLeavesOthers(u: UpdateRun, r: RegionId, s: RegionId)
    requires s != r
    ensures SameAt(u, FinishPass(u, r), s)
  {
  }

  /** A pass leaves what other regions have still to do as it was. */
  lemma PassLeavesOthers(u: UpdateRun, o: UpdateInputs, s: RegionId)
    requires s != PassRegion(u.region)
    ensures SameAt(u, UpdatePass(u, o), s)
  {
    var r := PassRegion(u.region);
    if !KnownIntent(u.evt) {
      FinishPassLeavesOthers(u, r, s);
    } else if u.region.recovery.Get(r) {
      RecoveryPassLeavesOthers(u, r, o, s);
      FinishPassLeavesOthers(RecoveryPass(u, r, o), r, s);
    } else {
      ActivePartLeavesOthers(u, r, false, o, s);
      FinishPassLeavesOthers(ActivePart(u, r, false, o), r, s);
    }
  }

  /** The image updates of one pass. */
  function PassDispatches(u: UpdateRun, o: UpdateInputs): seq<Dispatch> {
    var r := PassRegion(u.region);
    if !u.region.recovery.Get(r) then [Dispatch(r, Primary)]
    else
      match Decide(u, r, o)
      case UpdateRecovery => [Dispatch(r, Secondary)]
      case UpdateActiveFirst => [Dispatch(r, Primary)]
      case _ => []
  }

  lemma PassLog(u: UpdateRun, o: UpdateInputs)
    requires KnownIntent(u.evt)
    ensures UpdatePass(u, o).log == u.log + PassDispatches(u, o)
  {
  }

  /** The requests of the pass's own region after the pass. */
  lemma PassRequests(u: UpdateRun, o: UpdateInputs)
    requires KnownIntent(u.evt)
    ensures var r := PassRegion(u.region); var g := UpdatePass(u, o).region;
            && !g.recovery.Get(r)
            && (g.active.Get(r) <==>
                  u.region.active.Get(r) && u.region.recovery.Get(r) && Decide(u, r, o) != UpdateActiveFirst)
  {
  }

  /** No image is updated twice, and none is left to do that was done. */
  ghost predicate OnceEach(u: UpdateRun, o: UpdateInputs) {
    && (forall i, j :: 0 <= i < j < |u.log| ==> u.log[i] != u.log[j])
    && (forall r, flash :: Dispatched(u.log, r, flash) ==> !Expected(u, r, flash, o))
  }

  /** An image was updated or still will be, before a pass as after it. */
  lemma PassExpected(u: UpdateRun, o: UpdateInputs, r: RegionId, flash: Flash)
    requires KnownIntent(u.evt) && u.region.Any()
    ensures var u' := UpdatePass(u, o);
            && (Expected(u, r, flash, o) <==> Expected(u', r, flash, o) || Dispatch(r, flash) in PassDispatches(u, o))
            && !(Expected(u', r, flash, o) && Dispatch(r, flash) in PassDispatches(u, o))
  {
    var p := PassRegion(u.region);
    PassRequests(u, o);
    if r != p {
      PassLeavesOthers(u, o, r);
    } else if !u.region.recovery.Get(p) {
      PassActiveRequested(u.region);
    }
  }

  lemma PassActiveRequested(g: Regions)
    requires g.Any() && !g.recovery.Get(PassRegion(g))
    ensures g.active.Get(PassRegion(g))
  {
    if PassRegion(g) == Rot {
      assert g.recovery == NONE_OF_THEM;
    }
  }

  lemma PassKeepsOnceEach(u: UpdateRun, o: UpdateInputs)
    requires KnownIntent(u.evt) && u.region.Any() && OnceEach(u, o)
    ensures OnceEach(UpdatePass(u, o), o)
  {
    var u' := UpdatePass(u, o);
    PassLog(u, o);
    forall r, flash ensures Dispatched(u'.log, r, flash) ==> !Expected(u', r, flash, o) {
      PassExpected(u, o, r, flash);
    }
    if PassDispatches(u, o) == [] {
      assert u'.log == u.log;
    } else {
      var d := PassDispatches(u, o)[0];
      assert d == Dispatch(d.region, d.flash) && PassDispatches(u, o) == [d];
      PassExpected(u, o, d.region, d.flash);
      assert !Dispatched(u.log, d.region, d.flash);
      assert u'.log == u.log + [d];
    }
  }

  /** The loop updates exactly the images expected of it, each once. */
  lemma {:induction false} LoopDispatches(u: UpdateRun, o: UpdateInputs)
    requires (KnownIntent(u.evt) || !u.region.Any()) && OnceEach(u, o)
    ensures OnceEach(UpdateLoop(u, o), o)
    ensures forall r, flash :: Dispatched(UpdateLoop(u, o).log, r, flash)
                          <==> Dispatched(u.log, r, flash) || Expected(u, r, flash, o)
    decreases u.region.Count()
  {
    if u.region.Any() {
      var u' := UpdatePass(u, o);
      PassClearsABit(u, o);
      PassKeepsOnceEach(u, o);
      PassLog(u, o);
      LoopDispatches(u', o);
      forall r, flash ensures Dispatched(UpdateLoop(u, o).log, r, flash)
                         <==> Dispatched(u.log, r, flash) || Expected(u, r, flash, o) {
        PassExpected(u, o, r, flash);
      }
    }
  }

  /** The images one update request writes, each at most once. The recovery image of a
      region: exactly when it is requested with the boot-done flag, its update is
      pending, and the staging hash equals the cached one. The active image: when it
      is requested, or its recovery image is and no recovery update is pending. */
  lemma UpdateWrites(p: Persisted, origins: Origins, e: Event, o: UpdateInputs, r: RegionId)
    requires Ends(e)
    ensures var log := RunUpdate(p, origins, e, o).log; var asked := e.intent.regions;
            && (Dispatched(log, r, Secondary) <==>
                asked.recovery.Get(r) && e.flags.bootDone && Pending(p.status.recovery.Get(r))
                && p.hashes.Get(r) == o.staging.Get(r).buffer)
            && (Dispatched(log, r, Primary) <==>
                asked.active.Get(r) || (asked.recovery.Get(r) && !Pending(p.status.recovery.Get(r))))
            && (forall i, j :: 0 <= i < j < |log| ==> log[i] != log[j])
  {
    LoopDispatches(UpdateStart(p, origins, e), o);
  }

  /** A PCH request writes only PCH images when its intent names only those, as the
      mailbox masks it. The loop itself does not mask: it writes whatever is named. */
  lemma PchRequestsWriteOnlyPch(p: Persisted, origins: Origins, e: Event, o: UpdateInputs)
    requires e.source == PCH_UPDATE_INTENT
    ensures e.intent.regions == OnlyPch(e.intent.regions) ==>
              forall d :: d in RunUpdate(p, origins, e, o).log ==> d.region == Pch
    ensures forall r :: e.intent.regions.active.Get(r) ==> Dispatched(RunUpdate(p, origins, e, o).log, r, Primary)
  {
    var log := RunUpdate(p, origins, e, o).log;
    forall r ensures e.intent.regions.active.Get(r) ==> Dispatched(log, r, Primary) {
      UpdateWrites(p, origins, e, o, r);
    }
    if e.intent.regions == OnlyPch(e.intent.regions) {
      forall d | d in log ensures d.region == Pch {
        UpdateWrites(p, origins, e, o, d.region);
        assert d == Dispatch(d.region, d.flash) && (d.flash == Primary || d.flash == Secondary);
        assert Dispatched(log, d.region, Primary) || Dispatched(log, d.region, Secondary);
      }
    }
  }

  // ----- where pending recovery updates come from

  /** Every pending recovery update has an origin whose active update succeeded, and the
      hash cached for it is the one read then. */
  ghost predicate OriginsOk(recovery: PerRegion<nat>, hashes: PerRegion<Hash>, origins: Origins) {
    forall r :: Pending(recovery.Get(r)) ==> OriginOk(origins.Get(r), hashes.Get(r))
  }

  predicate OriginOk(origin: Option<Origin>, hash: Hash) {
    origin.Some? && origin.value.activeOk && origin.value.reading.buffer == hash
  }

  lemma ImageAddsNoPending(s: UpdateStatus, r: RegionId, flash: Flash, outcome: UpdateOutcome)
    ensures var s' := StatusAfterImage(s, r, flash, outcome);
            Pending(s'.recovery.Get(r)) ==> s'.recovery.Get(r) == s.recovery.Get(r)
  {
  }

  lemma ActivePartOrigin(u: UpdateRun, r: RegionId, requested: bool, o: UpdateInputs)
    requires requested ==> u.hashes.Get(r) == o.staging.Get(r).buffer
    requires !requested && Pending(u.status.recovery.Get(r)) ==> OriginOk(u.origins.Get(r), u.hashes.Get(r))
    ensures var u' := ActivePart(u, r, requested, o);
            u'.ok && Pending(u'.status.recovery.Get(r)) ==> OriginOk(u'.origins.Get(r), u'.hashes.Get(r))
  {
    ImageAddsNoPending(u.status, r, Primary, o.primary.Get(r));
  }

  lemma RecoveryPassOrigin(u: UpdateRun, r: RegionId, o: UpdateInputs)
    ensures var u' := RecoveryPass(u, r, o);
            Decide(u, r, o) != Bypass && u'.ok && Pending(u'.status.recovery.Get(r)) ==>
              OriginOk(u'.origins.Get(r), u'.hashes.Get(r))
  {
    var u1 := RecoveryRequested(u, r, o);
    match Decide(u, r, o)
    case UpdateRecovery => ImageAddsNoPending(u1.status, r, Secondary, o.secondary.Get(r));
    case UpdateActiveFirst => ActivePartOrigin(u1, r, true, o);
    case _ =>
  }

  lemma FinishPassOrigin(u: UpdateRun, r: RegionId)
    ensures var u' := FinishPass(u, r);
            && u'.hashes == u.hashes && u'.origins == u.origins
            && (Pending(u'.status.recovery.Get(r)) ==> u.ok && u'.status == u.status)
  {
  }

  lemma PassOwnOrigin(u: UpdateRun, o: UpdateInputs)
    requires KnownIntent(u.evt)
    requires var r := PassRegion(u.region);
             Pending(u.status.recovery.Get(r)) ==> OriginOk(u.origins.Get(r), u.hashes.Get(r))
    ensures var u' := UpdatePass(u, o); var r := PassRegion(u.region);
            Pending(u'.status.recovery.Get(r)) ==> OriginOk(u'.origins.Get(r), u'.hashes.Get(r))
  {
    var r := PassRegion(u.region);
    if u.region.recovery.Get(r) {
      RecoveryPassOrigin(u, r, o);
      FinishPassOrigin(RecoveryPass(u, r, o), r);
    } else {
      ActivePartOrigin(u, r, false, o);
      FinishPassOrigin(ActivePart(u, r, false, o), r);
    }
  }

  lemma {:induction false} LoopKeepsOrigins(u: UpdateRun, o: UpdateInputs)
    requires (KnownIntent(u.evt) || !u.region.Any()) && OriginsOk(u.status.recovery, u.hashes, u.origins)
    ensures var u' := UpdateLoop(u, o); OriginsOk(u'.status.recovery, u'.hashes, u'.origins)
    decreases u.region.Count()
  {
    if u.region.Any() {
      var u' := UpdatePass(u, o);
      PassClearsABit(u, o);
      PassOwnOrigin(u, o);
      forall r ensures Pending(u'.status.recovery.Get(r)) ==> OriginOk(u'.origins.Get(r), u'.hashes.Get(r)) {
        if r != PassRegion(u.region) { PassLeavesOthers(u, o, r); }
      }
      LoopKeepsOrigins(u', o);
    }
  }

  /** A recovery image is written only with the boot-done flag, for a pending update whose
      request's active update succeeded, and when the staging region reads as it did
      then; that comparison means something exactly when both readings succeeded. */
  lemma RecoveryWriteIsSecondPhase(p: Persisted, origins: Origins, e: Event, o: UpdateInputs, r: RegionId)
    requires Ends(e) && OriginsOk(p.status.recovery, p.hashes, origins)
    requires Dispatched(RunUpdate(p, origins, e, o).log, r, Secondary)
    ensures e.flags.bootDone && Pending(p.status.recovery.Get(r))
    ensures var origin := origins.Get(r); var now := o.staging.Get(r);
            && origin.Some? && origin.value.activeOk
            && origin.value.reading.buffer == now.buffer
            && ((origin.value.reading == now && now.ok) <==> (origin.value.reading.ok && now.ok))
  {
    UpdateWrites(p, origins, e, o, r);
  }

  /** The comparison passes for two failed readings as well: both leave a zero buffer,
      and the recovery image is written from a staging region nobody read. */
  lemma FailedReadingsMatch(p: Persisted, origins: Origins, e: Event, o: UpdateInputs)
    requires e.source == BMC_UPDATE_INTENT && e.flags.bootDone && e.intent.regions.recovery.bmc
    requires Pending(p.status.recovery.bmc) && OriginsOk(p.status.recovery, p.hashes, origins)
    requires OriginOk(origins.bmc, p.hashes.bmc) && origins.bmc.value.reading == Reading(false, 0)
    requires o.staging.bmc == Reading(false, 0)
    ensures Dispatched(RunUpdate(p, origins, e, o).log, Bmc, Secondary)
  {
    UpdateWrites(p, origins, e, o, Bmc);
  }

  /** Whether the rest of the loop starts a two-phase recovery update of region `r`. */
  predicate StartsRecovery(u: UpdateRun, r: RegionId, o: UpdateInputs) {
    u.region.recovery.Get(r) && Decide(u, r, o) == UpdateActiveFirst
  }

  /** An origin is recorded exactly when a two-phase update is started, and says what was
      read from the staging region and how the active update ended. */
  lemma {:induction false} LoopOrigins(u: UpdateRun, o: UpdateInputs, r: RegionId)
    requires KnownIntent(u.evt) || !u.region.Any()
    ensures UpdateLoop(u, o).origins.Get(r) ==
              if StartsRecovery(u, r, o) then Some(Origin(o.staging.Get(r), o.primary.Get(r).ok)) else u.origins.Get(r)
    decreases u.region.Count()
  {
    if u.region.Any() {
      var u' := UpdatePass(u, o);
      PassClearsABit(u, o);
      LoopOrigins(u', o, r);
      if r != PassRegion(u.region) {
        PassLeavesOthers(u, o, r);
      } else {
        PassRequests(u, o);
        PassOrigin(u, o);
      }
    }
  }

  lemma PassOrigin(u: UpdateRun, o: UpdateInputs)
    requires KnownIntent(u.evt)
    ensures var r := PassRegion(u.region);
            UpdatePass(u, o).origins.Get(r) ==
              if StartsRecovery(u, r, o) then Some(Origin(o.staging.Get(r), o.primary.Get(r).ok)) else u.origins.Get(r)
  {
  }

  // ----- when a recovery update is pending afterwards

  /** A region with nothing more to do keeps its recovery field. */
  lemma {:induction false} LoopLeavesDone(u: UpdateRun, o: UpdateInputs, r: RegionId)
    requires KnownIntent(u.evt) || !u.region.Any()
    requires !u.region.active.Get(r) && !u.region.recovery.Get(r)
    ensures UpdateLoop(u, o).status.recovery.Get(r) == u.status.recovery.Get(r)
    decreases u.region.Count()
  {
    if u.region.Any() {
      PassClearsABit(u, o);
      assert r != PassRegion(u.region) by {
        if !u.region.recovery.Get(PassRegion(u.region)) { PassActiveRequested(u.region); }
      }
      PassLeavesOthers(u, o, r);
      LoopLeavesDone(UpdatePass(u, o), o, r);
    }
  }

  /** Updating an active image makes no recovery update pending. */
  lemma {:induction false} LoopAddsNoPending(u: UpdateRun, o: UpdateInputs, r: RegionId)
    requires KnownIntent(u.evt) || !u.region.Any()
    requires !u.region.recovery.Get(r) && !Pending(u.status.recovery.Get(r))
    ensures !Pending(UpdateLoop(u, o).status.recovery.Get(r))
    decreases u.region.Count()
  {
    if u.region.Any() {
      PassClearsABit(u, o);
      PassRequests(u, o);
      if r != PassRegion(u.region) {
        PassLeavesOthers(u, o, r);
      } else {
        PassPending(u, o);
      }
      LoopAddsNoPending(UpdatePass(u, o), o, r);
    }
  }

  lemma FinishPassPending(u: UpdateRun, r: RegionId)
    ensures Pending(FinishPass(u, r).status.recovery.Get(r)) <==> u.ok && Pending(u.status.recovery.Get(r))
  {
  }

  lemma ImageKeepsPending(s: UpdateStatus, r: RegionId, outcome: UpdateOutcome)
    ensures Pending(StatusAfterImage(s, r, Primary, outcome).recovery.Get(r)) <==> Pending(s.recovery.Get(r))
  {
  }

  lemma PassPending(u: UpdateRun, o: UpdateInputs)
    requires KnownIntent(u.evt)
    ensures var r := PassRegion(u.region); var after := Pending(UpdatePass(u, o).status.recovery.Get(r));
            && (!u.region.recovery.Get(r) && !Pending(u.status.recovery.Get(r)) ==> !after)
            && (u.region.recovery.Get(r) && Decide(u, r, o) != Bypass ==>
                  (after <==> StartsRecovery(u, r, o) && o.primary.Get(r).ok))
  {
    var r := PassRegion(u.region);
    if u.region.recovery.Get(r) {
      FinishPassPending(RecoveryPass(u, r, o), r);
      var u1 := RecoveryRequested(u, r, o);
      match Decide(u, r, o)
      case UpdateRecovery => ImageAddsNoPending(u1.status, r, Secondary, o.secondary.Get(r));
      case UpdateActiveFirst => ImageKeepsPending(u1.status, r, o.primary.Get(r));
      case _ =>
    } else {
      FinishPassPending(ActivePart(u, r, false, o), r);
      ImageKeepsPending(u.status, r, o.primary.Get(r));
    }
  }

  lemma OwnPassPending(u: UpdateRun, o: UpdateInputs)
    requires var r := PassRegion(u.region);
             KnownIntent(u.evt) && u.region.recovery.Get(r) && Decide(u, r, o) != Bypass
               && KnownIntent(UpdatePass(u, o).evt)
    ensures var r := PassRegion(u.region);
            Pending(UpdateLoop(UpdatePass(u, o), o).status.recovery.Get(r)) <==>
              StartsRecovery(u, r, o) && o.primary.Get(r).ok
  {
    var r := PassRegion(u.region);
    PassRequests(u, o);
    PassPending(u, o);
    if StartsRecovery(u, r, o) {
      LoopLeavesDone(UpdatePass(u, o), o, r);
    } else {
      LoopAddsNoPending(UpdatePass(u, o), o, r);
    }
  }

  lemma DecisionKept(u: UpdateRun, u': UpdateRun, o: UpdateInputs, r: RegionId)
    requires SameAt(u, u', r)
    ensures Decide(u', r, o) == Decide(u, r, o) && StartsRecovery(u', r, o) == StartsRecovery(u, r, o)
    ensures KnownIntent(u'.evt) == KnownIntent(u.evt) && u'.region.recovery.Get(r) == u.region.recovery.Get(r)
  {
  }

  lemma PassKeepsEvent(u: UpdateRun, o: UpdateInputs)
    ensures UpdatePass(u, o).evt.source == u.evt.source && UpdatePass(u, o).evt.intent == u.evt.intent
  {
  }

  lemma {:induction false} LoopPending(u: UpdateRun, o: UpdateInputs, r: RegionId)
    requires KnownIntent(u.evt) && u.region.recovery.Get(r) && Decide(u, r, o) != Bypass
    ensures Pending(UpdateLoop(u, o).status.recovery.Get(r)) <==> StartsRecovery(u, r, o) && o.primary.Get(r).ok
    decreases u.region.Count()
  {
    var u' := UpdatePass(u, o);
    PassClearsABit(u, o);
    if r != PassRegion(u.region) {
      PassLeavesOthers(u, o, r);
      DecisionKept(u, u', o, r);
      LoopPending(u', o, r);
    } else {
      PassKeepsEvent(u, o);
      OwnPassPending(u, o);
    }
  }

  /** A requested recovery update is pending afterwards exactly when it is a new one and
      its active update returned success; one that was pending is over, whatever came of
      it. (A request without the boot-done flag for a pending update is passed over.) */
  lemma PendingAfterUpdate(p: Persisted, origins: Origins, e: Event, o: UpdateInputs, r: RegionId)
    requires KnownIntent(e) && e.intent.regions.recovery.Get(r)
    requires Pending(p.status.recovery.Get(r)) ==> e.flags.bootDone
    ensures Pending(RunUpdate(p, origins, e, o).status.recovery.Get(r))
       <==> !Pending(p.status.recovery.Get(r)) && o.primary.Get(r).ok
  {
    LoopPending(UpdateStart(p, origins, e), o, r);
  }

  // ----- the rest of the status

  /** Some update of a PCH image took over the PCH's staging region. */
  ghost predicate TookStaging(log: seq<Dispatch>, o: UpdateInputs) {
    exists d :: d in log && d.region == Pch && Outcome(d, o).tookStaging
  }

  function Outcome(d: Dispatch, o: UpdateInputs): UpdateOutcome {
    if d.flash == Primary then o.primary.Get(d.region) else o.secondary.Get(d.region)
  }

  /** Since `s` only recovery fields changed, and the mark that the PCH's image is staged by
      the BMC was taken off by an update that took it over. */
  ghost predicate OnlyRecoveryChanged(s: UpdateStatus, u: UpdateRun, o: UpdateInputs) {
    u.status == s.(recovery := u.status.recovery, bmcToPch := s.bmcToPch && !TookStaging(u.log, o))
  }

  lemma ImageChangesRecovery(s: UpdateStatus, u: UpdateRun, u1: UpdateRun, r: RegionId, flash: Flash, o: UpdateInputs)
    requires OnlyRecoveryChanged(s, u, o) && u1.log == u.log
    requires u1.status == u.status.(recovery := u1.status.recovery)
    ensures OnlyRecoveryChanged(s, UpdateImage(u1, r, flash, o), o)
  {
    var log, d := UpdateImage(u1, r, flash, o).log, Dispatch(r, flash);
    assert log == u.log + [d];
    assert forall x :: x in log <==> x in u.log || x == d;
  }

  lemma PassChangesRecovery(s: UpdateStatus, u: UpdateRun, o: UpdateInputs)
    requires KnownIntent(u.evt) && OnlyRecoveryChanged(s, u, o)
    ensures OnlyRecoveryChanged(s, UpdatePass(u, o), o)
  {
    var r := PassRegion(u.region);
    if !u.region.recovery.Get(r) {
      ActiveChangesRecovery(s, u, u, r, false, o);
      FinishChangesRecovery(s, ActivePart(u, r, false, o), r, o);
    } else {
      RecoveryPassChanges(s, u, r, o);
      FinishChangesRecovery(s, RecoveryPass(u, r, o), r, o);
    }
  }

  lemma FinishChangesRecovery(s: UpdateStatus, u: UpdateRun, r: RegionId, o: UpdateInputs)
    requires OnlyRecoveryChanged(s, u, o)
    ensures OnlyRecoveryChanged(s, FinishPass(u, r), o)
  {
  }

  lemma RecoveryPassChanges(s: UpdateStatus, u: UpdateRun, r: RegionId, o: UpdateInputs)
    requires OnlyRecoveryChanged(s, u, o)
    ensures OnlyRecoveryChanged(s, RecoveryPass(u, r, o), o)
  {
    var u1 := RecoveryRequested(u, r, o);
    RequestChangesRecovery(u, r, o);
    ImageChangesRecovery(s, u, u1, r, Secondary, o);
    ActiveChangesRecovery(s, u, u1, r, true, o);
    assert OnlyRecoveryChanged(s, u1, o);
  }

  lemma RequestChangesRecovery(u: UpdateRun, r: RegionId, o: UpdateInputs)
    ensures var u1 := RecoveryRequested(u, r, o);
            u1.log == u.log && u1.status == u.status.(recovery := u1.status.recovery)
  {
  }

  lemma ActiveChangesRecovery(s: UpdateStatus, u: UpdateRun, u1: UpdateRun, r: RegionId, requested: bool,
                              o: UpdateInputs)
    requires OnlyRecoveryChanged(s, u, o) && u1.log == u.log
    requires u1.status == u.status.(recovery := u1.status.recovery)
    ensures OnlyRecoveryChanged(s, ActivePart(u1, r, requested, o), o)
  {
    var u2 := u1.(region := u1.region.Without(r), handled := u1.handled.(active := u1.handled.active.Set(r, true)));
    ImageChangesRecovery(s, u, u2, r, Primary, o);
  }

  lemma {:induction false} LoopChangesRecovery(s: UpdateStatus, u: UpdateRun, o: UpdateInputs)
    requires (KnownIntent(u.evt) || !u.region.Any()) && OnlyRecoveryChanged(s, u, o)
    ensures OnlyRecoveryChanged(s, UpdateLoop(u, o), o)
    decreases u.region.Count()
  {
    if u.region.Any() {
      PassClearsABit(u, o);
      PassChangesRecovery(s, u, o);
      LoopChangesRecovery(s, UpdatePass(u, o), o);
    }
  }

  /** What an update leaves in the status: besides recovery fields only the mark that the BMC
      staged the PCH's image, set when the BMC names one and taken off when it was taken over. */
  lemma StatusAfterUpdate(p: Persisted, origins: Origins, e: Event, o: UpdateInputs)
    requires Ends(e)
    ensures var u := RunUpdate(p, origins, e, o); var g := e.intent.regions;
            u.status == p.status.(recovery := u.status.recovery,
                                  bmcToPch := (p.status.bmcToPch
                                               || (e.source == BMC_UPDATE_INTENT && (g.active.pch || g.recovery.pch)))
                                              && !TookStaging(u.log, o))
  {
    var start := UpdateStart(p, origins, e);
    LoopChangesRecovery(start.status, start, o);
  }

  /** The hash cached for a region is replaced exactly when a two-phase update starts. */
  lemma {:induction false} LoopHashes(u: UpdateRun, o: UpdateInputs, r: RegionId)
    requires KnownIntent(u.evt) || !u.region.Any()
    ensures UpdateLoop(u, o).hashes.Get(r) ==
              if StartsRecovery(u, r, o) then o.staging.Get(r).buffer else u.hashes.Get(r)
    decreases u.region.Count()
  {
    if u.region.Any() {
      var u' := UpdatePass(u, o);
      PassClearsABit(u, o);
      LoopHashes(u', o, r);
      if r != PassRegion(u.region) {
        PassLeavesOthers(u, o, r);
      } else {
        PassRequests(u, o);
        PassHash(u, o);
      }
    }
  }

  lemma PassHash(u: UpdateRun, o: UpdateInputs)
    requires KnownIntent(u.evt)
    ensures var r := PassRegion(u.region);
            UpdatePass(u, o).hashes.Get(r) ==
              if StartsRecovery(u, r, o) then o.staging.Get(r).buffer else u.hashes.Get(r)
  {
  }

  // ----- recovery fields, handled regions, order

  /** The recovery field once region `r`'s requests are done, where it does not depend on the
      result of another region's update: 2 or 4 for a recovery update that is now pending for
      the BMC or the PCH, 5 for one handled. */
  function FieldAfter(u: UpdateRun, r: RegionId, o: UpdateInputs): nat {
    var before, first, second := u.status.recovery.Get(r), o.primary.Get(r), o.secondary.Get(r);
    if !u.region.recovery.Get(r) then if first.ok && !(r == Rot && before == 5) then before else 0
    else if Pending(before) then if second.ok && r != Rot && !second.clearedRecovery then 5 else 0
    else if !first.ok then 0
    else if u.evt.source == PCH_UPDATE_INTENT then 4 else 2
  }

  /** Region `r` has one thing to do, which is done at once. */
  predicate HasOneTask(u: UpdateRun, r: RegionId, o: UpdateInputs) {
    if u.region.recovery.Get(r) then
      StartsRecovery(u, r, o) || (Decide(u, r, o) == UpdateRecovery && !u.region.active.Get(r))
    else u.region.active.Get(r)
  }

  lemma PassField(u: UpdateRun, o: UpdateInputs)
    requires KnownIntent(u.evt) && HasOneTask(u, PassRegion(u.region), o)
    ensures var r := PassRegion(u.region); UpdatePass(u, o).status.recovery.Get(r) == FieldAfter(u, r, o)
  {
  }

  /** A pass that writes no image ends with the result of the pass before: a failure there is
      reported once more and clears this region's field as well. */
  lemma UnwrittenPass(u: UpdateRun, o: UpdateInputs)
    requires KnownIntent(u.evt) && u.region.recovery.Get(PassRegion(u.region))
    requires Pending(u.status.recovery.Get(PassRegion(u.region)))
    requires u.evt.flags.bootDone ==> u.hashes.Get(PassRegion(u.region)) != o.staging.Get(PassRegion(u.region)).buffer
    ensures var (r, u') := (PassRegion(u.region), UpdatePass(u, o));
            && u'.log == u.log && u'.ok == u.ok && |u'.posts| == |u.posts| + (if u.ok then 0 else 1)
            && u'.status.recovery.Get(r) ==
                 (if !u.ok then 0 else if u.evt.flags.bootDone then 5 else u.status.recovery.Get(r))
  {
  }

  lemma {:induction false} LoopField(u: UpdateRun, o: UpdateInputs, r: RegionId)
    requires KnownIntent(u.evt) && HasOneTask(u, r, o)
    ensures UpdateLoop(u, o).status.recovery.Get(r) == FieldAfter(u, r, o)
    decreases u.region.Count()
  {
    var u' := UpdatePass(u, o);
    PassClearsABit(u, o);
    PassKeepsEvent(u, o);
    if r != PassRegion(u.region) {
      PassLeavesOthers(u, o, r);
      DecisionKept(u, u', o, r);
      LoopField(u', o, r);
    } else {
      PassRequests(u, o);
      PassField(u, o);
      LoopLeavesDone(u', o, r);
    }
  }

  /** A region's recovery field after an update: as it was for a region not named; 2 or 4 when a
      recovery update now waits for the second phase; 5, or 0 when the image's update cleared
      it, once the second phase is done; and 0 after any failure. */
  lemma RecoveryFieldAfter(p: Persisted, origins: Origins, e: Event, o: UpdateInputs, r: RegionId)
    requires KnownIntent(e)
    ensures var (active, recovery) := (e.intent.regions.active.Get(r), e.intent.regions.recovery.Get(r));
            var (before, first, second) := (p.status.recovery.Get(r), o.primary.Get(r), o.secondary.Get(r));
            var after := RunUpdate(p, origins, e, o).status.recovery.Get(r); var waits := before == 2 || before == 4;
            && (!active && !recovery ==> after == before)
            && (active && !recovery ==> after == if first.ok && !(r == Rot && before == 5) then before else 0)
            && (recovery && !waits ==>
                  after == if !first.ok then 0 else if e.source == PCH_UPDATE_INTENT then 4 else 2)
            && (recovery && !active && waits && e.flags.bootDone && p.hashes.Get(r) == o.staging.Get(r).buffer ==>
                  after == if second.ok && r != Rot && !second.clearedRecovery then 5 else 0)
  {
    var u := UpdateStart(p, origins, e);
    if HasOneTask(u, r, o) {
      LoopField(u, o, r);
    } else if !u.region.active.Get(r) && !u.region.recovery.Get(r) {
      LoopLeavesDone(u, o, r);
    }
  }

  lemma PassHandled(u: UpdateRun, o: UpdateInputs, s: RegionId)
    requires KnownIntent(u.evt)
    ensures UpdatePass(u, o).handled.recovery.Get(s) <==>
              u.handled.recovery.Get(s)
              || (s == PassRegion(u.region) && u.region.recovery.Get(s) && Decide(u, s, o) != Bypass)
  {
    var r := PassRegion(u.region);
    ActivePartHandled(u, r, false, o);
    RecoveryPassHandled(u, r, o, s);
  }

  lemma ActivePartHandled(u: UpdateRun, r: RegionId, requested: bool, o: UpdateInputs)
    ensures ActivePart(u, r, requested, o).handled.recovery == u.handled.recovery
  {
  }

  lemma RecoveryPassHandled(u: UpdateRun, r: RegionId, o: UpdateInputs, s: RegionId)
    ensures RecoveryPass(u, r, o).handled.recovery.Get(s) <==>
              u.handled.recovery.Get(s) || (s == r && Decide(u, r, o) != Bypass)
  {
    ActivePartHandled(RecoveryRequested(u, r, o), r, true, o);
  }

  /** The recovery images reported as handled are those requested, but for updates that are
      pending and whose request came without the boot-done flag. */
  lemma {:induction false} LoopHandled(u: UpdateRun, o: UpdateInputs, r: RegionId)
    requires KnownIntent(u.evt) || !u.region.Any()
    ensures UpdateLoop(u, o).handled.recovery.Get(r) <==>
              u.handled.recovery.Get(r)
              || (u.region.recovery.Get(r) && (Pending(u.status.recovery.Get(r)) ==> u.evt.flags.bootDone))
    decreases u.region.Count()
  {
    if u.region.Any() {
      var u' := UpdatePass(u, o);
      PassClearsABit(u, o);
      PassHandled(u, o, r);
      LoopHandled(u', o, r);
      if r != PassRegion(u.region) {
        PassLeavesOthers(u, o, r);
      } else {
        PassRequests(u, o);
      }
    }
  }

  function Rank(r: RegionId): nat {
    match r case Bmc => 0 case Pch => 1 case Rot => 2
  }

  predicate HasRequest(g: Regions, r: RegionId) {
    g.active.Get(r) || g.recovery.Get(r)
  }

  /** Images were updated region by region, and what is left to do comes after them. */
  ghost predicate InOrder(u: UpdateRun) {
    && (forall i, j :: 0 <= i <= j < |u.log| ==> Rank(u.log[i].region) <= Rank(u.log[j].region))
    && (forall i, r :: 0 <= i < |u.log| && HasRequest(u.region, r) ==> Rank(u.log[i].region) <= Rank(r))
  }

  lemma PassKeepsOrder(u: UpdateRun, o: UpdateInputs)
    requires KnownIntent(u.evt) && u.region.Any() && InOrder(u)
    ensures InOrder(UpdatePass(u, o))
  {
    PassLog(u, o);
    FirstIsLowest(u.region);
    forall s: RegionId | HasRequest(UpdatePass(u, o).region, s) ensures HasRequest(u.region, s) {
      PassAddsNoRequest(u, o, s);
    }
  }

  lemma PassAddsNoRequest(u: UpdateRun, o: UpdateInputs, s: RegionId)
    requires KnownIntent(u.evt) && HasRequest(UpdatePass(u, o).region, s)
    ensures HasRequest(u.region, s)
  {
    PassRequests(u, o);
    if s != PassRegion(u.region) {
      PassLeavesOthers(u, o, s);
    }
  }

  lemma FirstIsLowest(g: Regions)
    requires g.Any()
    ensures HasRequest(g, PassRegion(g)) && forall r :: HasRequest(g, r) ==> Rank(PassRegion(g)) <= Rank(r)
  {
    if !g.recovery.Get(PassRegion(g)) {
      PassActiveRequested(g);
    }
  }

  lemma {:induction false} LoopKeepsOrder(u: UpdateRun, o: UpdateInputs)
    requires (KnownIntent(u.evt) || !u.region.Any()) && InOrder(u)
    ensures InOrder(UpdateLoop(u, o))
    decreases u.region.Count()
  {
    if u.region.Any() {
      PassClearsABit(u, o);
      PassKeepsOrder(u, o);
      LoopKeepsOrder(UpdatePass(u, o), o);
    }
  }

  /** Images are updated in the order BMC, PCH, ROT. */
  lemma WritesInOrder(p: Persisted, origins: Origins, e: Event, o: UpdateInputs, i: nat, j: nat)
    requires Ends(e) && i <= j < |RunUpdate(p, origins, e, o).log|
    ensures var log := RunUpdate(p, origins, e, o).log;
            && (log[j].region == Bmc ==> log[i].region == Bmc) && (log[i].region == Rot ==> log[j].region == Rot)
  {
    LoopKeepsOrder(UpdateStart(p, origins, e), o);
  }

  // ----- the boot-done request (log_t0_timed_boot_complete_if_ready)

  /** The request posted once all components have booted, if any. */
  function BootCompleteRequest(s: UpdateStatus): Option<Event> {
    if s.recovery.pch == PCH_INTENT_RECOVERY_PENDING then
      Some(BootDoneEvent(PCH_UPDATE_INTENT, NONE_OF_THEM.(pch := true)))
    else
      var bmc := s.recovery.bmc == BMC_INTENT_RECOVERY_PENDING;
      var named := PerRegion(s.recovery.rot == BMC_INTENT_RECOVERY_PENDING, bmc,
                             !bmc && s.recovery.pch == BMC_INTENT_RECOVERY_PENDING);
      if named == NONE_OF_THEM then None else Some(BootDoneEvent(BMC_UPDATE_INTENT, named))
  }

  function BootDoneEvent(source: nat, recovery: PerRegion<bool>): Event {
    Event(UpdateRequested, source, Intent(Regions(NONE_OF_THEM, recovery), false, false),
          NO_FLAGS.(bootDone := true), NO_INTENT)
  }

  /** The first phase is followed by the second: once its active update succeeded, the
      recovery update of region `r` is marked with the side that asked for it, and when all
      components have booted it is asked for again on behalf of that side, after any that the
      PCH has pending, and for the PCH's image after the BMC's. */
  lemma SecondPhaseIsRequested(p: Persisted, origins: Origins, e: Event, o: UpdateInputs, r: RegionId)
    requires KnownIntent(e) && e.intent.regions.recovery.Get(r)
    requires !Pending(p.status.recovery.Get(r)) && o.primary.Get(r).ok
    ensures var s := RunUpdate(p, origins, e, o).status; var next := BootCompleteRequest(s);
            && s.recovery.Get(r) == (if e.source == PCH_UPDATE_INTENT then 4 else 2)
            && (e.source == PCH_UPDATE_INTENT && r == Pch ==>
                  next.Some? && next.value.source == PCH_UPDATE_INTENT && next.value.intent.regions.recovery.pch)
            && (e.source == BMC_UPDATE_INTENT ==>
                  next.Some?
                  && (s.recovery.pch == 4
                      || (next.value.source == BMC_UPDATE_INTENT
                          && (next.value.intent.regions.recovery.Get(r) || (r == Pch && s.recovery.bmc == 2)))))
            && (next.Some? ==> next.value.kind.UpdateRequested? && next.value.flags.bootDone)
  {
    LoopField(UpdateStart(p, origins, e), o, r);
  }

  /** The boot-done request finishes the second phase: it names only pending regions,
      writes no active image, writes a named recovery image exactly when the staging
      hash is unchanged, and leaves none of them pending. */
  lemma BootCompleteFinishes(p: Persisted, origins: Origins, o: UpdateInputs, r: RegionId)
    requires BootCompleteRequest(p.status).Some?
    ensures var e := BootCompleteRequest(p.status).value; var u := RunUpdate(p, origins, e, o);
            && !Dispatched(u.log, r, Primary)
            && (Dispatched(u.log, r, Secondary) <==>
                  e.intent.regions.recovery.Get(r) && p.hashes.Get(r) == o.staging.Get(r).buffer)
            && (e.intent.regions.recovery.Get(r) ==>
                  Pending(p.status.recovery.Get(r)) && !Pending(u.status.recovery.Get(r)))
  {
    var e := BootCompleteRequest(p.status).value;
    UpdateWrites(p, origins, e, o, r);
    if e.intent.regions.recovery.Get(r) { PendingAfterUpdate(p, origins, e, o, r); }
  }
}
