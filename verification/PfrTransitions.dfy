/** What each event achieves in a run of the platform state machine: the state it leads to
    and what is then posted, in plain terms. */
module PfrTransitions {
  import opened Options
  import opened PfrTypes
  import opened PfrUpdate
  import opened PfrMachine
  import opened PfrHandlers
  import opened PfrRuns

  /** Step `i` of a run takes an event of kind `k` off the queue. */
  ghost predicate Takes(cfg: Config, ms: seq<Machine>, steps: seq<Step>, i: nat, k: Kind) {
    && IsRun(cfg, ms, steps) && i < |steps| && i + 1 < |ms| && steps[i].Take?
    && ms[i].fifo != [] && ms[i].fifo[0].kind == k
  }

  // ----- a verification and its outcome

  /** The image is as it was found; a restriction of its active part is lifted when the
      recovery part is good again or the active part is bad. */
  predicate Checked(i: Image, i': Image, recoveryOk: bool, activeOk: bool) {
    i' == Image(activeOk, recoveryOk, i.restrictActive && activeOk && !recoveryOk)
  }

  /** From `m` to `m'` the event was taken and the platform was verified: exactly one event is
      posted, the outcome. Requests stored for this reset are posted instead, as one request,
      and images outside the scope of the reset keep their last result. */
  predicate NewlyVerified(m: Machine, m': Machine, f: Findings, afterRecovery: bool) {
    && m'.current.FirmwareVerify? && m.fifo != [] && m'.fifo == m.fifo[1..] && |m'.outbox| == 1
    && var (k, scope, s) := (m'.outbox[0].kind, m'.outbox[0].flags, m.persisted.status);
       && m'.latest == Some(Verification(k, afterRecovery))
       && (f.provisioned && f.keyManifestsOk ==> m'.outbox[0].handled == m.fifo[0].handled)
       && if !f.provisioned then k.VerifyUnprovisioned? && m'.bmc == m.bmc && m'.pch == m.pch
          else if !f.keyManifestsOk then k.RecoveryFailed? && m'.bmc == m.bmc && m'.pch == m.pch
          else if s.rotRequested || s.bmcRequested || (s.pchRequested && !scope.bmcOnlyReset) then
            && k.UpdateRequested? && m'.bmc == m.bmc && m'.pch == m.pch
            && HasPendingUpdate(s, scope) == AtReset(m'.outbox[0].source, m'.outbox[0].intent, m'.persisted.status)
          else
            && (if scope.pchOnlyReset && !scope.bmcOnlyReset
                then Checked(m.bmc, m'.bmc, m.lastBmc.recoveryOk, m.lastBmc.activeOk)
                else Checked(m.bmc, m'.bmc, f.bmcRecovery, f.bmcActive))
            && (if scope.bmcOnlyReset then Checked(m.pch, m'.pch, m.lastPch.recoveryOk, m.lastPch.activeOk)
                else Checked(m.pch, m'.pch, f.pchRecovery, f.pchActive))
            && m'.lastBmc == m'.bmc && m'.lastPch == m'.pch && m'.persisted == m.persisted
            && m'.outbox[0].source == m.fifo[0].source && m'.outbox[0].intent == m.fifo[0].intent
            && k == if afterRecovery then (if m'.bmc.activeOk then VerifyDone else RecoveryFailed)
                    else if m'.bmc.activeOk && m'.bmc.recoveryOk && m'.pch.activeOk && m'.pch.recoveryOk then VerifyDone
                    else VerifyFailed
  }

  /** The scope that the outcome carries on, when manifests were good enough to look at images. */
  predicate InScope(m': Machine, f: Findings, scope: Flags) {
    f.provisioned && f.keyManifestsOk && m'.outbox != [] ==> m'.outbox[0].flags == scope
  }

  lemma VerifyIsNew(m: Machine, m1: Machine, e: Event, f: Findings)
    requires m.fifo != [] && m1 == m.(current := FirmwareVerify, fifo := m.fifo[1..],
                                      resetFromUnprovisioned := m1.resetFromUnprovisioned)
    requires e == m.fifo[0].(flags := e.flags)
    ensures NewlyVerified(m, DoVerify(m1, e, f), f, e.kind == RecoveryDone) && InScope(DoVerify(m1, e, f), f, e.flags)
  {
  }

  /** Every way into FIRMWARE_VERIFY verifies the platform. */
  lemma EnteredIsVerified(cfg: Config, m: Machine, w: World, m': Machine)
    requires Leads(cfg, m, Take(w), m') && Route(cfg, m.current, m.fifo[0], w.tooManyFailures) == Goto(FirmwareVerify)
    ensures NewlyVerified(m, m', w.findings, m.fifo[0].kind == RecoveryDone)
    ensures InScope(m', w.findings,
                    Enter(m.(fifo := m.fifo[1..]), m.fifo[0], FirmwareVerify, w.findings.provisioned).1.flags)
  {
    var m0, e := m.(fifo := m.fifo[1..]), m.fifo[0];
    EnterFrame(m0, e, FirmwareVerify, w.findings.provisioned);
    var (m1, e1) := Enter(m0, e, FirmwareVerify, w.findings.provisioned);
    VerifyIsNew(m, m1, e1, w.findings);
  }

  /** A detected reset in T0 is followed by a verification, of the BMC only but for the first
      reset after provisioning. */
  lemma ResetIsVerified(cfg: Config, ms: seq<Machine>, steps: seq<Step>, i: nat)
    requires Takes(cfg, ms, steps, i, ResetDetected) && ms[i].current.InTzero()
    ensures var (m, e, f) := (ms[i], ms[i].fifo[0], steps[i].w.findings);
            var first := m.current.Unprovisioned? || m.resetFromUnprovisioned;
            && NewlyVerified(m, ms[i + 1], f, false)
            && (!KnownIntent(e) ==> !ms[i + 1].resetFromUnprovisioned)
            && (e.flags == NO_FLAGS && !KnownIntent(e) ==>
                  InScope(ms[i + 1], f, NO_FLAGS.(bmcOnlyReset := !(first && f.provisioned))))
  {
    EnteredIsVerified(cfg, ms[i], steps[i].w, ms[i + 1]);
  }

  lemma InitIsVerified(cfg: Config, ms: seq<Machine>, steps: seq<Step>, i: nat)
    requires Takes(cfg, ms, steps, i, InitDone) && ms[i].current.Init?
    ensures NewlyVerified(ms[i], ms[i + 1], steps[i].w.findings, false)
  {
    EnteredIsVerified(cfg, ms[i], steps[i].w, ms[i + 1]);
  }

  /** A recovery that got something done is followed by a verification that asks for a good
      active BMC image only. */
  lemma RecoveryIsVerified(cfg: Config, ms: seq<Machine>, steps: seq<Step>, i: nat)
    requires Takes(cfg, ms, steps, i, RecoveryDone) && ms[i].current.FirmwareRecovery?
    ensures NewlyVerified(ms[i], ms[i + 1], steps[i].w.findings, true)
    ensures InScope(ms[i + 1], steps[i].w.findings, ms[i].fifo[0].flags)
  {
    EnteredIsVerified(cfg, ms[i], steps[i].w, ms[i + 1]);
  }

  lemma FailedUpdateIsVerified(cfg: Config, ms: seq<Machine>, steps: seq<Step>, i: nat)
    requires Takes(cfg, ms, steps, i, UpdateFailed) && ms[i].current.FirmwareUpdate?
    ensures NewlyVerified(ms[i], ms[i + 1], steps[i].w.findings, false)
    ensures InScope(ms[i + 1], steps[i].w.findings, ms[i].fifo[0].flags)
  {
    EnteredIsVerified(cfg, ms[i], steps[i].w, ms[i + 1]);
  }

  /** A finished update is followed by a verification, or by a reboot when it came from the
      BMC and wrote the ROT's active image. */
  lemma FinishedUpdateIsVerified(cfg: Config, ms: seq<Machine>, steps: seq<Step>, i: nat)
    requires Takes(cfg, ms, steps, i, UpdateDone) && ms[i].current.FirmwareUpdate?
    ensures if ms[i].fifo[0].source == BMC_UPDATE_INTENT && ms[i].fifo[0].handled.regions.active.rot then
              ms[i + 1] == ms[i].(current := SystemReboot, fifo := ms[i].fifo[1..])
            else
              && NewlyVerified(ms[i], ms[i + 1], steps[i].w.findings, false)
              && InScope(ms[i + 1], steps[i].w.findings, ms[i].fifo[0].flags)
  {
    if ms[i].fifo[0].source == BMC_UPDATE_INTENT && ms[i].fifo[0].handled.regions.active.rot {
      assert Leads(cfg, ms[i], steps[i], ms[i + 1]);
    } else {
      EnteredIsVerified(cfg, ms[i], steps[i].w, ms[i + 1]);
    }
  }

  // ----- the outcome of a verification

  /** VERIFY_DONE and VERIFY_UNPROVISIONED release the platform. */
  lemma VerdictReleases(cfg: Config, ms: seq<Machine>, steps: seq<Step>, i: nat, k: Kind)
    requires Takes(cfg, ms, steps, i, k) && (k.VerifyDone? || k.VerifyUnprovisioned?) && ms[i].current.FirmwareVerify?
    ensures ms[i + 1] == ms[i].(current := if k.VerifyDone? then Runtime else Unprovisioned, fifo := ms[i].fifo[1..])
  {
    assert Leads(cfg, ms[i], steps[i], ms[i + 1]);
  }

  /** A failure that recovery cannot help locks the platform down: in verification, in
      recovery, in the ROT's own recovery. */
  lemma FailureLocksDown(cfg: Config, ms: seq<Machine>, steps: seq<Step>, i: nat, k: Kind)
    requires Takes(cfg, ms, steps, i, k)
    requires (k.RecoveryFailed?
              && (ms[i].current.FirmwareVerify? || ms[i].current.FirmwareRecovery? || ms[i].current.RotRecovery?))
             || (k.HandshakeFailed? && ms[i].current.FirmwareVerify?)
    ensures ms[i + 1].current.SystemLockdown? && ms[i + 1].fifo == ms[i].fifo[1..] && ms[i + 1].outbox == []
    ensures ms[i + 1].bmc == ms[i].bmc && ms[i + 1].pch == ms[i].pch && ms[i + 1].persisted == ms[i].persisted
  {
    assert Leads(cfg, ms[i], steps[i], ms[i + 1]);
  }

  /** From `m` to `m'` the event was taken and a recovery was carried out on the images `bmc`
      and `pch`: one result is posted in this scope, a failure only when nothing changed; and the pending
      recovery update of the PCH, or else of the BMC, is given up when its active image was bad. */
  predicate Recovers(m: Machine, m': Machine, bmc: Image, pch: Image, scope: Flags) {
    && m'.current.FirmwareRecovery? && m.fifo != [] && m'.fifo == m.fifo[1..] && |m'.outbox| == 1
    && (m'.outbox[0].kind.RecoveryFailed? || (m'.outbox[0].kind.RecoveryDone? && m'.outbox[0].flags == scope))
    && Improved(bmc, m'.bmc) && Improved(pch, m'.pch)
    && (m'.outbox[0].kind.RecoveryFailed? ==> m'.bmc == bmc && m'.pch == pch && pch.recoveryOk && pch.activeOk)
    && m'.persisted.hashes == m.persisted.hashes
    && var s := m.persisted.status;
       m'.persisted.status == if !pch.activeOk then s.(recovery := s.recovery.(pch := 0))
                              else if !bmc.activeOk then s.(recovery := s.recovery.(bmc := 0)) else s
  }

  lemma RecoveryRecovers(cfg: Config, m: Machine, m1: Machine, e: Event, o: RecoveryInputs)
    requires m.fifo != [] && m1.current.FirmwareRecovery? && m1.fifo == m.fifo[1..] && m1.bmc == m.bmc
    requires m1.pch == m.pch && m1.persisted == m.persisted
    requires BootTimeout(cfg, e) || e.kind.VerifyFailed?
    ensures var timeout := BootTimeout(cfg, e);
            Recovers(m, DoRecovery(cfg, m1, e, o),
                     TimedOut(m.bmc, timeout && cfg.bmcCheckpointRecovery && e.source == BMC_EVENT),
                     TimedOut(m.pch, timeout && cfg.pchCheckpointRecovery && e.source == PCH_EVENT), e.flags)
  {
    RecoveryImproves(cfg, m.bmc, m.pch, e, o);
  }

  /** A failed verification is followed by a recovery of both images. */
  lemma FailureIsRecovered(cfg: Config, ms: seq<Machine>, steps: seq<Step>, i: nat)
    requires Takes(cfg, ms, steps, i, VerifyFailed) && ms[i].current.FirmwareVerify?
    ensures Recovers(ms[i], ms[i + 1], ms[i].bmc, ms[i].pch, ms[i].fifo[0].flags)
  {
    assert Leads(cfg, ms[i], steps[i], ms[i + 1]);
    RecoveryImproves(cfg, ms[i].bmc, ms[i].pch, ms[i].fifo[0], steps[i].w.recovery);
  }

  /** An expired boot timer in RUNTIME leads to a recovery, in which the image that did not
      boot counts as bad, exactly when its recovery is built in. */
  lemma TimeoutIsRecovered(cfg: Config, ms: seq<Machine>, steps: seq<Step>, i: nat)
    requires Takes(cfg, ms, steps, i, WdtTimeout) && ms[i].current.Runtime?
    ensures var (m, source) := (ms[i], ms[i].fifo[0].source);
            var scope := m.fifo[0].flags.(bmcOnlyReset := false, pchOnlyReset := false);
            if source == BMC_EVENT && cfg.bmcCheckpointRecovery then
              Recovers(m, ms[i + 1], m.bmc.(activeOk := false), m.pch, scope)
            else if source == PCH_EVENT && cfg.pchCheckpointRecovery then
              Recovers(m, ms[i + 1], m.bmc, m.pch.(activeOk := false), scope)
            else ms[i + 1] == m.(fifo := m.fifo[1..])
  {
    var m := ms[i];
    assert Leads(cfg, m, steps[i], ms[i + 1]);
    var e := Enter(m.(fifo := m.fifo[1..]), m.fifo[0], FirmwareRecovery, steps[i].w.findings.provisioned).1;
    var m1 := Enter(m.(fifo := m.fifo[1..]), m.fifo[0], FirmwareRecovery, steps[i].w.findings.provisioned).0;
    EnterFrame(m.(fifo := m.fifo[1..]), m.fifo[0], FirmwareRecovery, steps[i].w.findings.provisioned);
    if BootTimeout(cfg, e) {
      RecoveryRecovers(cfg, m, m1, e, steps[i].w.recovery);
    }
  }

  // ----- start, and the recovery of the ROT

  lemma StartInitializes(cfg: Config, ms: seq<Machine>, steps: seq<Step>, i: nat)
    requires Takes(cfg, ms, steps, i, StartStateMachine) && ms[i].current.Boot?
    ensures ms[i + 1].current.Init? && ms[i + 1].fifo == ms[i].fifo[1..]
    ensures !ms[i + 1].bmc.activeOk && !ms[i + 1].bmc.recoveryOk && !ms[i + 1].pch.activeOk && !ms[i + 1].pch.recoveryOk
    ensures ms[i + 1].outbox == [NoData(if steps[i].w.secondaryBooted then InitRotSecondaryBooted else InitDone)]
  {
    assert Leads(cfg, ms[i], steps[i], ms[i + 1]);
  }

  /** When the ROT booted from its second image, the active one is copied back; a failed
      erase is reported and the copy is still made. */
  lemma SecondaryIsCopiedBack(cfg: Config, ms: seq<Machine>, steps: seq<Step>, i: nat)
    requires Takes(cfg, ms, steps, i, InitRotSecondaryBooted) && ms[i].current.Init?
    ensures var (w, m') := (steps[i].w, ms[i + 1]);
            var copied := NoData(if w.copyOk then RecoveryDone else RecoveryFailed);
            && m'.current.RotRecovery? && m'.fifo == ms[i].fifo[1..]
            && m'.outbox == (if w.eraseOk then [copied] else [NoData(RecoveryFailed), copied])
            && m'.persisted.status.recovery.rot == 0
  {
    assert Leads(cfg, ms[i], steps[i], ms[i + 1]);
  }

  lemma CopiedBackReboots(cfg: Config, ms: seq<Machine>, steps: seq<Step>, i: nat)
    requires Takes(cfg, ms, steps, i, RecoveryDone) && ms[i].current.RotRecovery?
    ensures ms[i + 1] == ms[i].(current := SystemReboot, fifo := ms[i].fifo[1..])
  {
    assert Leads(cfg, ms[i], steps[i], ms[i + 1]);
  }

  /** The reboot starts over, with what is kept in flash. */
  lemma RebootStartsOver(cfg: Config, ms: seq<Machine>, steps: seq<Step>, i: nat)
    requires IsRun(cfg, ms, steps) && i < |steps| && i + 1 < |ms| && steps[i].Reboot?
    ensures var m' := ms[i + 1];
            && ms[i].current.SystemReboot? && m'.current.Boot?
            && m'.fifo == [NoData(StartStateMachine)] && m'.outbox == []
            && m'.persisted == ms[i].persisted && m'.origins == ms[i].origins && m'.latest.None?
            && m'.lastBmc == Image(false, false, false) && m'.lastPch == Image(false, false, false)
            && !m'.resetFromUnprovisioned
  {
    assert Leads(cfg, ms[i], steps[i], ms[i + 1]);
  }

  // ----- updates

  /** Whether the image update of an entry of the log returned success. */
  predicate Succeeded(o: UpdateInputs, d: Dispatch) {
    if d.flash == Primary then o.primary.Get(d.region).ok else o.secondary.Get(d.region).ok
  }

  /** The last result is that of the last image updated; a failure has been posted exactly
      when some image's update failed; and the handled regions are those written. */
  ghost predicate Reports(u: UpdateRun, o: UpdateInputs) {
    && u.ok == (u.log == [] || Succeeded(o, u.log[|u.log| - 1]))
    && (u.posts == [] <==> forall d :: d in u.log ==> Succeeded(o, d))
    && (forall e :: e in u.posts ==> e.kind.UpdateFailed?)
    && (forall r: RegionId :: u.handled.active.Get(r) <==> Dispatch(r, Primary) in u.log)
  }

  lemma ImageReports(u: UpdateRun, u1: UpdateRun, r: RegionId, flash: Flash, o: UpdateInputs)
    requires Reports(u, o) && u1.posts == u.posts && u1.log == u.log + [Dispatch(r, flash)]
    requires u1.ok == Succeeded(o, Dispatch(r, flash))
    requires forall s: RegionId :: u1.handled.active.Get(s) <==> u.handled.active.Get(s) || (s == r && flash == Primary)
    ensures Reports(FinishPass(u1, r), o)
  {
    var u2, d := FinishPass(u1, r), Dispatch(r, flash);
    assert u2.log[|u2.log| - 1] == d && d in u2.log;
    assert forall x :: x in u2.log <==> x in u.log || x == d;
  }

  lemma IdlePassReports(u: UpdateRun, u1: UpdateRun, r: RegionId, o: UpdateInputs)
    requires Reports(u, o) && u1.posts == u.posts && u1.log == u.log && u1.ok == u.ok
    requires u1.handled.active == u.handled.active
    ensures Reports(FinishPass(u1, r), o)
  {
    if !u.ok {
      assert u.log[|u.log| - 1] in u.log;
    }
  }

  lemma PassReports(u: UpdateRun, o: UpdateInputs)
    requires KnownIntent(u.evt) && Reports(u, o)
    ensures Reports(UpdatePass(u, o), o)
  {
    var r := PassRegion(u.region);
    if !u.region.recovery.Get(r) {
      ImageReports(u, ActivePart(u, r, false, o), r, Primary, o);
    } else {
      match Decide(u, r, o)
      case UpdateRecovery => ImageReports(u, RecoveryPass(u, r, o), r, Secondary, o);
      case UpdateActiveFirst => ImageReports(u, RecoveryPass(u, r, o), r, Primary, o);
      case _ => IdlePassReports(u, RecoveryPass(u, r, o), r, o);
    }
  }

  lemma {:induction false} LoopReports(u: UpdateRun, o: UpdateInputs)
    requires (KnownIntent(u.evt) || !u.region.Any()) && Reports(u, o)
    ensures Reports(UpdateLoop(u, o), o)
    ensures u.region.Any() || u.evt.handled == Intent(u.handled, false, false) ==>
              UpdateLoop(u, o).evt.handled == Intent(UpdateLoop(u, o).handled, false, false)
    decreases u.region.Count()
  {
    if u.region.Any() {
      PassClearsABit(u, o);
      PassReports(u, o);
      PassHandles(u, o);
      LoopReports(UpdatePass(u, o), o);
    }
  }

  lemma PassHandles(u: UpdateRun, o: UpdateInputs)
    requires KnownIntent(u.evt)
    ensures UpdatePass(u, o).evt.handled == Intent(UpdatePass(u, o).handled, false, false)
    ensures KnownIntent(UpdatePass(u, o).evt)
  {
  }

  lemma {:induction false} LoopKeepsEvent(u: UpdateRun, o: UpdateInputs)
    requires KnownIntent(u.evt) || !u.region.Any()
    ensures UpdateLoop(u, o).evt.source == u.evt.source && UpdateLoop(u, o).evt.intent == u.evt.intent
    decreases u.region.Count()
  {
    if u.region.Any() {
      PassClearsABit(u, o);
      PassKeepsEvent(u, o);
      LoopKeepsEvent(UpdatePass(u, o), o);
    }
  }

  /** What an update posts: UPDATE_FAILED events and its result. One UPDATE_DONE is all
      exactly when every image update succeeded; the result is that of the last image
      updated; it is on behalf of the side that asked, without the boot-done flag and, for the
      PCH, without other regions, and names the active images that were written. */
  lemma UpdateReportsOutcome(p: Persisted, origins: Origins, e: Event, o: UpdateInputs)
    requires Ends(e)
    ensures var u := RunUpdate(p, origins, e, o); var posts := UpdatePosts(u);
            && posts != [] && (forall x :: x in posts[..|posts| - 1] ==> x.kind.UpdateFailed?)
            && (|posts| == 1 && posts[0].kind.UpdateDone? <==> forall d :: d in u.log ==> Succeeded(o, d))
            && posts[|posts| - 1].kind
               == (if u.log == [] || Succeeded(o, u.log[|u.log| - 1]) then UpdateDone else UpdateFailed)
            && posts[|posts| - 1].source == e.source
            && posts[|posts| - 1].intent ==
                 (if e.source != PCH_UPDATE_INTENT then e.intent
                  else e.intent.(regions := Regions(NONE_OF_THEM.(pch := e.intent.regions.active.pch),
                                                    NONE_OF_THEM.(pch := e.intent.regions.recovery.pch))))
            && posts[|posts| - 1].flags == e.flags.(bootDone := false)
            && (e.intent.regions.Any() ==> forall r: RegionId ::
                  posts[|posts| - 1].handled.regions.active.Get(r) <==> Dispatched(u.log, r, Primary))
  {
    var start := UpdateStart(p, origins, e);
    var u := RunUpdate(p, origins, e, o);
    LoopReports(start, o);
    LoopKeepsEvent(start, o);
    LoopKeepsScope(start, o);
    var posts := UpdatePosts(u);
    assert posts[..|posts| - 1] == u.posts;
    if |posts| == 1 && posts[0].kind.UpdateDone? {
      assert u.posts == [];
    }
    if forall d :: d in u.log ==> Succeeded(o, d) {
      assert u.log != [] ==> u.log[|u.log| - 1] in u.log;
    }
  }

  /** From `m` to `m'` the event was taken and an update was carried out for it. */
  ghost predicate Updates(cfg: Config, m: Machine, m': Machine, s: Step) {
    && m'.current.FirmwareUpdate? && m.fifo != [] && m'.fifo == m.fifo[1..] && m'.bmc == m.bmc && m'.pch == m.pch
    && RunsUpdate(cfg, m, s) && Enabled(cfg, m, s)
    && m'.outbox == UpdatePosts(UpdateOfStep(cfg, m, s))
  }

  /** A request taken in FIRMWARE_VERIFY is carried out. */
  lemma RequestIsUpdated(cfg: Config, ms: seq<Machine>, steps: seq<Step>, i: nat)
    requires Takes(cfg, ms, steps, i, UpdateRequested) && ms[i].current.FirmwareVerify?
    ensures Updates(cfg, ms[i], ms[i + 1], steps[i])
  {
    assert Leads(cfg, ms[i], steps[i], ms[i + 1]);
  }

  /** A request taken in RUNTIME is carried out, or stored for the next reset when it asks for
      that; after too many failures, or when it names no region, it is dropped. */
  lemma RuntimeRequest(cfg: Config, ms: seq<Machine>, steps: seq<Step>, i: nat)
    requires Takes(cfg, ms, steps, i, UpdateRequested) && ms[i].current.Runtime?
    ensures var (m, m', e) := (ms[i], ms[i + 1], ms[i].fifo[0]);
            if steps[i].w.tooManyFailures || e.intent.regions == Regions(NONE_OF_THEM, NONE_OF_THEM) then
              m' == m.(fifo := m.fifo[1..])
            else if e.intent.atReset then
              m' == m.(fifo := m.fifo[1..], persisted := m.persisted.(status := StatusForReset(m.persisted.status, e)))
            else Updates(cfg, m, m', steps[i])
  {
    assert Leads(cfg, ms[i], steps[i], ms[i + 1]);
  }

  /** The scope that its results carry to the next verification: the BMC or the PCH only, when
      that side asked for just its own active image, and both otherwise. */
  lemma RequestScope(cfg: Config, ms: seq<Machine>, steps: seq<Step>, i: nat, d: Event)
    requires Takes(cfg, ms, steps, i, UpdateRequested) && ms[i].current.Runtime? && ms[i + 1].current.FirmwareUpdate?
    requires NoScope(ms[i].fifo[0].flags) && d in ms[i + 1].outbox
    ensures var (e, none) := (ms[i].fifo[0], PerRegion(false, false, false));
            && (d.flags.bmcOnlyReset <==>
                  e.source == BMC_UPDATE_INTENT && e.intent.regions == Regions(PerRegion(false, true, false), none))
            && (d.flags.pchOnlyReset <==>
                  e.source == PCH_UPDATE_INTENT && e.intent.regions == Regions(PerRegion(false, false, true), none))
  {
    var (m, w) := (ms[i], steps[i].w);
    assert Leads(cfg, m, steps[i], ms[i + 1]);
    var (m1, e1) := Enter(m.(fifo := m.fifo[1..]), m.fifo[0], FirmwareUpdate, w.findings.provisioned);
    UpdateKeepsScope(m1, e1, w.update, d);
  }

  /** An unprovisioned platform takes only requests for the ROT's active image, and stays
      where it is. */
  lemma UnprovisionedRequest(cfg: Config, ms: seq<Machine>, steps: seq<Step>, i: nat)
    requires Takes(cfg, ms, steps, i, UpdateRequested) && ms[i].current.Unprovisioned?
    ensures var (m, m') := (ms[i], ms[i + 1]); var s := m.persisted.status;
            m' == m.(fifo := m.fifo[1..], persisted := m'.persisted) && m'.persisted.hashes == m.persisted.hashes
            && m'.persisted.status ==
                 if m.fifo[0].intent.regions.active.rot && s.recovery.rot == RECOVERY_PENDING_REQUEST_HANDLED then
                   s.(recovery := s.recovery.(rot := 0)) else s
  {
    assert Leads(cfg, ms[i], steps[i], ms[i + 1]);
  }

  // ----- everything else

  /** The events that a state answers to. */
  predicate Answers(s: State, k: Kind) {
    match s
    case Boot => k.StartStateMachine?
    case Init => k.InitDone? || k.InitRotSecondaryBooted?
    case RotRecovery => k.RecoveryDone? || k.RecoveryFailed?
    case FirmwareVerify =>
      k.VerifyDone? || k.VerifyFailed? || k.VerifyUnprovisioned? || k.UpdateRequested? || k.RecoveryFailed?
        || k.HandshakeFailed?
    case FirmwareRecovery => k.RecoveryDone? || k.RecoveryFailed?
    case FirmwareUpdate => k.UpdateDone? || k.UpdateFailed?
    case Runtime => k.ResetDetected? || k.UpdateRequested? || k.WdtTimeout?
    case Unprovisioned => k.ResetDetected? || k.UpdateRequested?
    case _ => false
  }

  /** Any other event is only taken off the queue. */
  lemma OtherEventsAreDropped(cfg: Config, ms: seq<Machine>, steps: seq<Step>, i: nat, k: Kind)
    requires Takes(cfg, ms, steps, i, k) && !Answers(ms[i].current, k)
    ensures ms[i + 1] == ms[i].(fifo := ms[i].fifo[1..])
  {
    assert Leads(cfg, ms[i], steps[i], ms[i + 1]);
  }
}
