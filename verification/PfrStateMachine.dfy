/** The state machine as the program keeps it: one object updated in place by its
    handlers, each proved against the handler functions of PfrMachine. */
module PfrStateMachine {
  import opened Options
  import opened PfrTypes
  import opened PfrUpdate
  import opened PfrMachine
  import opened PfrRuns

  class PlatformStateMachine {
    const cfg: Config
    var current: State
    var fifo: seq<Event>
    var outbox: seq<Event>
    var bmc: Image
    var pch: Image
    var lastBmc: Image
    var lastPch: Image
    var resetFromUnprovisioned: bool
    var persisted: Persisted
    ghost var latest: Option<Verification>
    ghost var origins: Origins

    ghost function Abstract(): Machine
      reads this
    {
      Machine(current, fifo, outbox, bmc, pch, lastBmc, lastPch, resetFromUnprovisioned, persisted, latest, origins)
    }

    constructor (cfg: Config, persisted: Persisted, ghost origins: Origins)
      ensures Abstract() == PowerOn(persisted, origins) && this.cfg == cfg
      ensures OriginsOk(persisted.status.recovery, persisted.hashes, origins) ==> MachineOk(Abstract())
    {
      this.cfg := cfg;
      current, fifo, outbox := Boot, [NoData(StartStateMachine)], [];
      bmc, pch := Image(true, true, false), Image(true, true, false);
      lastBmc, lastPch := Image(false, false, false), Image(false, false, false);
      resetFromUnprovisioned := false;
      this.persisted := persisted;
      latest := None;
      this.origins := origins;
    }

    method GenerateStateMachineEvent(e: Event)
      modifies this`outbox
      ensures outbox == old(outbox) + [e]
    {
      outbox := outbox + [e];
    }

    /** Posts the outcome of a verification. */
    method PostOutcome(e: Event, cause: Kind)
      requires outbox == []
      modifies this`outbox, this`latest
      ensures Abstract() == PostVerdict(old(Abstract()), cause, e)
    {
      GenerateStateMachineEvent(e);
      latest := Some(Verification(e.kind, cause == RecoveryDone));
    }

    /** `has_pending_update`: clears the requests it takes from the persisted status. */
    method TakePendingUpdate(reset: Flags) returns (found: bool, source: nat, intent: Intent)
      modifies this`persisted
      ensures match HasPendingUpdate(old(persisted).status, reset)
              case NoneAtReset => !found && persisted == old(persisted)
              case AtReset(s, i, rest) =>
                found && source == s && intent == i && persisted == old(persisted).(status := rest)
    {
      var s := persisted.status;
      var t := Taken(NO_REGIONS, false, s);
      found, source, intent := false, BMC_UPDATE_INTENT, NO_INTENT;
      if !s.rotRequested && !s.bmcRequested && !s.pchRequested {
        return;
      }
      if s.pchRequested {
        if !reset.bmcOnlyReset {
          if s.active.pch.code == PCH_INTENT_UPDATE_AT_RESET || s.recovery.pch == PCH_INTENT_UPDATE_AT_RESET {
            source := PCH_UPDATE_INTENT;
          }
          t := TakePch(t);
        } else if !s.rotRequested && !s.bmcRequested {
          return;
        }
      }
      if s.rotRequested {
        t := TakeRot(t);
      }
      if s.bmcRequested {
        t := TakeBmc(t);
      }
      persisted := persisted.(status := t.rest);
      found, intent := true, Intent(t.regions, t.isDynamic, false);
    }

    /** Verifies the images a reset policy covers and keeps the others' last results. */
    method VerifyImages(reset: Flags, f: Findings)
      modifies this`bmc, this`pch, this`lastBmc, this`lastPch
      ensures (bmc, pch) == VerifiedImages(old(Abstract()), reset, f) && lastBmc == bmc && lastPch == pch
    {
      if reset.bmcOnlyReset {
        bmc := bmc.(recoveryOk := f.bmcRecovery, activeOk := f.bmcActive);
        pch := pch.(recoveryOk := lastPch.recoveryOk, activeOk := lastPch.activeOk);
      } else if reset.pchOnlyReset {
        pch := pch.(recoveryOk := f.pchRecovery, activeOk := f.pchActive);
        bmc := bmc.(recoveryOk := lastBmc.recoveryOk, activeOk := lastBmc.activeOk);
      } else {
        bmc := bmc.(recoveryOk := f.bmcRecovery, activeOk := f.bmcActive);
        pch := pch.(recoveryOk := f.pchRecovery, activeOk := f.pchActive);
      }
      if !bmc.activeOk || bmc.recoveryOk {
        bmc := bmc.(restrictActive := false);
      }
      if !pch.activeOk || pch.recoveryOk {
        pch := pch.(restrictActive := false);
      }
      lastBmc, lastPch := bmc, pch;
    }

    method Verify(e: Event, f: Findings)
      requires outbox == []
      modifies this
      ensures Abstract() == DoVerify(old(Abstract()), e, f)
    {
      if !f.provisioned {
        PostOutcome(NoData(VerifyUnprovisioned), e.kind);
      } else if !f.keyManifestsOk {
        PostOutcome(NoData(RecoveryFailed), e.kind);
      } else {
        var found, source, intent := TakePendingUpdate(e.flags);
        if found {
          PostOutcome(Event(UpdateRequested, source, intent, e.flags, e.handled), e.kind);
        } else {
          VerifyImages(e.flags, f);
          if e.kind != RecoveryDone {
            if !pch.activeOk || !bmc.activeOk || !pch.recoveryOk || !bmc.recoveryOk {
              PostOutcome(e.(kind := VerifyFailed), e.kind);
            } else {
              PostOutcome(e.(kind := VerifyDone), e.kind);
            }
          } else if bmc.activeOk {
            PostOutcome(e.(kind := VerifyDone), e.kind);
          } else {
            PostOutcome(e.(kind := RecoveryFailed), e.kind);
          }
        }
      }
    }

    method RecoverBmcImages(o: RecoveryInputs) returns (done: bool, bad: bool)
      modifies this`bmc
      ensures (bmc, done, bad) == RecoverBmc(old(bmc), o)
    {
      done, bad := false, false;
      if !bmc.recoveryOk {
        var (i, r) := RecoverImage(bmc, false, o.bmcFirst);
        bmc, done := i, !r.RecoverFailure?;
      }
      if !bmc.activeOk {
        var (i, r) := RecoverImage(bmc, false, o.bmcSecond);
        bmc, done, bad := i, done || !r.RecoverFailure?, true;
      }
    }

    method RecoverPchImages(o: RecoveryInputs) returns (done: bool, bad: bool)
      modifies this`pch
      ensures (pch, done, bad) == RecoverPch(old(pch), o)
    {
      done, bad := false, false;
      if !pch.recoveryOk {
        pch, done := RecoverImage(pch, true, o.pchFirst).0, true;
      }
      if !pch.activeOk {
        pch, done, bad := RecoverImage(pch, true, o.pchSecond).0, true, true;
      }
    }

    method RecoverBothImages(e: Event, o: RecoveryInputs) returns (done: bool, region: Option<RegionId>)
      modifies this`bmc, this`pch
      ensures RecoveryResult(bmc, pch, done, region) == RecoverImages(cfg, old(bmc), old(pch), e, o)
    {
      done, region := false, None;
      var timeout := BootTimeout(cfg, e);
      if timeout && cfg.bmcCheckpointRecovery && e.source == BMC_EVENT {
        bmc := bmc.(activeOk := false);
      }
      if timeout && cfg.pchCheckpointRecovery && e.source == PCH_EVENT {
        pch := pch.(activeOk := false);
      }
      assert bmc == TimedOut(old(bmc), timeout && cfg.bmcCheckpointRecovery && e.source == BMC_EVENT);
      assert pch == TimedOut(old(pch), timeout && cfg.pchCheckpointRecovery && e.source == PCH_EVENT);
      if timeout || e.kind == VerifyFailed {
        var bmcDone, bmcBad := RecoverBmcImages(o);
        var pchDone, pchBad := RecoverPchImages(o);
        done := bmcDone || pchDone;
        region := if pchBad then Some(Pch) else if bmcBad then Some(Bmc) else None;
      }
    }

    method Recover(e: Event, o: RecoveryInputs)
      requires outbox == []
      modifies this`bmc, this`pch, this`persisted, this`outbox
      ensures Abstract() == DoRecovery(cfg, old(Abstract()), e, o)
    {
      var done, region := RecoverBothImages(e, o);
      persisted := ClearPending(persisted, region);
      if done {
        GenerateStateMachineEvent(o.stray.(kind := RecoveryDone, flags := e.flags));
      } else {
        GenerateStateMachineEvent(NoData(RecoveryFailed));
      }
    }

    /** `handle_recovery_requested` on the handler's variables: whether the pass goes on
        to the active image, and whether the recovery image is to be updated. */
    method HandleRecoveryRequested(r: RegionId, o: UpdateInputs, evt: Event, status: UpdateStatus, region: Regions,
                                   handled: Regions, ghost u: UpdateRun)
      returns (goOn: bool, updateRecovery: bool, status': UpdateStatus, region': Regions, handled': Regions)
      requires u.evt == evt && u.status == status && u.region == region && u.handled == handled
      requires u.hashes == persisted.hashes
      modifies this`persisted
      ensures var u' := RecoveryRequested(u, r, o);
              u' == u.(region := region', handled := handled', status := status', hashes := persisted.hashes)
      ensures persisted == old(persisted).(hashes := persisted.hashes)
      ensures goOn <==> Decide(u, r, o) == UpdateActiveFirst
      ensures updateRecovery <==> Decide(u, r, o) == UpdateRecovery
    {
      goOn, updateRecovery, status', region', handled' := false, false, status, region.WithoutRecovery(r), handled;
      if status.recovery.Get(r) == BMC_INTENT_RECOVERY_PENDING
        || status.recovery.Get(r) == PCH_INTENT_RECOVERY_PENDING {
        if evt.flags.bootDone {
          updateRecovery := persisted.hashes.Get(r) == o.staging.Get(r).buffer;
          handled' := handled.(recovery := handled.recovery.Set(r, true));
          status' := SetRecovery(status, r, RECOVERY_PENDING_REQUEST_HANDLED);
        }
      } else {
        var pending := status.recovery.Get(r);
        if evt.source == BMC_UPDATE_INTENT {
          pending := BMC_INTENT_RECOVERY_PENDING;
        } else if evt.source == PCH_UPDATE_INTENT {
          pending := PCH_INTENT_RECOVERY_PENDING;
        }
        status' := SetRecovery(status, r, pending);
        handled' := handled.(recovery := handled.recovery.Set(r, true));
        persisted := persisted.(hashes := persisted.hashes.Set(r, o.staging.Get(r).buffer));
        goOn := true;
      }
    }

    /** The handler's variables, which `u` gathers. */
    ghost predicate Gathers(u: UpdateRun, region: Regions, handled: Regions, ok: bool, status: UpdateStatus, evt: Event)
      reads this
    {
      && u.region == region && u.handled == handled && u.ok == ok && u.status == status && u.evt == evt
      && u.hashes == persisted.hashes && u.posts == outbox && u.origins == origins
    }

    /** One pass of the update loop. */
    method UpdateOneRegion(region: Regions, handled: Regions, ok: bool, status: UpdateStatus, evt: Event,
                           o: UpdateInputs, ghost u: UpdateRun)
      returns (region': Regions, handled': Regions, ok': bool, status': UpdateStatus, evt': Event)
      requires KnownIntent(evt) && region.Any() && Gathers(u, region, handled, ok, status, evt)
      modifies this`persisted, this`outbox, this`origins
      ensures Gathers(UpdatePass(u, o), region', handled', ok', status', evt')
      ensures persisted == old(persisted).(hashes := persisted.hashes)
    {
      region', handled', ok', status', evt' := region, handled, ok, status, evt;
      var r := PassRegion(region);
      var goOn, updateRecovery := true, false;
      if region.recovery.Get(r) {
        goOn, updateRecovery, status', region', handled' :=
          HandleRecoveryRequested(r, o, evt, status, region, handled, u);
      }
      if updateRecovery {
        ok', status' := o.secondary.Get(r).ok, StatusAfterImage(status', r, Secondary, o.secondary.Get(r));
      } else if goOn {
        region', handled' := region'.Without(r), handled'.(active := handled'.active.Set(r, true));
        ok', status' := o.primary.Get(r).ok, StatusAfterImage(status', r, Primary, o.primary.Get(r));
        if region.recovery.Get(r) {
          origins := origins.Set(r, Some(Origin(o.staging.Get(r), ok')));
        }
      }
      evt' := evt.(handled := Intent(handled', false, false));
      if !ok' {
        status' := SetRecovery(status', r, 0);
        GenerateStateMachineEvent(evt'.(kind := UpdateFailed));
      }
    }

    /** `handle_update_requested`. */
    method HandleUpdateRequested(e: Event, o: UpdateInputs)
      requires Ends(e) && outbox == []
      modifies this`persisted, this`outbox, this`origins
      ensures Abstract() == DoUpdate(old(Abstract()), e, o)
    {
      var region, handled, ok, status, evt := e.intent.regions, NO_REGIONS, true, persisted.status, e;
      if e.source == PCH_UPDATE_INTENT {
        if region.Any() {
          evt := evt.(intent := evt.intent.(regions := OnlyPch(region)));
        }
      } else if e.source == BMC_UPDATE_INTENT {
        if region.active.pch || region.recovery.pch {
          status := status.(bmcToPch := true);
        }
      }
      ghost var start := UpdateStart(persisted, origins, e);
      ghost var u := start;
      while region.Any()
        invariant Gathers(u, region, handled, ok, status, evt)
        invariant KnownIntent(evt) || !region.Any()
        invariant UpdateLoop(u, o) == UpdateLoop(start, o)
        invariant persisted.status == old(persisted.status)
        decreases region.Count()
      {
        PassClearsABit(u, o);
        PassLeavesOthers(u, o, if PassRegion(region) == Bmc then Rot else Bmc);
        region, handled, ok, status, evt := UpdateOneRegion(region, handled, ok, status, evt, o, u);
        u := UpdatePass(u, o);
      }
      evt := evt.(flags := evt.flags.(bootDone := false));
      if ok {
        GenerateStateMachineEvent(evt.(kind := UpdateDone));
      } else {
        GenerateStateMachineEvent(evt.(kind := UpdateFailed));
      }
      persisted := persisted.(status := status);
    }

    /** `handle_update_at_reset`. */
    method StoreForReset(e: Event)
      modifies this`persisted
      ensures Abstract() == HandleUpdateAtReset(old(Abstract()), e)
    {
      var code := BMC_INTENT_UPDATE_AT_RESET;
      var g := e.intent.regions;
      if e.source == PCH_UPDATE_INTENT {
        if !g.active.pch && !g.recovery.pch && !e.intent.dynamicUpdate && !e.intent.atReset {
          return;
        }
        code := PCH_INTENT_UPDATE_AT_RESET;
      }
      var active, recovery := PerRegion(NO_ACTIVE, NO_ACTIVE, NO_ACTIVE), PerRegion(0, 0, 0);
      if g.active.pch {
        active := active.(pch := ActiveField(code, e.intent.dynamicUpdate));
      }
      if g.recovery.pch {
        recovery := recovery.(pch := code);
      }
      if g.active.rot {
        active := active.(rot := ActiveField(BMC_INTENT_UPDATE_AT_RESET, false));
      }
      if g.active.bmc {
        active := active.(bmc := ActiveField(BMC_INTENT_UPDATE_AT_RESET, e.intent.dynamicUpdate));
      }
      if g.recovery.bmc {
        recovery := recovery.(bmc := BMC_INTENT_UPDATE_AT_RESET);
      }
      persisted := persisted.(status := UpdateStatus(
        g.active.rot, g.active.bmc || g.recovery.bmc, g.active.pch || g.recovery.pch,
        active, recovery, persisted.status.bmcToPch, g.active.rot));
    }

    /** `enter_tmin1`. */
    method EnterTminus1(e: Event, provisioned: bool) returns (e': Event)
      modifies this`resetFromUnprovisioned
      ensures (Abstract(), e') == EnterTmin1(old(Abstract()), e, provisioned)
    {
      var bmcOnly, pchOnly := false, false;
      if e.source == BMC_UPDATE_INTENT {
        bmcOnly := e.intent.regions == ONLY_BMC_ACTIVE;
      } else if e.source == PCH_UPDATE_INTENT {
        pchOnly := e.intent.regions == ONLY_PCH_ACTIVE;
      } else if e.kind == ResetDetected {
        if resetFromUnprovisioned {
          resetFromUnprovisioned := false;
          bmcOnly := !provisioned;
        } else {
          bmcOnly := true;
        }
      }
      if bmcOnly {
        e' := e.(flags := e.flags.(bmcOnlyReset := true));
      } else if pchOnly {
        e' := e.(flags := e.flags.(pchOnlyReset := true));
      } else {
        e' := e.(flags := e.flags.(bmcOnlyReset := false, pchOnlyReset := false));
      }
    }

    method EnterState(e: Event, next: State, provisioned: bool) returns (e': Event)
      modifies this`resetFromUnprovisioned, this`current
      ensures (Abstract(), e') == Enter(old(Abstract()), e, next, provisioned)
    {
      e' := e;
      if current.Unprovisioned? && e.kind.ResetDetected? {
        resetFromUnprovisioned := true;
      }
      if next.InTmin1() && !current.InTmin1() {
        e' := EnterTminus1(e, provisioned);
      }
      current := next;
    }

    /** The run action of the current state. */
    method RunState(e: Event, w: World)
      requires outbox == [] && (current.FirmwareUpdate? ==> Ends(e))
      modifies this
      ensures Abstract() == Handle(cfg, old(Abstract()), e, w)
    {
      match current
      case Init =>
        bmc, pch := Image(false, false, false), Image(false, false, false);
        GenerateStateMachineEvent(NoData(if w.secondaryBooted then InitRotSecondaryBooted else InitDone));
      case RotRecovery =>
        persisted := ClearPending(persisted, Some(Rot));
        if !w.eraseOk {
          GenerateStateMachineEvent(NoData(RecoveryFailed));
        }
        GenerateStateMachineEvent(NoData(if w.copyOk then RecoveryDone else RecoveryFailed));
      case FirmwareVerify => Verify(e, w.findings);
      case FirmwareRecovery => Recover(e, w.recovery);
      case FirmwareUpdate => HandleUpdateRequested(e, w.update);
      case Runtime =>
        if e.kind == UpdateRequested {
          StoreForReset(e);
        }
      case Unprovisioned =>
        if e.kind == UpdateRequested {
          var outcome := UpdateOutcome(true, false, false);
          persisted := persisted.(status := StatusAfterImage(persisted.status, Rot, Primary, outcome));
        }
      case _ =>
    }

    /** One turn of the event loop: takes the next event off the queue. */
    method TakeEvent(w: World)
      requires outbox == [] && fifo != []
      requires Route(cfg, current, fifo[0], w.tooManyFailures) == Goto(FirmwareUpdate) ==> Ends(fifo[0])
      requires current.FirmwareUpdate? ==> !Route(cfg, current, fifo[0], w.tooManyFailures).RunCurrent?
      modifies this
      ensures Abstract() == Turn(cfg, old(Abstract()).(fifo := old(fifo)[1..]), old(fifo)[0], w)
    {
      var e := fifo[0];
      fifo := fifo[1..];
      match Route(cfg, current, e, w.tooManyFailures)
      case Drop =>
      case RunCurrent => RunState(e, w);
      case Goto(next) =>
        e := EnterState(e, next, w.findings.provisioned);
        RunState(e, w);
    }

    /** The next event of the running handler reaches the queue. */
    method PostNext()
      requires outbox != []
      modifies this`fifo, this`outbox
      ensures Abstract() == old(Abstract()).(fifo := old(fifo) + [old(outbox)[0]], outbox := old(outbox)[1..])
    {
      fifo, outbox := fifo + [outbox[0]], outbox[1..];
    }

    /** Another thread's event reaches the queue. */
    method Receive(e: Event)
      modifies this`fifo
      ensures Abstract() == old(Abstract()).(fifo := old(fifo) + [e])
    {
      fifo := fifo + [e];
    }

    method Restart()
      modifies this
      ensures Abstract() == PowerOn(old(persisted), old(origins))
    {
      current, fifo, outbox := Boot, [NoData(StartStateMachine)], [];
      bmc, pch := Image(true, true, false), Image(true, true, false);
      lastBmc, lastPch := Image(false, false, false), Image(false, false, false);
      resetFromUnprovisioned := false;
      latest := None;
    }

    /** One step, if it is enabled. A turn of the event loop always ends. */
    method TryStep(s: Step) returns (ok: bool)
      requires MachineOk(Abstract())
      modifies this
      ensures MachineOk(Abstract())
      ensures ok <==> Enabled(cfg, old(Abstract()), s)
      ensures ok ==> Leads(cfg, old(Abstract()), s, Abstract())
      ensures !ok ==> Abstract() == old(Abstract())
    {
      ghost var m := Abstract();
      ok := match s
        case Post => outbox != []
        case Arrive(e) => External(e.kind) || (IsRequest(e) && current.InTzero())
        case Take(_) => outbox == [] && fifo != []
        case Reboot => current.SystemReboot?;
      if !ok {
        return;
      }
      if s.Take? {
        TakeKeepsMachineOk(cfg, m, s.w);
      }
      StepKeepsMachineOk(cfg, m, s);
      match s
      case Post => PostNext();
      case Arrive(e) => Receive(e);
      case Take(w) => TakeEvent(w);
      case Reboot => Restart();
    }

    /** The event loop (`AspeedStateMachine`) against a schedule of other threads' events and
        of what each turn meets, up to the first step that is not enabled: whatever the
        schedule, every turn ends, the queue invariant holds, and RUNTIME is entered only
        with a verified BMC image. `ms` are the states in between. */
    method RunSchedule(schedule: seq<Step>) returns (taken: nat, ghost ms: seq<Machine>)
      requires MachineOk(Abstract())
      modifies this
      ensures MachineOk(Abstract()) && taken <= |schedule| && |ms| == taken + 1
      ensures ms[0] == old(Abstract()) && ms[taken] == Abstract()
      ensures forall i :: 0 <= i < taken ==> Leads(cfg, ms[i], schedule[i], ms[i + 1])
      ensures taken < |schedule| ==> !Enabled(cfg, Abstract(), schedule[taken])
      ensures current.Runtime? ==> latest.Some? && latest.value.verdict.VerifyDone? && bmc.activeOk
    {
      taken, ms := 0, [Abstract()];
      var ok := true;
      while ok && taken < |schedule|
        invariant taken <= |schedule| && |ms| == taken + 1 && MachineOk(Abstract())
        invariant ms[0] == old(Abstract()) && ms[taken] == Abstract()
        invariant forall i :: 0 <= i < taken ==> Leads(cfg, ms[i], schedule[i], ms[i + 1])
        invariant !ok ==> taken < |schedule| && !Enabled(cfg, Abstract(), schedule[taken])
        decreases |schedule| - taken, ok
      {
        ok := TryStep(schedule[taken]);
        if ok {
          taken, ms := taken + 1, ms + [Abstract()];
        }
      }
    }
  }
}
