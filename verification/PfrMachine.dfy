/** The platform state machine: its event queue, its handlers as functions of the
    machine and of what the hardware and the images turn out to be, and its steps. */
module PfrMachine {
  import opened Options
  import opened PfrTypes
  import opened PfrUpdate

  /** The outcome of a verification, and whether it followed a recovery. */
  datatype Verification = Verification(verdict: Kind, afterRecovery: bool)

  /** `fifo` is the event queue; `outbox` holds the events that the running handler
      has still to post, so that other threads' events may come between them.
      `latest` and `origins` are bookkeeping for the properties: the latest
      verification and the origin of each pending recovery update. */
  datatype Machine = Machine(
    current: State, fifo: seq<Event>, outbox: seq<Event>,
    bmc: Image, pch: Image, lastBmc: Image, lastPch: Image,
    resetFromUnprovisioned: bool, persisted: Persisted,
    latest: Option<Verification>, origins: Origins)

  /** Build options: which boot timers trigger a recovery. */
  datatype Config = Config(bmcCheckpointRecovery: bool, pchCheckpointRecovery: bool)

  // ----- verification (handle_image_verification and the key manifest check)

  /** What verification finds: provisioning, key manifests, the four images. */
  datatype Findings = Findings(provisioned: bool, keyManifestsOk: bool,
                               bmcRecovery: bool, bmcActive: bool, pchRecovery: bool, pchActive: bool)

  /** Update-at-reset requests left in the persisted status: the update they ask
      for and the status with them cleared. */
  datatype AtReset = NoneAtReset | AtReset(source: nat, intent: Intent, rest: UpdateStatus)

  predicate AtResetCode(code: nat) {
    code == PCH_INTENT_UPDATE_AT_RESET || code == BMC_INTENT_UPDATE_AT_RESET
  }

  /** The regions a pending request of one kind asks for. */
  function RequestedRot(s: UpdateStatus): Regions {
    Regions(NONE_OF_THEM.(rot := s.active.rot.code == BMC_INTENT_UPDATE_AT_RESET),
            NONE_OF_THEM.(rot := s.recovery.rot == BMC_INTENT_UPDATE_AT_RESET))
  }

  function RequestedBmc(s: UpdateStatus): Regions {
    Regions(NONE_OF_THEM.(bmc := s.active.bmc.code == BMC_INTENT_UPDATE_AT_RESET),
            NONE_OF_THEM.(bmc := s.recovery.bmc == BMC_INTENT_UPDATE_AT_RESET))
  }

  function RequestedPch(s: UpdateStatus): Regions {
    Regions(NONE_OF_THEM.(pch := AtResetCode(s.active.pch.code)), NONE_OF_THEM.(pch := AtResetCode(s.recovery.pch)))
  }

  function Either(a: PerRegion<bool>, b: PerRegion<bool>): PerRegion<bool> {
    PerRegion(a.rot || b.rot, a.bmc || b.bmc, a.pch || b.pch)
  }

  function Join(a: Regions, b: Regions): Regions {
    Regions(Either(a.active, b.active), Either(a.recovery, b.recovery))
  }

  /** A request being collected: its regions, its dynamic flag, and the status with the
      requests taken so far cleared. */
  datatype Taken = Taken(regions: Regions, isDynamic: bool, rest: UpdateStatus)

  function TakePch(t: Taken): Taken {
    var s := t.rest;
    Taken(Join(t.regions, RequestedPch(s)), t.isDynamic || s.active.pch.dynamicUpdate,
          s.(pchRequested := false, active := s.active.(pch := NO_ACTIVE)))
  }

  function TakeRot(t: Taken): Taken {
    var s := t.rest;
    Taken(Join(t.regions, RequestedRot(s)), t.isDynamic,
          s.(rotRequested := false, active := s.active.(rot := NO_ACTIVE), recovery := s.recovery.(rot := 0)))
  }

  function TakeBmc(t: Taken): Taken {
    var s := t.rest;
    Taken(Join(t.regions, RequestedBmc(s)), t.isDynamic || s.active.bmc.dynamicUpdate,
          s.(bmcRequested := false, active := s.active.(bmc := NO_ACTIVE)))
  }

  /** `has_pending_update`: the update covers exactly the images marked for it whose
      request is taken, and of the status just these requests are cleared; a BMC-only reset
      leaves the PCH request for later. */
  function HasPendingUpdate(s: UpdateStatus, reset: Flags): (a: AtReset)
    ensures a.AtReset? <==> s.rotRequested || s.bmcRequested || (s.pchRequested && !reset.bmcOnlyReset)
    ensures a.AtReset? ==>
              var g := a.intent.regions;
              && (g.active.bmc <==> s.bmcRequested && s.active.bmc.code == BMC_INTENT_UPDATE_AT_RESET)
              && (g.recovery.bmc <==> s.bmcRequested && s.recovery.bmc == BMC_INTENT_UPDATE_AT_RESET)
              && (g.active.pch <==> s.pchRequested && !reset.bmcOnlyReset && AtResetCode(s.active.pch.code))
              && (g.recovery.pch <==> s.pchRequested && !reset.bmcOnlyReset && AtResetCode(s.recovery.pch))
              && (g.active.rot <==> s.rotRequested && s.active.rot.code == BMC_INTENT_UPDATE_AT_RESET)
              && (g.recovery.rot <==> s.rotRequested && s.recovery.rot == BMC_INTENT_UPDATE_AT_RESET)
              && (var later := s.pchRequested && reset.bmcOnlyReset; var takePch := s.pchRequested && !later;
                  a.rest == s.(rotRequested := false, bmcRequested := false, pchRequested := later,
                               active := PerRegion(if s.rotRequested then NO_ACTIVE else s.active.rot,
                                                   if s.bmcRequested then NO_ACTIVE else s.active.bmc,
                                                   if takePch then NO_ACTIVE else s.active.pch),
                               recovery := s.recovery.(rot := if s.rotRequested then 0 else s.recovery.rot)))
              && (a.source == PCH_UPDATE_INTENT <==>
                    s.pchRequested && !reset.bmcOnlyReset
                    && (s.active.pch.code == PCH_INTENT_UPDATE_AT_RESET
                         || s.recovery.pch == PCH_INTENT_UPDATE_AT_RESET))
              && (a.source == PCH_UPDATE_INTENT || a.source == BMC_UPDATE_INTENT)
              && (a.intent.dynamicUpdate <==>
                    (s.pchRequested && !reset.bmcOnlyReset && s.active.pch.dynamicUpdate)
                    || (s.bmcRequested && s.active.bmc.dynamicUpdate))
              && !a.intent.atReset
  {
    var takePch := s.pchRequested && !reset.bmcOnlyReset;
    if !takePch && !s.rotRequested && !s.bmcRequested then NoneAtReset
    else
      var fromPch := s.active.pch.code == PCH_INTENT_UPDATE_AT_RESET || s.recovery.pch == PCH_INTENT_UPDATE_AT_RESET;
      var t0 := Taken(NO_REGIONS, false, s);
      var t1 := if takePch then TakePch(t0) else t0;
      var t2 := if s.rotRequested then TakeRot(t1) else t1;
      var t := if s.bmcRequested then TakeBmc(t2) else t2;
      AtReset(if takePch && fromPch then PCH_UPDATE_INTENT else BMC_UPDATE_INTENT,
              Intent(t.regions, t.isDynamic, false), t.rest)
  }

  function Verified(i: Image, recoveryOk: bool, activeOk: bool): Image {
    var i' := i.(recoveryOk := recoveryOk, activeOk := activeOk);
    if !activeOk || recoveryOk then i'.(restrictActive := false) else i'
  }

  /** The images after verification under a reset policy: a BMC-only or PCH-only reset
      keeps the other image's last result. */
  function VerifiedImages(m: Machine, reset: Flags, f: Findings): (Image, Image) {
    if reset.bmcOnlyReset then
      (Verified(m.bmc, f.bmcRecovery, f.bmcActive), Verified(m.pch, m.lastPch.recoveryOk, m.lastPch.activeOk))
    else if reset.pchOnlyReset then
      (Verified(m.bmc, m.lastBmc.recoveryOk, m.lastBmc.activeOk), Verified(m.pch, f.pchRecovery, f.pchActive))
    else
      (Verified(m.bmc, f.bmcRecovery, f.bmcActive), Verified(m.pch, f.pchRecovery, f.pchActive))
  }

  predicate AllGood(bmc: Image, pch: Image) {
    pch.activeOk && bmc.activeOk && pch.recoveryOk && bmc.recoveryOk
  }

  /** The event a verification posts when images were verified. */
  function Verdict(afterRecovery: bool, bmc: Image, pch: Image): Kind {
    if !afterRecovery then if AllGood(bmc, pch) then VerifyDone else VerifyFailed
    else if bmc.activeOk then VerifyDone
    else RecoveryFailed
  }

  function PostVerdict(m: Machine, cause: Kind, e: Event): Machine {
    m.(outbox := [e], latest := Some(Verification(e.kind, cause == RecoveryDone)))
  }

  /** `do_verify`: posts exactly one event, the outcome of this verification. */
  function DoVerify(m: Machine, e: Event, f: Findings): Machine {
    if !f.provisioned then PostVerdict(m, e.kind, NoData(VerifyUnprovisioned))
    else if !f.keyManifestsOk then PostVerdict(m, e.kind, NoData(RecoveryFailed))
    else
      match HasPendingUpdate(m.persisted.status, e.flags)
      case AtReset(source, intent, rest) =>
        PostVerdict(m.(persisted := m.persisted.(status := rest)), e.kind,
                    Event(UpdateRequested, source, intent, e.flags, e.handled))
      case NoneAtReset =>
        var (bmc, pch) := VerifiedImages(m, e.flags, f);
        PostVerdict(m.(bmc := bmc, pch := pch, lastBmc := bmc, lastPch := pch), e.kind,
                    e.(kind := Verdict(e.kind == RecoveryDone, bmc, pch)))
  }

  // ----- recovery

  datatype Recovered = RecoverSuccess | RecoverFailure | RecoverVerifyRecovery | RecoverVerifyActive

  /** What `recover_image` meets: reads and copies that may fail, the staged image. */
  datatype RecoverInputs = RecoverInputs(addressOk: bool, stagingOk: bool, stagingCopied: bool,
                                         stagedMatchesActive: bool, recoveryCopied: bool, activeCopied: bool)

  /** `recover_image`: the recovery matrix over active, recovery and staging. */
  function RecoverImage(i: Image, isPch: bool, o: RecoverInputs): (Image, Recovered) {
    if !o.addressOk then (i, RecoverFailure)
    else if !i.recoveryOk then
      if !o.stagingOk && i.activeOk then (i.(restrictActive := true), RecoverVerifyActive)
      else if !o.stagingOk && !(isPch && o.stagingCopied) then (i, RecoverFailure)
      else if i.activeOk && !o.stagedMatchesActive then (i.(restrictActive := true), RecoverVerifyActive)
      else if !o.recoveryCopied then (i, RecoverFailure)
      else (i.(recoveryOk := true), RecoverVerifyRecovery)
    else if !i.activeOk then
      if !o.activeCopied then (i, RecoverFailure) else (i.(activeOk := true), RecoverVerifyActive)
    else (i, RecoverSuccess)
  }

  /** `stray` stands for the data bytes that the done event leaves uninitialised. */
  datatype RecoveryInputs = RecoveryInputs(bmcFirst: RecoverInputs, bmcSecond: RecoverInputs,
                                           pchFirst: RecoverInputs, pchSecond: RecoverInputs, stray: Event)

  /** The BMC part of a recovery: the image after it, whether it got anything done, and
      whether the active image was to be recovered. */
  function RecoverBmc(i: Image, o: RecoveryInputs): (Image, bool, bool) {
    var (i1, r1) := if i.recoveryOk then (i, RecoverFailure) else RecoverImage(i, false, o.bmcFirst);
    var (i2, r2) := if i1.activeOk then (i1, RecoverFailure) else RecoverImage(i1, false, o.bmcSecond);
    (i2, !r1.RecoverFailure? || !r2.RecoverFailure?, !i1.activeOk)
  }

  /** The PCH part: every attempt counts as done, whatever its result. */
  function RecoverPch(i: Image, o: RecoveryInputs): (Image, bool, bool) {
    var i1 := if i.recoveryOk then i else RecoverImage(i, true, o.pchFirst).0;
    var i2 := if i1.activeOk then i1 else RecoverImage(i1, true, o.pchSecond).0;
    (i2, !i.recoveryOk || !i1.activeOk, !i1.activeOk)
  }

  predicate BootTimeout(cfg: Config, e: Event) {
    e.kind == WdtTimeout && (cfg.bmcCheckpointRecovery || cfg.pchCheckpointRecovery)
  }

  /** An image after its boot timer expired: its active image counts as bad. */
  function TimedOut(i: Image, expired: bool): Image {
    if expired then i.(activeOk := false) else i
  }

  /** What a recovery makes of both images, whether it got anything done, and the region
      whose pending recovery update it ends. */
  datatype RecoveryResult = RecoveryResult(bmc: Image, pch: Image, done: bool, region: Option<RegionId>)

  function RecoverImages(cfg: Config, bmc: Image, pch: Image, e: Event, o: RecoveryInputs): RecoveryResult {
    var timeout := BootTimeout(cfg, e);
    if !timeout && e.kind != VerifyFailed then RecoveryResult(bmc, pch, false, None)
    else
      var bmcExpired := timeout && cfg.bmcCheckpointRecovery && e.source == BMC_EVENT;
      var pchExpired := timeout && cfg.pchCheckpointRecovery && e.source == PCH_EVENT;
      var (bmc', bmcDone, bmcBad) := RecoverBmc(TimedOut(bmc, bmcExpired), o);
      var (pch', pchDone, pchBad) := RecoverPch(TimedOut(pch, pchExpired), o);
      RecoveryResult(bmc', pch', bmcDone || pchDone, if pchBad then Some(Pch) else if bmcBad then Some(Bmc) else None)
  }

  /** `handle_recovery`. */
  function DoRecovery(cfg: Config, m: Machine, e: Event, o: RecoveryInputs): Machine {
    var r := RecoverImages(cfg, m.bmc, m.pch, e, o);
    m.(bmc := r.bmc, pch := r.pch, persisted := ClearPending(m.persisted, r.region),
       outbox := [if r.done then o.stray.(kind := RecoveryDone, flags := e.flags) else NoData(RecoveryFailed)])
  }

  /** `clear_pending_recovery_update`. */
  function ClearPending(p: Persisted, region: Option<RegionId>): Persisted {
    if region.None? then p else p.(status := SetRecovery(p.status, region.value, 0))
  }

  /** `do_rot_recovery`: a failed erase posts its failure and still goes on. */
  function DoRotRecovery(m: Machine, eraseOk: bool, copyOk: bool): Machine {
    var copied := NoData(if copyOk then RecoveryDone else RecoveryFailed);
    m.(persisted := ClearPending(m.persisted, Some(Rot)),
       outbox := if eraseOk then [copied] else [NoData(RecoveryFailed), copied])
  }

  // ----- the other handlers

  function DoUpdate(m: Machine, e: Event, o: UpdateInputs): Machine
    requires Ends(e)
  {
    var u := RunUpdate(m.persisted, m.origins, e, o);
    m.(persisted := Persisted(u.status, u.hashes), origins := u.origins, outbox := UpdatePosts(u))
  }

  /** `handle_update_at_reset`: the latest request replaces all earlier ones. */
  function StatusForReset(s: UpdateStatus, e: Event): UpdateStatus {
    var g := e.intent.regions;
    var fromPch := e.source == PCH_UPDATE_INTENT;
    if fromPch && !g.active.pch && !g.recovery.pch && !e.intent.dynamicUpdate && !e.intent.atReset then s
    else
      var code := if fromPch then PCH_INTENT_UPDATE_AT_RESET else BMC_INTENT_UPDATE_AT_RESET;
      UpdateStatus(
        g.active.rot, g.active.bmc || g.recovery.bmc, g.active.pch || g.recovery.pch,
        PerRegion(if g.active.rot then ActiveField(BMC_INTENT_UPDATE_AT_RESET, false) else NO_ACTIVE,
                  if g.active.bmc then ActiveField(BMC_INTENT_UPDATE_AT_RESET, e.intent.dynamicUpdate) else NO_ACTIVE,
                  if g.active.pch then ActiveField(code, e.intent.dynamicUpdate) else NO_ACTIVE),
        PerRegion(0, if g.recovery.bmc then BMC_INTENT_UPDATE_AT_RESET else 0, if g.recovery.pch then code else 0),
        s.bmcToPch, g.active.rot)
  }

  /** What a request for the next reset stores is what the next full verification asks
      for: the same source and regions, but for the ROT recovery image, which is not
      supported, and for a dynamic flag without an active BMC or PCH image. */
  lemma AtResetRoundTrip(s: UpdateStatus, e: Event, reset: Flags)
    requires KnownIntent(e) && !reset.bmcOnlyReset
    requires e.source == PCH_UPDATE_INTENT ==> e.intent.regions == OnlyPch(e.intent.regions)
    requires e.intent.atReset
    ensures var g := e.intent.regions.WithoutRecovery(Rot);
            match HasPendingUpdate(StatusForReset(s, e), reset)
            case NoneAtReset => !g.Any()
            case AtReset(source, intent, rest) =>
              g.Any() && source == e.source && intent.regions == g
              && (intent.dynamicUpdate <==> e.intent.dynamicUpdate && (g.active.bmc || g.active.pch))
  {
    assert StatusForReset(s, e).rotRequested == e.intent.regions.active.rot;
  }

  /** The rest of the status then: besides requests only the mark of a ROT update is written;
      a PCH request that names no PCH image, is not dynamic and not for the next reset leaves
      the status as it is. */
  lemma StoredForReset(s: UpdateStatus, e: Event)
    ensures var (t, g) := (StatusForReset(s, e), e.intent.regions);
            if e.source == PCH_UPDATE_INTENT && !g.active.pch && !g.recovery.pch && !e.intent.dynamicUpdate
               && !e.intent.atReset
            then t == s
            else
              && t.bmcToPch == s.bmcToPch && t.rotRecovery == g.active.rot && t.recovery.rot == 0
              && (t.rotRequested <==> g.active.rot) && (t.bmcRequested <==> g.active.bmc || g.recovery.bmc)
              && (t.pchRequested <==> g.active.pch || g.recovery.pch)
  {
  }

  function HandleUpdateAtReset(m: Machine, e: Event): Machine {
    m.(persisted := m.persisted.(status := StatusForReset(m.persisted.status, e)))
  }

  /** `handle_provision_image`: a ROT update, whose only trace here is a handled
      recovery field that is cleared. */
  function ProvisionImage(m: Machine): Machine {
    m.(persisted := m.persisted.(status := StatusAfterImage(m.persisted.status, Rot, Primary,
                                                           UpdateOutcome(true, false, false))))
  }

  function DoInit(m: Machine, secondaryBooted: bool): Machine {
    m.(bmc := Image(false, false, false), pch := Image(false, false, false),
       outbox := [NoData(if secondaryBooted then InitRotSecondaryBooted else InitDone)])
  }

  // ----- transitions

  /** What one turn of the state machine may meet. */
  datatype World = World(secondaryBooted: bool, findings: Findings, recovery: RecoveryInputs, update: UpdateInputs,
                         eraseOk: bool, copyOk: bool, tooManyFailures: bool)

  const ONLY_BMC_ACTIVE := Regions(NONE_OF_THEM.(bmc := true), NONE_OF_THEM)
  const ONLY_PCH_ACTIVE := Regions(NONE_OF_THEM.(pch := true), NONE_OF_THEM)

  /** `enter_tmin1`: decides the reset scope and writes it into the event. */
  function EnterTmin1(m: Machine, e: Event, provisioned: bool): (Machine, Event) {
    var fromReset := e.source != BMC_UPDATE_INTENT && e.source != PCH_UPDATE_INTENT && e.kind == ResetDetected;
    var bmcOnly := (e.source == BMC_UPDATE_INTENT && e.intent.regions == ONLY_BMC_ACTIVE)
                   || (fromReset && (m.resetFromUnprovisioned ==> !provisioned));
    var pchOnly := e.source == PCH_UPDATE_INTENT && e.intent.regions == ONLY_PCH_ACTIVE;
    (if fromReset then m.(resetFromUnprovisioned := false) else m,
     if bmcOnly then e.(flags := e.flags.(bmcOnlyReset := true))
     else if pchOnly then e.(flags := e.flags.(pchOnlyReset := true))
     else e.(flags := e.flags.(bmcOnlyReset := false, pchOnlyReset := false)))
  }

  /** What the event loop does with an event: go to a state, run the current one, or
      drop the event. */
  datatype Action = Goto(next: State) | RunCurrent | Drop

  function Route(cfg: Config, s: State, e: Event, tooManyFailures: bool): Action {
    match (s, e.kind)
    case (Boot, StartStateMachine) => Goto(Init)
    case (Init, InitDone) => Goto(FirmwareVerify)
    case (Init, InitRotSecondaryBooted) => Goto(RotRecovery)
    case (RotRecovery, RecoveryDone) => Goto(SystemReboot)
    case (RotRecovery, RecoveryFailed) => Goto(SystemLockdown)
    case (FirmwareVerify, UpdateRequested) => Goto(FirmwareUpdate)
    case (FirmwareVerify, VerifyUnprovisioned) => Goto(Unprovisioned)
    case (FirmwareVerify, VerifyFailed) => Goto(FirmwareRecovery)
    case (FirmwareVerify, VerifyDone) => Goto(Runtime)
    case (FirmwareVerify, RecoveryFailed) => Goto(SystemLockdown)
    case (FirmwareVerify, HandshakeFailed) => Goto(SystemLockdown)
    case (FirmwareRecovery, RecoveryDone) => Goto(FirmwareVerify)
    case (FirmwareRecovery, RecoveryFailed) => Goto(SystemLockdown)
    case (FirmwareUpdate, UpdateDone) =>
      if e.source == BMC_UPDATE_INTENT && e.handled.regions.active.rot then Goto(SystemReboot) else Goto(FirmwareVerify)
    case (FirmwareUpdate, UpdateFailed) => Goto(FirmwareVerify)
    case (Runtime, ResetDetected) => Goto(FirmwareVerify)
    case (Runtime, UpdateRequested) =>
      if tooManyFailures || !e.intent.regions.Any() then Drop
      else if e.intent.atReset then RunCurrent
      else Goto(FirmwareUpdate)
    case (Runtime, WdtTimeout) =>
      if (cfg.bmcCheckpointRecovery && e.source == BMC_EVENT) || (cfg.pchCheckpointRecovery && e.source == PCH_EVENT)
      then Goto(FirmwareRecovery) else Drop
    case (Runtime, ProvisionCmd) => RunCurrent
    case (Runtime, WdtCheckpoint) => RunCurrent
    case (Unprovisioned, ProvisionCmd) => RunCurrent
    case (Unprovisioned, WdtCheckpoint) => RunCurrent
    case (Unprovisioned, UpdateRequested) => if e.intent.regions.active.rot then RunCurrent else Drop
    case (Unprovisioned, ResetDetected) => Goto(FirmwareVerify)
    case _ => Drop
  }

  /** The run action of the current state. */
  function Handle(cfg: Config, m: Machine, e: Event, w: World): Machine
    requires m.current.FirmwareUpdate? ==> Ends(e)
  {
    match m.current
    case Init => DoInit(m, w.secondaryBooted)
    case RotRecovery => DoRotRecovery(m, w.eraseOk, w.copyOk)
    case FirmwareVerify => DoVerify(m, e, w.findings)
    case FirmwareRecovery => DoRecovery(cfg, m, e, w.recovery)
    case FirmwareUpdate => DoUpdate(m, e, w.update)
    case Runtime => if e.kind.UpdateRequested? then HandleUpdateAtReset(m, e) else m
    case Unprovisioned => if e.kind.UpdateRequested? then ProvisionImage(m) else m
    case _ => m
  }

  /** The machine and event once the machine has entered a state. */
  function Enter(m: Machine, e: Event, next: State, provisioned: bool): (Machine, Event) {
    var m1 := if m.current.Unprovisioned? && e.kind.ResetDetected? then m.(resetFromUnprovisioned := true) else m;
    var (m2, e2) := if next.InTmin1() && !m.current.InTmin1() then EnterTmin1(m1, e, provisioned) else (m1, e);
    (m2.(current := next), e2)
  }

  /** One turn of the event loop on event `e`, already taken off the queue. */
  function Turn(cfg: Config, m: Machine, e: Event, w: World): Machine
    requires Route(cfg, m.current, e, w.tooManyFailures) == Goto(FirmwareUpdate) ==> Ends(e)
    requires m.current.FirmwareUpdate? ==> !Route(cfg, m.current, e, w.tooManyFailures).RunCurrent?
  {
    match Route(cfg, m.current, e, w.tooManyFailures)
    case Goto(next) =>
      var (m', e') := Enter(m, e, next, w.findings.provisioned);
      Handle(cfg, m', e', w)
    case RunCurrent => Handle(cfg, m, e, w)
    case Drop => m
  }

  /** Power-on or reboot: the images' status bytes are zero, which reads as good. */
  function PowerOn(p: Persisted, origins: Origins): Machine {
    var zero := Image(true, true, false);
    var failed := Image(false, false, false);
    Machine(Boot, [NoData(StartStateMachine)], [], zero, zero, failed, failed, false, p, None, origins)
  }
}
