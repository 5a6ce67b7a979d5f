/** Runs of the platform state machine, under any interleaving with the events of
    other threads, and what holds in all of them. */
module PfrRuns {
  import opened Options
  import opened PfrTypes
  import opened PfrUpdate
  import opened PfrMachine

  // ----- steps and runs

  /** Events other threads may post at any time; in T-1 the machine drops them. */
  predicate External(k: Kind) {
    k.ResetDetected? || k.WdtCheckpoint? || k.WdtTimeout? || k.ProvisionCmd? || k.UpdateIntent2Requested?
    || k.BmcResetCommRequested?
  }

  /** `Post`: the running handler posts its next event. `Arrive`: another thread posts
      an event; update requests come only while the platform is in T0. `Take`: the
      event loop takes the next event. `Reboot`: the reboot that ends a ROT update. */
  datatype Step = Post | Arrive(e: Event) | Take(w: World) | Reboot

  predicate IsRequest(e: Event) {
    e.kind.UpdateRequested? && KnownIntent(e)
  }

  predicate TurnDefined(cfg: Config, m: Machine, w: World)
    requires m.fifo != []
  {
    && (Route(cfg, m.current, m.fifo[0], w.tooManyFailures) == Goto(FirmwareUpdate) ==> Ends(m.fifo[0]))
    && (m.current.FirmwareUpdate? ==> !Route(cfg, m.current, m.fifo[0], w.tooManyFailures).RunCurrent?)
  }

  predicate Enabled(cfg: Config, m: Machine, s: Step) {
    match s
    case Post => m.outbox != []
    case Arrive(e) => External(e.kind) || (IsRequest(e) && m.current.InTzero())
    case Take(w) => m.outbox == [] && m.fifo != [] && TurnDefined(cfg, m, w)
    case Reboot => m.current.SystemReboot?
  }

  function After(cfg: Config, m: Machine, s: Step): Machine
    requires Enabled(cfg, m, s)
  {
    match s
    case Post => m.(fifo := m.fifo + [m.outbox[0]], outbox := m.outbox[1..])
    case Arrive(e) => m.(fifo := m.fifo + [e])
    case Take(w) => Turn(cfg, m.(fifo := m.fifo[1..]), m.fifo[0], w)
    case Reboot => PowerOn(m.persisted, m.origins)
  }

  predicate Leads(cfg: Config, m: Machine, s: Step, m': Machine) {
    Enabled(cfg, m, s) && m' == After(cfg, m, s)
  }

  ghost predicate IsRun(cfg: Config, ms: seq<Machine>, steps: seq<Step>) {
    && |ms| == |steps| + 1
    && (exists p, origins :: ms[0] == PowerOn(p, origins) && OriginsOk(p.status.recovery, p.hashes, origins))
    && forall i {:trigger steps[i]} :: 0 <= i < |steps| ==> Leads(cfg, ms[i], steps[i], ms[i + 1])
  }

  // ----- the queue invariant

  predicate IsUpdateResult(e: Event) {
    e.kind.UpdateDone? || e.kind.UpdateFailed?
  }

  predicate IsRecoveryResult(e: Event) {
    e.kind.RecoveryDone? || e.kind.RecoveryFailed?
  }

  predicate IsVerdict(e: Event) {
    e.kind.VerifyUnprovisioned? || e.kind.VerifyFailed? || e.kind.VerifyDone? || e.kind.RecoveryFailed? || IsRequest(e)
  }

  /** The queue without the events that other threads may post at any time. */
  function Core(q: seq<Event>): (c: seq<Event>)
  {
    if q == [] then []
    else if External(q[0].kind) then Core(q[1..])
    else [q[0]] + Core(q[1..])
  }

  lemma {:induction false} CoreAppend(a: seq<Event>, b: seq<Event>)
    ensures Core(a + b) == Core(a) + Core(b)
  {
    if a == [] {
      assert a + b == b;
    } else {
      assert (a + b)[1..] == a[1..] + b;
      CoreAppend(a[1..], b);
    }
  }

  lemma {:induction false} CoreOfCore(q: seq<Event>)
    requires forall e :: e in q ==> !External(e.kind)
    ensures Core(q) == q
  {
    if q != [] {
      CoreOfCore(q[1..]);
    }
  }

  predicate AllRequests(c: seq<Event>) {
    forall e :: e in c ==> IsRequest(e)
  }

  predicate AllUpdateResults(c: seq<Event>) {
    forall e :: e in c ==> IsUpdateResult(e)
  }

  /** In FIRMWARE_VERIFY: leftovers of one kind, then the latest verification's verdict. */
  predicate VerifyQueue(c: seq<Event>, latest: Option<Verification>) {
    && c != [] && latest.Some?
    && c[|c| - 1].kind == latest.value.verdict && IsVerdict(c[|c| - 1])
    && (AllRequests(c[..|c| - 1]) || AllUpdateResults(c[..|c| - 1]))
  }

  /** In FIRMWARE_UPDATE: requests and a stale verdict, then the results of the update. */
  predicate UpdateQueue(c: seq<Event>) {
    && c != [] && IsUpdateResult(c[|c| - 1])
    && (forall e :: e in c ==> IsUpdateResult(e) || IsVerdict(e))
    && (forall i, j :: 0 <= i < j < |c| && IsUpdateResult(c[i]) ==> IsUpdateResult(c[j]))
  }

  predicate RecoveryQueue(c: seq<Event>) {
    c != [] && IsRecoveryResult(c[|c| - 1]) && AllRequests(c[..|c| - 1])
  }

  predicate QueueOk(s: State, c: seq<Event>, latest: Option<Verification>) {
    match s
    case Boot => |c| == 1 && c[0].kind.StartStateMachine?
    case Init => |c| == 1 && (c[0].kind.InitDone? || c[0].kind.InitRotSecondaryBooted?)
    case RotRecovery => c != [] && forall e :: e in c ==> IsRecoveryResult(e)
    case FirmwareVerify => VerifyQueue(c, latest)
    case FirmwareUpdate => UpdateQueue(c)
    case FirmwareRecovery => RecoveryQueue(c)
    case Unprovisioned => AllRequests(c)
    case Runtime => AllRequests(c)
    case SystemLockdown => true
    case SystemReboot => true
  }

  /** A verification that ended with VERIFY_DONE found a good active BMC image, and four
      good images unless it followed a recovery. */
  predicate Sound(m: Machine) {
    m.latest.Some? && m.latest.value.verdict.VerifyDone? ==>
      m.bmc.activeOk && (m.latest.value.afterRecovery || AllGood(m.bmc, m.pch))
  }

  predicate ImagesOk(m: Machine) {
    && (m.current.Runtime? ==> m.latest.Some? && m.latest.value.verdict.VerifyDone?)
    && (m.current.Runtime? || m.current.FirmwareVerify? ==> Sound(m))
  }

  ghost predicate MachineOk(m: Machine) {
    && QueueOk(m.current, Core(m.fifo + m.outbox), m.latest)
    && ImagesOk(m)
    && OriginsOk(m.persisted.status.recovery, m.persisted.hashes, m.origins)
  }

  // ----- what the handlers post

  lemma VerifyPosts(m: Machine, e: Event, f: Findings)
    ensures var m' := DoVerify(m, e, f);
            && |m'.outbox| == 1 && IsVerdict(m'.outbox[0]) && m'.latest.Some?
            && m'.outbox[0].kind == m'.latest.value.verdict && Sound(m')
            && m'.fifo == m.fifo && m'.current == m.current
  {
  }

  lemma {:induction false} LoopPosts(u: UpdateRun, o: UpdateInputs)
    requires (KnownIntent(u.evt) || !u.region.Any()) && AllUpdateResults(u.posts)
    ensures AllUpdateResults(UpdateLoop(u, o).posts)
    decreases u.region.Count()
  {
    if u.region.Any() {
      PassClearsABit(u, o);
      PassPosts(u, o);
      LoopPosts(UpdatePass(u, o), o);
    }
  }

  lemma PassPosts(u: UpdateRun, o: UpdateInputs)
    requires AllUpdateResults(u.posts)
    ensures AllUpdateResults(UpdatePass(u, o).posts)
  {
  }

  lemma UpdatePostsResults(p: Persisted, origins: Origins, e: Event, o: UpdateInputs)
    requires Ends(e)
    ensures var posts := UpdatePosts(RunUpdate(p, origins, e, o)); posts != [] && AllUpdateResults(posts)
  {
    LoopPosts(UpdateStart(p, origins, e), o);
  }

  // ----- entering a state keeps the invariant

  lemma PostsFollowQueue(m: Machine)
    requires forall e :: e in m.outbox ==> !External(e.kind)
    ensures Core(m.fifo + m.outbox) == Core(m.fifo) + m.outbox
  {
    CoreAppend(m.fifo, m.outbox);
    CoreOfCore(m.outbox);
  }

  ghost predicate MachineOriginsOk(m: Machine) {
    OriginsOk(m.persisted.status.recovery, m.persisted.hashes, m.origins)
  }

  /** Clearing recovery fields, or replacing them by values that are not pending, keeps
      every remaining origin right. */
  lemma FewerPending(m: Machine, m': Machine)
    requires MachineOriginsOk(m)
    requires m'.origins == m.origins && m'.persisted.hashes == m.persisted.hashes
    requires forall r: RegionId :: Pending(m'.persisted.status.recovery.Get(r)) ==>
               m'.persisted.status.recovery.Get(r) == m.persisted.status.recovery.Get(r)
    ensures MachineOriginsOk(m')
  {
  }

  lemma IntoVerify(m: Machine, e: Event, f: Findings)
    requires m.current.FirmwareVerify? && MachineOriginsOk(m)
    requires AllRequests(Core(m.fifo)) || AllUpdateResults(Core(m.fifo))
    ensures MachineOk(DoVerify(m, e, f))
  {
    var m' := DoVerify(m, e, f);
    VerifyPosts(m, e, f);
    PostsFollowQueue(m');
    VerifyKeepsOrigins(m, e, f);
    assert (Core(m.fifo) + m'.outbox)[..|Core(m.fifo)|] == Core(m.fifo);
  }

  lemma VerifyKeepsOrigins(m: Machine, e: Event, f: Findings)
    requires MachineOriginsOk(m)
    ensures MachineOriginsOk(DoVerify(m, e, f))
  {
    FewerPending(m, DoVerify(m, e, f));
  }

  lemma IntoRecovery(cfg: Config, m: Machine, e: Event, o: RecoveryInputs)
    requires m.current.FirmwareRecovery? && MachineOriginsOk(m) && AllRequests(Core(m.fifo))
    ensures MachineOk(DoRecovery(cfg, m, e, o))
  {
    var m' := DoRecovery(cfg, m, e, o);
    RecoveryPosts(cfg, m, e, o);
    PostsFollowQueue(m');
    FewerPending(m, m');
    assert (Core(m.fifo) + m'.outbox)[..|Core(m.fifo)|] == Core(m.fifo);
  }

  lemma RecoveryPosts(cfg: Config, m: Machine, e: Event, o: RecoveryInputs)
    ensures var m' := DoRecovery(cfg, m, e, o);
            && |m'.outbox| == 1 && IsRecoveryResult(m'.outbox[0])
            && m'.fifo == m.fifo && m'.current == m.current && m'.origins == m.origins
            && m'.persisted.hashes == m.persisted.hashes
            && (forall r :: Pending(m'.persisted.status.recovery.Get(r)) ==>
                  m'.persisted.status.recovery.Get(r) == m.persisted.status.recovery.Get(r))
  {
  }

  lemma IntoRotRecovery(m: Machine, eraseOk: bool, copyOk: bool)
    requires m.current.RotRecovery? && MachineOriginsOk(m) && Core(m.fifo) == []
    ensures MachineOk(DoRotRecovery(m, eraseOk, copyOk))
  {
    var m' := DoRotRecovery(m, eraseOk, copyOk);
    PostsFollowQueue(m');
    FewerPending(m, m');
  }

  lemma IntoUpdate(m: Machine, e: Event, o: UpdateInputs)
    requires m.current.FirmwareUpdate? && MachineOriginsOk(m) && Ends(e)
    requires forall x :: x in Core(m.fifo) ==> IsVerdict(x)
    ensures MachineOk(DoUpdate(m, e, o))
  {
    var m' := DoUpdate(m, e, o);
    UpdatePostsResults(m.persisted, m.origins, e, o);
    PostsFollowQueue(m');
    LoopKeepsOrigins(UpdateStart(m.persisted, m.origins, e), o);
    var c := Core(m.fifo) + m'.outbox;
    assert c[|c| - 1] == m'.outbox[|m'.outbox| - 1];
    assert forall i :: 0 <= i < |Core(m.fifo)| ==> c[i] in Core(m.fifo);
    assert forall i :: |Core(m.fifo)| <= i < |c| ==> c[i] in m'.outbox;
  }

  lemma UpdateAtResetKeeps(m: Machine, e: Event)
    requires MachineOk(m)
    ensures MachineOk(HandleUpdateAtReset(m, e))
  {
    FewerPending(m, HandleUpdateAtReset(m, e));
  }

  lemma ProvisionKeeps(m: Machine)
    requires MachineOk(m)
    ensures MachineOk(ProvisionImage(m))
  {
    FewerPending(m, ProvisionImage(m));
  }

  lemma EnterFrame(m: Machine, e: Event, next: State, provisioned: bool)
    ensures var (m', e') := Enter(m, e, next, provisioned);
            && m' == m.(current := next, resetFromUnprovisioned := m'.resetFromUnprovisioned)
            && e' == e.(flags := e'.flags)
  {
  }

  // ----- a turn of the event loop keeps the invariant

  /** The core queue once its head is taken. */
  lemma CoreOfRest(m: Machine)
    requires m.fifo != [] && m.outbox == []
    ensures Core(m.fifo + m.outbox) ==
              (if External(m.fifo[0].kind) then [] else [m.fifo[0]]) + Core(m.fifo[1..])
  {
    assert m.fifo + m.outbox == m.fifo;
  }

  /** What the rest of the core queue must be for the machine to enter a state on `e`. */
  predicate EntryOk(next: State, e: Event, rest: seq<Event>, latest: Option<Verification>) {
    match next
    case Init => rest == []
    case RotRecovery => rest == []
    case FirmwareVerify => AllRequests(rest) || AllUpdateResults(rest)
    case FirmwareRecovery => AllRequests(rest)
    case FirmwareUpdate => IsRequest(e) && forall x :: x in rest ==> IsVerdict(x)
    case Runtime => rest == [] && latest.Some? && latest.value.verdict.VerifyDone?
    case Unprovisioned => rest == []
    case _ => true
  }

  /** The queue side of a turn: the taken event leads to a state that the rest of the
      queue suits, or the rest suits the current state. */
  predicate RoutedOk(s: State, a: Action, e: Event, rest: seq<Event>, latest: Option<Verification>) {
    match a
    case Goto(next) => EntryOk(next, e, rest, latest)
    case RunCurrent => s.InTzero() && QueueOk(s, rest, latest)
    case Drop => QueueOk(s, rest, latest)
  }

  lemma ExternalRouted(cfg: Config, s: State, e: Event, c: seq<Event>, latest: Option<Verification>, tooMany: bool)
    requires External(e.kind) && QueueOk(s, c, latest)
    ensures RoutedOk(s, Route(cfg, s, e, tooMany), e, c, latest)
  {
  }

  lemma VerifyHeadRouted(cfg: Config, e: Event, rest: seq<Event>, latest: Option<Verification>, tooMany: bool)
    requires VerifyQueue([e] + rest, latest) && !External(e.kind)
    ensures RoutedOk(FirmwareVerify, Route(cfg, FirmwareVerify, e, tooMany), e, rest, latest)
  {
    var c := [e] + rest;
    if rest != [] {
      assert c[..|c| - 1] == [e] + rest[..|rest| - 1];
      assert e in c[..|c| - 1];
      assert c[|c| - 1] == rest[|rest| - 1];
      forall x | x in rest ensures x in rest[..|rest| - 1] || x == c[|c| - 1] {}
    }
  }

  lemma RecoveryHeadRouted(cfg: Config, e: Event, rest: seq<Event>, latest: Option<Verification>, tooMany: bool)
    requires RecoveryQueue([e] + rest) && !External(e.kind)
    ensures RoutedOk(FirmwareRecovery, Route(cfg, FirmwareRecovery, e, tooMany), e, rest, latest)
  {
    var c := [e] + rest;
    if rest != [] {
      assert c[..|c| - 1] == [e] + rest[..|rest| - 1];
      assert e in c[..|c| - 1];
      assert c[|c| - 1] == rest[|rest| - 1];
    }
  }

  lemma UpdateHeadRouted(cfg: Config, e: Event, rest: seq<Event>, latest: Option<Verification>, tooMany: bool)
    requires UpdateQueue([e] + rest) && !External(e.kind)
    ensures RoutedOk(FirmwareUpdate, Route(cfg, FirmwareUpdate, e, tooMany), e, rest, latest)
  {
    var c := [e] + rest;
    assert forall i :: 0 <= i < |rest| ==> rest[i] == c[i + 1];
    assert e == c[0] && e in c;
  }

  lemma HeadRouted(cfg: Config, s: State, e: Event, rest: seq<Event>, latest: Option<Verification>, tooMany: bool)
    requires QueueOk(s, [e] + rest, latest) && !External(e.kind)
    ensures RoutedOk(s, Route(cfg, s, e, tooMany), e, rest, latest)
  {
    assert ([e] + rest)[0] == e && e in [e] + rest;
    match s
    case FirmwareVerify => VerifyHeadRouted(cfg, e, rest, latest, tooMany);
    case FirmwareRecovery => RecoveryHeadRouted(cfg, e, rest, latest, tooMany);
    case FirmwareUpdate => UpdateHeadRouted(cfg, e, rest, latest, tooMany);
    case _ => assert forall x :: x in rest ==> x in [e] + rest;
  }

  lemma TakenRouted(cfg: Config, m: Machine, tooMany: bool)
    requires MachineOk(m) && m.fifo != [] && m.outbox == []
    ensures RoutedOk(m.current, Route(cfg, m.current, m.fifo[0], tooMany), m.fifo[0], Core(m.fifo[1..]), m.latest)
  {
    var e, rest := m.fifo[0], Core(m.fifo[1..]);
    CoreOfRest(m);
    if External(e.kind) {
      assert [] + rest == rest;
      ExternalRouted(cfg, m.current, e, rest, m.latest, tooMany);
    } else {
      HeadRouted(cfg, m.current, e, rest, m.latest, tooMany);
    }
  }

  /** Entering a state that suits the queue establishes the invariant there. */
  lemma EnteredMachineOk(cfg: Config, m: Machine, e: Event, w: World)
    requires m.outbox == [] && MachineOriginsOk(m) && EntryOk(m.current, e, Core(m.fifo), m.latest)
    requires m.current.Runtime? ==> Sound(m) && !e.kind.UpdateRequested?
    requires m.current.Unprovisioned? ==> !e.kind.UpdateRequested?
    requires !m.current.Boot?
    ensures MachineOk(Handle(cfg, m, e, w))
  {
    assert m.fifo + [] == m.fifo;
    match m.current
    case Init => PostsFollowQueue(DoInit(m, w.secondaryBooted));
    case RotRecovery => IntoRotRecovery(m, w.eraseOk, w.copyOk);
    case FirmwareVerify => IntoVerify(m, e, w.findings);
    case FirmwareRecovery => IntoRecovery(cfg, m, e, w.recovery);
    case FirmwareUpdate => IntoUpdate(m, e, w.update);
    case _ =>
  }

  lemma GotoKeepsMachineOk(cfg: Config, m: Machine, e: Event, next: State, w: World)
    requires m.outbox == [] && MachineOriginsOk(m) && EntryOk(next, e, Core(m.fifo), m.latest)
    requires Route(cfg, m.current, e, w.tooManyFailures) == Goto(next)
    requires m.current.FirmwareVerify? ==> Sound(m)
    ensures MachineOk(Turn(cfg, m, e, w))
  {
    EnterFrame(m, e, next, w.findings.provisioned);
    var (m', e') := Enter(m, e, next, w.findings.provisioned);
    EnteredMachineOk(cfg, m', e', w);
  }

  lemma RunCurrentKeepsMachineOk(cfg: Config, m: Machine, e: Event, w: World)
    requires MachineOk(m) && m.outbox == [] && m.current.InTzero()
    requires Route(cfg, m.current, e, w.tooManyFailures).RunCurrent?
    ensures MachineOk(Turn(cfg, m, e, w))
  {
    UpdateAtResetKeeps(m, e);
    ProvisionKeeps(m);
  }

  /** A turn is always defined: the update loop is only ever entered for a request of
      one of the two update intents, so it ends. And it keeps the invariant. */
  lemma TakeKeepsMachineOk(cfg: Config, m: Machine, w: World)
    requires MachineOk(m) && m.fifo != [] && m.outbox == []
    ensures TurnDefined(cfg, m, w) && MachineOk(After(cfg, m, Take(w)))
  {
    var e, m1 := m.fifo[0], m.(fifo := m.fifo[1..]);
    assert m1.fifo + m1.outbox == m1.fifo;
    TakenRouted(cfg, m, w.tooManyFailures);
    match Route(cfg, m.current, e, w.tooManyFailures)
    case Goto(next) => GotoKeepsMachineOk(cfg, m1, e, next, w);
    case RunCurrent => RunCurrentKeepsMachineOk(cfg, m1, e, w);
    case Drop =>
  }

  lemma StepKeepsMachineOk(cfg: Config, m: Machine, s: Step)
    requires MachineOk(m) && Enabled(cfg, m, s)
    ensures MachineOk(After(cfg, m, s))
  {
    match s
    case Post => assert (m.fifo + [m.outbox[0]]) + m.outbox[1..] == m.fifo + m.outbox;
    case Arrive(e) => ArriveKeepsMachineOk(m, e);
    case Take(w) => TakeKeepsMachineOk(cfg, m, w);
    case Reboot =>
  }

  lemma ArriveKeepsMachineOk(m: Machine, e: Event)
    requires MachineOk(m) && (External(e.kind) || (IsRequest(e) && m.current.InTzero()))
    ensures MachineOk(m.(fifo := m.fifo + [e]))
  {
    CoreAppend(m.fifo, m.outbox);
    CoreAppend(m.fifo, [e]);
    CoreAppend(m.fifo + [e], m.outbox);
    if External(e.kind) {
      assert Core([e]) == [];
      assert Core(m.fifo) + [] == Core(m.fifo);
    }
  }

  lemma {:induction false} RunKeepsMachineOk(cfg: Config, ms: seq<Machine>, steps: seq<Step>, i: nat)
    requires IsRun(cfg, ms, steps) && i < |ms|
    ensures MachineOk(ms[i])
  {
    if i > 0 {
      RunKeepsMachineOk(cfg, ms, steps, i - 1);
      StepKeepsMachineOk(cfg, ms[i - 1], steps[i - 1]);
    }
  }

  // ----- what holds in every run

  /** Being in RUNTIME means that the latest verification ended with VERIFY_DONE and
      found the active BMC image good; unless it followed a recovery, all four images. */
  lemma RuntimeIsVerified(cfg: Config, ms: seq<Machine>, steps: seq<Step>, i: nat)
    requires IsRun(cfg, ms, steps) && i < |ms| && ms[i].current.Runtime?
    ensures var m := ms[i];
            && m.latest.Some? && m.latest.value.verdict.VerifyDone?
            && m.bmc.activeOk && (m.latest.value.afterRecovery || AllGood(m.bmc, m.pch))
  {
    RunKeepsMachineOk(cfg, ms, steps, i);
  }

  /** A verdict taken in FIRMWARE_VERIFY, VERIFY_DONE among them, is the latest
      verification's, and nothing but other threads' events is left behind it. */
  lemma VerdictTakenIsLatest(cfg: Config, ms: seq<Machine>, steps: seq<Step>, i: nat)
    requires IsRun(cfg, ms, steps) && i < |steps| && steps[i].Take? && ms[i].current.FirmwareVerify?
    requires IsVerdict(ms[i].fifo[0]) && !ms[i].fifo[0].kind.UpdateRequested?
    ensures ms[i].latest.Some? && ms[i].latest.value.verdict == ms[i].fifo[0].kind
    ensures Core(ms[i].fifo[1..]) == []
  {
    var m := ms[i];
    RunKeepsMachineOk(cfg, ms, steps, i);
    CoreOfRest(m);
    VerdictIsLast(m.fifo[0], Core(m.fifo[1..]), m.latest);
  }

  lemma HeadIsLeftover(e: Event, rest: seq<Event>, latest: Option<Verification>)
    requires VerifyQueue([e] + rest, latest) && rest != []
    ensures IsRequest(e) || IsUpdateResult(e)
  {
    var c := [e] + rest;
    assert c[..|c| - 1][0] == e && e in c[..|c| - 1];
  }

  lemma VerdictIsLast(e: Event, rest: seq<Event>, latest: Option<Verification>)
    requires VerifyQueue([e] + rest, latest) && IsVerdict(e) && !e.kind.UpdateRequested?
    ensures rest == [] && latest.value.verdict == e.kind
  {
    if rest != [] {
      HeadIsLeftover(e, rest, latest);
    }
  }

  /** Outside T0, lockdown and reboot the machine never waits for another thread: one of
      its own events is queued or about to be posted, and its next step is enabled. */
  lemma NeverWaitsOutsideTzero(cfg: Config, ms: seq<Machine>, steps: seq<Step>, i: nat, w: World)
    requires IsRun(cfg, ms, steps) && i < |ms|
    requires !ms[i].current.InTzero() && !ms[i].current.SystemLockdown? && !ms[i].current.SystemReboot?
    ensures exists e :: e in ms[i].fifo + ms[i].outbox && !External(e.kind)
    ensures Enabled(cfg, ms[i], Post) || Enabled(cfg, ms[i], Take(w))
  {
    var m := ms[i];
    RunKeepsMachineOk(cfg, ms, steps, i);
    CoreMembers(m.fifo + m.outbox);
    assert Core(m.fifo + m.outbox)[0] in m.fifo + m.outbox;
    if m.outbox == [] {
      assert m.fifo + m.outbox == m.fifo;
      TakeKeepsMachineOk(cfg, m, w);
    }
  }

  lemma {:induction false} CoreMembers(q: seq<Event>)
    ensures forall e :: e in Core(q) ==> e in q && !External(e.kind)
  {
    if q != [] {
      CoreMembers(q[1..]);
    }
  }

  /** Lockdown is for good. */
  lemma {:induction false} LockdownStays(cfg: Config, ms: seq<Machine>, steps: seq<Step>, i: nat, j: nat)
    requires IsRun(cfg, ms, steps) && i <= j < |ms| && ms[i].current.SystemLockdown?
    ensures ms[j].current.SystemLockdown?
    decreases j
  {
    if i < j {
      LockdownStays(cfg, ms, steps, i, j - 1);
      assert Leads(cfg, ms[j - 1], steps[j - 1], ms[j]);
    }
  }

  // ----- the two-phase recovery update over runs

  /** Whether a step runs the update loop. */
  predicate RunsUpdate(cfg: Config, m: Machine, s: Step) {
    s.Take? && m.fifo != [] && Route(cfg, m.current, m.fifo[0], s.w.tooManyFailures) == Goto(FirmwareUpdate)
  }

  /** The event the update loop of a step works on. */
  function UpdateEvent(cfg: Config, m: Machine, s: Step): (e: Event)
    requires RunsUpdate(cfg, m, s)
    ensures e == m.fifo[0].(flags := e.flags) && e.flags.bootDone == m.fifo[0].flags.bootDone
  {
    Enter(m.(fifo := m.fifo[1..]), m.fifo[0], FirmwareUpdate, s.w.findings.provisioned).1
  }

  /** The update loop of a step. */
  function UpdateOfStep(cfg: Config, m: Machine, s: Step): UpdateRun
    requires RunsUpdate(cfg, m, s) && Enabled(cfg, m, s)
  {
    RunUpdate(m.persisted, m.origins, UpdateEvent(cfg, m, s), s.w.update)
  }

  /** A step whose request started the two-phase update that `origin` describes. */
  ghost predicate Started(cfg: Config, m: Machine, s: Step, r: RegionId, origin: Origin) {
    && RunsUpdate(cfg, m, s) && m.fifo[0].intent.regions.recovery.Get(r)
    && !Pending(m.persisted.status.recovery.Get(r))
    && origin == Origin(s.w.update.staging.Get(r), s.w.update.primary.Get(r).ok)
  }

  lemma UpdateOfStepOrigins(cfg: Config, m: Machine, s: Step)
    requires Enabled(cfg, m, s) && RunsUpdate(cfg, m, s)
    ensures var u := UpdateOfStep(cfg, m, s); var m' := After(cfg, m, s);
            m'.origins == u.origins && m'.persisted == Persisted(u.status, u.hashes)
  {
  }

  lemma UpdateStepOrigin(cfg: Config, m: Machine, s: Step, r: RegionId)
    requires Enabled(cfg, m, s) && RunsUpdate(cfg, m, s)
    ensures var origin := UpdateOfStep(cfg, m, s).origins.Get(r);
            origin == m.origins.Get(r) || (origin.Some? && Started(cfg, m, s, r, origin.value))
  {
    LoopOrigins(UpdateStart(m.persisted, m.origins, UpdateEvent(cfg, m, s)), s.w.update, r);
  }

  lemma StepOrigin(cfg: Config, m: Machine, s: Step, m': Machine, r: RegionId)
    requires Leads(cfg, m, s, m')
    ensures m'.origins.Get(r) == m.origins.Get(r)
            || (m'.origins.Get(r).Some? && Started(cfg, m, s, r, m'.origins.Get(r).value))
  {
    if RunsUpdate(cfg, m, s) {
      UpdateOfStepOrigins(cfg, m, s);
      UpdateStepOrigin(cfg, m, s, r);
    } else if s.Take? {
      TurnOrigins(cfg, m.(fifo := m.fifo[1..]), m.fifo[0], s.w);
    }
  }

  lemma TurnOrigins(cfg: Config, m: Machine, e: Event, w: World)
    requires Route(cfg, m.current, e, w.tooManyFailures) != Goto(FirmwareUpdate)
    requires m.current.FirmwareUpdate? ==> !Route(cfg, m.current, e, w.tooManyFailures).RunCurrent?
    ensures Turn(cfg, m, e, w).origins == m.origins
  {
  }

  /** An origin is that of the run's first machine (`k` is -1), or was recorded in step `k`. */
  ghost predicate OriginFrom(cfg: Config, ms: seq<Machine>, steps: seq<Step>, r: RegionId, o: Option<Origin>, k: int) {
    if k == -1 then ms != [] && o == ms[0].origins.Get(r)
    else 0 <= k < |steps| < |ms| && o.Some? && Started(cfg, ms[k], steps[k], r, o.value)
  }

  /** Every origin was recorded by the request that started the update: by step `k` of
      this run, or (`k` is -1) before its first power-on. */
  lemma {:induction false} OriginWasStarted(cfg: Config, ms: seq<Machine>, steps: seq<Step>, i: nat, r: RegionId)
    returns (k: int)
    requires IsRun(cfg, ms, steps) && i < |ms|
    ensures -1 <= k < i && OriginFrom(cfg, ms, steps, r, ms[i].origins.Get(r), k)
  {
    if i == 0 {
      return -1;
    }
    StepOrigin(cfg, ms[i - 1], steps[i - 1], ms[i], r);
    if ms[i].origins.Get(r) != ms[i - 1].origins.Get(r) {
      return i - 1;
    }
    k := OriginWasStarted(cfg, ms, steps, i - 1, r);
  }

  /** A recovery image is written only on a boot-done event that asks for it, for a region
      whose update was pending, and that update goes back to an earlier request whose
      active update succeeded and whose staging hash is the one read again now. With
      nothing pending at the first power-on, that request is a step of this run. */
  lemma RecoveryWritesAreSecondPhase(cfg: Config, ms: seq<Machine>, steps: seq<Step>, i: nat, r: RegionId)
    returns (k: nat, first: Origin)
    requires IsRun(cfg, ms, steps) && i < |steps| && RunsUpdate(cfg, ms[i], steps[i])
    requires ms[0].origins == PerRegion(None, None, None)
    requires Dispatched(UpdateOfStep(cfg, ms[i], steps[i]).log, r, Secondary)
    ensures ms[i].fifo[0].flags.bootDone && ms[i].fifo[0].intent.regions.recovery.Get(r)
    ensures Pending(ms[i].persisted.status.recovery.Get(r))
    ensures k < i && Started(cfg, ms[k], steps[k], r, first)
    ensures first.activeOk && first.reading.buffer == steps[i].w.update.staging.Get(r).buffer
  {
    var m, e := ms[i], UpdateEvent(cfg, ms[i], steps[i]);
    RunKeepsMachineOk(cfg, ms, steps, i);
    UpdateWrites(m.persisted, m.origins, e, steps[i].w.update, r);
    RecoveryWriteIsSecondPhase(m.persisted, m.origins, e, steps[i].w.update, r);
    first := m.origins.Get(r).value;
    var j := OriginWasStarted(cfg, ms, steps, i, r);
    k := j;
  }
}
