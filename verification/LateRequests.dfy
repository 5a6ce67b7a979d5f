/** Why update requests must not arrive in T-1: a run from power-on in which one that does
    leads to RUNTIME with a bad active BMC image. */
module LateRequests {
  import opened Options
  import opened PfrTypes
  import opened PfrUpdate
  import opened PfrMachine
  import opened PfrRuns

  // ----- a run that ends while the failures of an update are being posted

  lemma RunExtends(cfg: Config, ms: seq<Machine>, steps: seq<Step>, s: Step) returns (m: Machine)
    requires IsRun(cfg, ms, steps) && Enabled(cfg, ms[|steps|], s)
    ensures m == After(cfg, ms[|steps|], s) && IsRun(cfg, ms + [m], steps + [s]) && (ms + [m])[|steps + [s]|] == m
  {
    m := After(cfg, ms[|steps|], s);
    var ms', steps' := ms + [m], steps + [s];
    assert ms'[0] == ms[0];
    forall i | 0 <= i < |steps'| ensures Leads(cfg, ms'[i], steps'[i], ms'[i + 1]) {
      assert i < |steps| ==> Leads(cfg, ms[i], steps[i], ms[i + 1]);
    }
  }

  /** No update at reset is stored, and no event is queued or to be posted. */
  predicate Quiet(m: Machine) {
    m.fifo == [] && HasPendingUpdate(m.persisted.status, NO_FLAGS).NoneAtReset?
  }

  predicate AllImagesGood(w: World) {
    w.findings == Findings(true, true, true, true, true, true)
  }

  lemma Initializes(cfg: Config, m: Machine, w: World)
    requires m.current.Boot? && m.fifo == [NoData(StartStateMachine)] && m.outbox == [] && !w.secondaryBooted
    ensures Enabled(cfg, m, Take(w))
    ensures var m' := After(cfg, m, Take(w));
            m'.current.Init? && m'.fifo == [] && m'.outbox == [NoData(InitDone)] && m'.persisted == m.persisted
  {
  }

  lemma PassesVerification(cfg: Config, m: Machine, w: World)
    requires m.current.Init? && m.fifo == [NoData(InitDone)] && m.outbox == [] && AllImagesGood(w)
    requires HasPendingUpdate(m.persisted.status, NO_FLAGS).NoneAtReset?
    ensures Enabled(cfg, m, Take(w))
    ensures var m' := After(cfg, m, Take(w));
            && m'.current.FirmwareVerify? && m'.fifo == [] && m'.outbox == [NoData(VerifyDone)]
            && m'.persisted == m.persisted
  {
  }

  /** VERIFY_DONE taken in FIRMWARE_VERIFY. */
  lemma EntersRuntime(cfg: Config, m: Machine, w: World)
    requires m.current.FirmwareVerify? && m.fifo != [] && m.fifo[0].kind.VerifyDone? && m.outbox == []
    ensures Enabled(cfg, m, Take(w)) && After(cfg, m, Take(w)) == m.(current := Runtime, fifo := m.fifo[1..])
  {
  }

  /** A request to update the ROT's active image. */
  function RotRequest(): Event {
    Event(UpdateRequested, BMC_UPDATE_INTENT, Intent(Regions(NONE_OF_THEM.(rot := true), NONE_OF_THEM), false, false),
          NO_FLAGS, NO_INTENT)
  }

  /** An update of one region has just failed: its two failures are still to be posted. */
  predicate AfterFailedUpdate(m: Machine, failed: Event) {
    && m.current.FirmwareUpdate? && Quiet(m) && m.outbox == [failed, failed]
    && failed.kind.UpdateFailed? && failed.flags == NO_FLAGS
  }

  lemma RotUpdateFails(cfg: Config, m: Machine, w: World) returns (failed: Event)
    requires m.current.Runtime? && m.fifo == [RotRequest()] && m.outbox == []
    requires HasPendingUpdate(m.persisted.status, NO_FLAGS).NoneAtReset?
    requires !w.tooManyFailures && !w.update.primary.rot.ok
    ensures Enabled(cfg, m, Take(w)) && AfterFailedUpdate(After(cfg, m, Take(w)), failed)
  {
    var e := RotRequest();
    var start := UpdateStart(m.persisted, m.origins, e);
    var u := UpdatePass(start, w.update);
    failed := u.evt.(kind := UpdateFailed);
    assert start.region.Any() && PassRegion(start.region) == Rot;
    assert !u.region.Any();
    assert UpdateLoop(start, w.update) == UpdateLoop(u, w.update) == u;
    assert UpdatePosts(u) == [failed, failed];
  }

  /** From power-on the platform verifies its images, enters RUNTIME, and an update that is
      requested there fails. */
  lemma FailedUpdateReached(cfg: Config, p: Persisted, origins: Origins, good: World, failing: World)
    returns (ms: seq<Machine>, steps: seq<Step>, failed: Event)
    requires OriginsOk(p.status.recovery, p.hashes, origins) && HasPendingUpdate(p.status, NO_FLAGS).NoneAtReset?
    requires AllImagesGood(good) && !good.secondaryBooted && !failing.tooManyFailures && !failing.update.primary.rot.ok
    ensures IsRun(cfg, ms, steps) && ms[0] == PowerOn(p, origins) && AfterFailedUpdate(ms[|steps|], failed)
  {
    ms, steps := [PowerOn(p, origins)], [];
    assert IsRun(cfg, ms, steps);
    Initializes(cfg, ms[0], good);
    var m := RunExtends(cfg, ms, steps, Take(good));
    ms, steps := ms + [m], steps + [Take(good)];
    m := RunExtends(cfg, ms, steps, Post);
    ms, steps := ms + [m], steps + [Post];
    PassesVerification(cfg, m, good);
    m := RunExtends(cfg, ms, steps, Take(good));
    ms, steps := ms + [m], steps + [Take(good)];
    m := RunExtends(cfg, ms, steps, Post);
    ms, steps := ms + [m], steps + [Post];
    EntersRuntime(cfg, m, good);
    m := RunExtends(cfg, ms, steps, Take(good));
    ms, steps := ms + [m], steps + [Take(good)];
    m := RunExtends(cfg, ms, steps, Arrive(RotRequest()));
    ms, steps := ms + [m], steps + [Arrive(RotRequest())];
    failed := RotUpdateFails(cfg, m, failing);
    m := RunExtends(cfg, ms, steps, Take(failing));
    ms, steps := ms + [m], steps + [Take(failing)];
  }

  // ----- a request that arrives there

  /** A replay in which update requests may arrive at any time; None when some other
      step is not enabled. */
  function Replay(cfg: Config, m: Machine, steps: seq<Step>): Option<Machine>
    decreases |steps|
  {
    if steps == [] then Some(m)
    else if steps[0].Arrive? then Replay(cfg, m.(fifo := m.fifo + [steps[0].e]), steps[1..])
    else if Enabled(cfg, m, steps[0]) then Replay(cfg, After(cfg, m, steps[0]), steps[1..])
    else None
  }

  lemma ReplayNext(cfg: Config, m: Machine, s: Step, rest: seq<Step>)
    requires s.Arrive? || Enabled(cfg, m, s)
    ensures Replay(cfg, m, [s] + rest) ==
              Replay(cfg, if s.Arrive? then m.(fifo := m.fifo + [s.e]) else After(cfg, m, s), rest)
  {
    assert ([s] + rest)[1..] == rest;
  }

  /** A verification in T-1 with nothing pending, no reset scope and all images checked,
      followed by the posting of its verdict. */
  lemma ReplayVerify(cfg: Config, m: Machine, w: World, rest: seq<Step>) returns (m': Machine)
    requires m.current.FirmwareUpdate? && m.outbox == [] && m.fifo != []
    requires m.fifo[0].kind.UpdateFailed? && m.fifo[0].flags == NO_FLAGS
    requires HasPendingUpdate(m.persisted.status, NO_FLAGS).NoneAtReset?
    requires w.findings.provisioned && w.findings.keyManifestsOk
    ensures Replay(cfg, m, [Take(w), Post] + rest) == Replay(cfg, m', rest)
    ensures m'.current.FirmwareVerify? && m'.outbox == [] && m'.persisted == m.persisted
    ensures m'.bmc.activeOk == w.findings.bmcActive && m'.latest.Some? && !m'.latest.value.afterRecovery
    ensures m'.latest.value.verdict ==
              if AllGood(Image(w.findings.bmcActive, w.findings.bmcRecovery, false),
                         Image(w.findings.pchActive, w.findings.pchRecovery, false)) then VerifyDone else VerifyFailed
    ensures m'.fifo == m.fifo[1..] + [m.fifo[0].(kind := m'.latest.value.verdict)]
  {
    var m1 := After(cfg, m, Take(w));
    m' := After(cfg, m1, Post);
    assert [Take(w), Post] + rest == [Take(w)] + ([Post] + rest);
    ReplayNext(cfg, m, Take(w), [Post] + rest);
    ReplayNext(cfg, m1, Post, rest);
  }

  /** A request that names no region. */
  function EmptyRequest(): Event {
    Event(UpdateRequested, BMC_UPDATE_INTENT, NO_INTENT, NO_FLAGS, NO_INTENT)
  }

  /** That request taken in FIRMWARE_VERIFY, and the posting of its result. */
  lemma ReplayEmptyUpdate(cfg: Config, m: Machine, w: World, rest: seq<Step>) returns (m': Machine)
    requires m.current.FirmwareVerify? && m.outbox == [] && m.fifo != [] && m.fifo[0] == EmptyRequest()
    ensures Replay(cfg, m, [Take(w), Post] + rest) == Replay(cfg, m', rest)
    ensures m'.current.FirmwareUpdate? && m'.outbox == [] && m'.persisted == m.persisted
    ensures m'.fifo == m.fifo[1..] + [EmptyRequest().(kind := UpdateDone)]
  {
    assert !NO_REGIONS.Any();
    var m1 := After(cfg, m, Take(w));
    assert m1.outbox == [EmptyRequest().(kind := UpdateDone)];
    m' := After(cfg, m1, Post);
    assert [Take(w), Post] + rest == [Take(w)] + ([Post] + rest);
    ReplayNext(cfg, m, Take(w), [Post] + rest);
    ReplayNext(cfg, m1, Post, rest);
  }

  /** A request that arrives while the two failures of an update are being posted. */
  lemma ReplayLateArrival(cfg: Config, m: Machine, failed: Event, request: Event, rest: seq<Step>) returns (m': Machine)
    requires m.fifo == [] && m.outbox == [failed, failed]
    ensures Replay(cfg, m, [Post, Arrive(request), Post] + rest) == Replay(cfg, m', rest)
    ensures m' == m.(fifo := [failed, request, failed], outbox := [])
  {
    var m1, m2 := m.(fifo := [failed], outbox := [failed]), m.(fifo := [failed, request], outbox := [failed]);
    m' := m.(fifo := [failed, request, failed], outbox := []);
    assert [] + [failed] == [failed] && [failed] + [request] == [failed, request];
    assert [failed, request] + [failed] == [failed, request, failed];
    assert [Post, Arrive(request), Post] + rest == [Post] + ([Arrive(request)] + ([Post] + rest));
    ReplayNext(cfg, m, Post, [Arrive(request)] + ([Post] + rest));
    ReplayNext(cfg, m1, Arrive(request), [Post] + rest);
    ReplayNext(cfg, m2, Post, rest);
  }

  lemma ReplayToRuntime(cfg: Config, m: Machine, w: World) returns (m': Machine)
    requires m.current.FirmwareVerify? && m.outbox == [] && m.fifo != [] && m.fifo[0].kind.VerifyDone?
    ensures Replay(cfg, m, [Take(w)]) == Some(m')
    ensures m'.current.Runtime? && m'.bmc == m.bmc && m'.latest == m.latest
  {
    EntersRuntime(cfg, m, w);
    m' := After(cfg, m, Take(w));
    assert [Take(w)] + [] == [Take(w)];
    ReplayNext(cfg, m, Take(w), []);
  }

  lemma NoArrivals(a: World, b: World, c: World, d: World, late: seq<Step>)
    requires late == [Take(a), Post] + ([Take(b), Post] + ([Take(c), Post] + [Take(d)]))
    ensures forall s :: s in late ==> !s.Arrive?
  {
  }

  /** From a failed update on: the request lets a stale VERIFY_DONE lead to RUNTIME after a
      later verification found the active BMC image bad. */
  lemma LateRequestAfterFailure(cfg: Config, m: Machine, failed: Event, good: World, bad: World)
    returns (late: seq<Step>, m': Machine)
    requires AfterFailedUpdate(m, failed) && AllImagesGood(good)
    requires bad.findings == Findings(true, true, true, false, true, true)
    ensures Replay(cfg, m, [Post, Arrive(EmptyRequest()), Post] + late) == Some(m')
    ensures m'.current.Runtime? && !m'.bmc.activeOk && m'.latest == Some(Verification(VerifyFailed, false))
    ensures forall s :: s in late ==> !s.Arrive?
  {
    var last := [Take(good)];
    var fromBad := [Take(bad), Post] + last;
    var fromRequest := [Take(good), Post] + fromBad;
    late := [Take(good), Post] + fromRequest;
    NoArrivals(good, good, bad, good, late);
    var m3 := ReplayLateArrival(cfg, m, failed, EmptyRequest(), late);
    var m4 := ReplayVerify(cfg, m3, good, fromRequest);
    var m5 := ReplayEmptyUpdate(cfg, m4, good, fromBad);
    var m6 := ReplayVerify(cfg, m5, bad, last);
    m' := ReplayToRuntime(cfg, m6, good);
  }

  /** A run from power-on, then one request that arrives in FIRMWARE_UPDATE between the two
      UPDATE_FAILED of a failed update: that is enough for RUNTIME with a bad active BMC
      image. No other step breaks the assumption on requests. */
  lemma LateRequestBreaksRuntime(cfg: Config, p: Persisted, origins: Origins, good: World, failing: World, bad: World)
    returns (ms: seq<Machine>, steps: seq<Step>, late: seq<Step>, m': Machine)
    requires OriginsOk(p.status.recovery, p.hashes, origins) && HasPendingUpdate(p.status, NO_FLAGS).NoneAtReset?
    requires AllImagesGood(good) && !good.secondaryBooted && !failing.tooManyFailures && !failing.update.primary.rot.ok
    requires bad.findings == Findings(true, true, true, false, true, true)
    ensures IsRun(cfg, ms, steps) && ms[0] == PowerOn(p, origins) && ms[|steps|].current.FirmwareUpdate?
    ensures IsRequest(EmptyRequest()) && forall s :: s in late ==> !s.Arrive?
    ensures Replay(cfg, ms[|steps|], [Post, Arrive(EmptyRequest()), Post] + late) == Some(m')
    ensures m'.current.Runtime? && !m'.bmc.activeOk && m'.latest == Some(Verification(VerifyFailed, false))
  {
    var failed;
    ms, steps, failed := FailedUpdateReached(cfg, p, origins, good, failing);
    late, m' := LateRequestAfterFailure(cfg, ms[|steps|], failed, good, bad);
  }
}
