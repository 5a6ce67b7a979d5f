/** What the handlers of the platform state machine achieve: the scope of a reset covers
    what was updated, and a recovery only improves the images. */
module PfrHandlers {
  import opened Options
  import opened PfrTypes
  import opened PfrUpdate
  import opened PfrMachine

  // ----- reset scope (enter_tmin1 to handle_image_verification)

  predicate NoScope(f: Flags) {
    !f.bmcOnlyReset && !f.pchOnlyReset
  }

  predicate NamesBmc(g: Regions) {
    g.active.bmc || g.recovery.bmc
  }

  predicate NamesPch(g: Regions) {
    g.active.pch || g.recovery.pch
  }

  /** A scope that covers the platform images of an update: at most one image is left out,
      and none that the update names. */
  predicate Covers(f: Flags, g: Regions) {
    && !(f.bmcOnlyReset && f.pchOnlyReset)
    && (NamesBmc(g) ==> !f.pchOnlyReset) && (NamesPch(g) ==> !f.bmcOnlyReset)
  }

  lemma ScopeCoversRequest(m: Machine, e: Event, provisioned: bool)
    requires KnownIntent(e) && e.kind.UpdateRequested? && NoScope(e.flags)
    ensures Covers(EnterTmin1(m, e, provisioned).1.flags, e.intent.regions)
  {
  }

  /** A detected reset is of the BMC only, except the first one after provisioning. */
  lemma ResetScopeIsBmc(m: Machine, e: Event, provisioned: bool)
    requires e.kind.ResetDetected? && !KnownIntent(e) && NoScope(e.flags)
    ensures var f := EnterTmin1(m, e, provisioned).1.flags;
            !f.pchOnlyReset && (f.bmcOnlyReset <==> !(m.resetFromUnprovisioned && provisioned))
  {
  }

  predicate SameScope(f: Flags, f': Flags) {
    f'.bmcOnlyReset == f.bmcOnlyReset && f'.pchOnlyReset == f.pchOnlyReset
  }

  predicate PostsInScope(u: UpdateRun) {
    forall e :: e in u.posts ==> e.flags == u.evt.flags
  }

  lemma PassKeepsScope(u: UpdateRun, o: UpdateInputs)
    requires PostsInScope(u)
    ensures UpdatePass(u, o).evt.flags == u.evt.flags && PostsInScope(UpdatePass(u, o))
  {
  }

  lemma {:induction false} LoopKeepsScope(u: UpdateRun, o: UpdateInputs)
    requires (KnownIntent(u.evt) || !u.region.Any()) && PostsInScope(u)
    ensures UpdateLoop(u, o).evt.flags == u.evt.flags && PostsInScope(UpdateLoop(u, o))
    decreases u.region.Count()
  {
    if u.region.Any() {
      PassClearsABit(u, o);
      PassKeepsScope(u, o);
      LoopKeepsScope(UpdatePass(u, o), o);
    }
  }

  lemma UpdateKeepsScope(m: Machine, e: Event, o: UpdateInputs, d: Event)
    requires Ends(e) && d in DoUpdate(m, e, o).outbox
    ensures SameScope(e.flags, d.flags)
  {
    LoopKeepsScope(UpdateStart(m.persisted, m.origins, e), o);
  }

  /** Verification in a scope that covers an update checks every image the update names. */
  lemma CoveredIsVerified(m: Machine, d: Event, f: Findings, g: Regions)
    requires Covers(d.flags, g) && f.provisioned && f.keyManifestsOk
    requires HasPendingUpdate(m.persisted.status, d.flags).NoneAtReset?
    ensures var v := DoVerify(m, d, f);
            && (NamesBmc(g) ==> v.bmc.activeOk == f.bmcActive && v.bmc.recoveryOk == f.bmcRecovery)
            && (NamesPch(g) ==> v.pch.activeOk == f.pchActive && v.pch.recoveryOk == f.pchRecovery)
  {
  }

  /** An update request taken in T0 is followed by a verification of every platform image
      that it names: whichever of its results leads to it, the scope decided on the way
      into T-1 does not leave the image out. */
  lemma UpdatedImagesAreVerified(cfg: Config, m: Machine, e: Event, w: World, d: Event, m': Machine, f: Findings)
    requires m.current.InTzero() && KnownIntent(e) && e.kind.UpdateRequested? && NoScope(e.flags)
    requires Route(cfg, m.current, e, w.tooManyFailures) == Goto(FirmwareUpdate)
    requires d in Turn(cfg, m, e, w).outbox
    requires f.provisioned && f.keyManifestsOk && HasPendingUpdate(m'.persisted.status, d.flags).NoneAtReset?
    ensures var g := e.intent.regions; var v := DoVerify(m', d, f);
            && (NamesBmc(g) ==> v.bmc.activeOk == f.bmcActive && v.bmc.recoveryOk == f.bmcRecovery)
            && (NamesPch(g) ==> v.pch.activeOk == f.pchActive && v.pch.recoveryOk == f.pchRecovery)
  {
    var (m1, e1) := Enter(m, e, FirmwareUpdate, w.findings.provisioned);
    ScopeCoversRequest(m, e, w.findings.provisioned);
    assert Covers(e1.flags, e.intent.regions);
    UpdateKeepsScope(m1, e1, w.update, d);
    CoveredIsVerified(m', d, f, e.intent.regions);
  }

  // ----- recovery (handle_recovery, recover_image)

  /** No image is worse than before, and an active image is made good only beside a good
      recovery image. */
  predicate Improved(i: Image, i': Image) {
    && (i.recoveryOk ==> i'.recoveryOk) && (i.activeOk ==> i'.activeOk)
    && (i'.activeOk && !i.activeOk ==> i'.recoveryOk)
  }

  lemma RecoverImproves(i: Image, isPch: bool, o: RecoverInputs)
    ensures var (i', r) := RecoverImage(i, isPch, o);
            Improved(i, i') && (r.RecoverFailure? ==> i' == i)
            && (!i.recoveryOk ==> i'.activeOk == i.activeOk)
  {
  }

  lemma BmcImproves(i: Image, o: RecoveryInputs)
    ensures var (i', done, bad) := RecoverBmc(i, o);
            Improved(i, i') && (!done ==> i' == i) && (bad <==> !i.activeOk)
  {
    RecoverImproves(i, false, o.bmcFirst);
    RecoverImproves(if i.recoveryOk then i else RecoverImage(i, false, o.bmcFirst).0, false, o.bmcSecond);
  }

  lemma PchImproves(i: Image, o: RecoveryInputs)
    ensures var (i', done, bad) := RecoverPch(i, o);
            Improved(i, i') && (!done <==> i.recoveryOk && i.activeOk) && (!done ==> i' == i) && (bad <==> !i.activeOk)
  {
    RecoverImproves(i, true, o.pchFirst);
    RecoverImproves(if i.recoveryOk then i else RecoverImage(i, true, o.pchFirst).0, true, o.pchSecond);
  }

  /** Whether a recovery image is good after one attempt: it was, or a valid staged image, or
      for the PCH one copied from the BMC's flash, was copied over it; beside a good active
      image only a valid staged image that matches it. */
  predicate RecoveryGoodAfter(i: Image, isPch: bool, o: RecoverInputs) {
    i.recoveryOk
    || (o.addressOk && o.recoveryCopied
        && if i.activeOk then o.stagingOk && o.stagedMatchesActive
           else o.stagingOk || (isPch && o.stagingCopied))
  }

  /** Whether an active image is good after one attempt: it was, or the recovery image, good
      beforehand, was copied over it. */
  predicate ActiveGoodAfter(i: Image, o: RecoverInputs) {
    i.activeOk || (i.recoveryOk && o.addressOk && o.activeCopied)
  }

  /** One attempt, exactly: what is good afterwards, when the active image gets restricted,
      and that the attempt fails just when the bad image it turned to stayed bad. */
  lemma RecoveredExactly(i: Image, isPch: bool, o: RecoverInputs)
    ensures var (i', r) := RecoverImage(i, isPch, o);
            && (i'.recoveryOk <==> RecoveryGoodAfter(i, isPch, o)) && (i'.activeOk <==> ActiveGoodAfter(i, o))
            && (i'.restrictActive <==>
                i.restrictActive
                || (o.addressOk && !i.recoveryOk && i.activeOk && !(o.stagingOk && o.stagedMatchesActive)))
            && (r.RecoverSuccess? <==> o.addressOk && i.recoveryOk && i.activeOk)
            && (i.recoveryOk && !i.activeOk ==> (r.RecoverFailure? <==> !i'.activeOk))
            && (!i.recoveryOk && !i.activeOk ==> (r.RecoverFailure? <==> !i'.recoveryOk))
            && (!i.recoveryOk && i.activeOk ==>
                (r.RecoverFailure? <==> !i'.recoveryOk && (o.addressOk ==> o.stagingOk && o.stagedMatchesActive)))
  {
  }

  /** A whole recovery, exactly: an image's recovery part is attended to first, and its bad
      active part is then restored from a recovery part that is good by now, or, where that
      is still bad, the recovery part is tried once more. It counts as done when the PCH needed
      anything, or when an attempt at the BMC's image got something done. */
  lemma RecoveryIsExact(cfg: Config, bmc: Image, pch: Image, e: Event, o: RecoveryInputs)
    requires BootTimeout(cfg, e) || e.kind.VerifyFailed?
    ensures var b := TimedOut(bmc, BootTimeout(cfg, e) && cfg.bmcCheckpointRecovery && e.source == BMC_EVENT);
            var r := RecoverImages(cfg, bmc, pch, e, o);
            var good := RecoveryGoodAfter(b, false, o.bmcFirst);
            && (r.bmc.activeOk <==> b.activeOk || (good && o.bmcSecond.addressOk && o.bmcSecond.activeCopied))
            && (r.bmc.recoveryOk <==> good || (!b.activeOk && RecoveryGoodAfter(b, false, o.bmcSecond)))
    ensures var p := TimedOut(pch, BootTimeout(cfg, e) && cfg.pchCheckpointRecovery && e.source == PCH_EVENT);
            var r := RecoverImages(cfg, bmc, pch, e, o);
            var good := RecoveryGoodAfter(p, true, o.pchFirst);
            && (r.pch.activeOk <==> p.activeOk || (good && o.pchSecond.addressOk && o.pchSecond.activeCopied))
            && (r.pch.recoveryOk <==> good || (!p.activeOk && RecoveryGoodAfter(p, true, o.pchSecond)))
    ensures var b := TimedOut(bmc, BootTimeout(cfg, e) && cfg.bmcCheckpointRecovery && e.source == BMC_EVENT);
            var p := TimedOut(pch, BootTimeout(cfg, e) && cfg.pchCheckpointRecovery && e.source == PCH_EVENT);
            RecoverImages(cfg, bmc, pch, e, o).done <==> !p.recoveryOk || !p.activeOk || BmcWasHelped(b, o)
  {
    var b := TimedOut(bmc, BootTimeout(cfg, e) && cfg.bmcCheckpointRecovery && e.source == BMC_EVENT);
    var p := TimedOut(pch, BootTimeout(cfg, e) && cfg.pchCheckpointRecovery && e.source == PCH_EVENT);
    TwoAttempts(b, false, o.bmcFirst, o.bmcSecond);
    TwoAttempts(p, true, o.pchFirst, o.pchSecond);
  }

  /** Whether one of the two attempts at the BMC's image got something done. */
  predicate BmcWasHelped(b: Image, o: RecoveryInputs) {
    var good := RecoveryGoodAfter(b, false, o.bmcFirst);
    || (!b.recoveryOk && good)
    || (!b.recoveryOk && b.activeOk && o.bmcFirst.addressOk
        && !(o.bmcFirst.stagingOk && o.bmcFirst.stagedMatchesActive))
    || (!b.activeOk && if good then o.bmcSecond.addressOk && o.bmcSecond.activeCopied
                       else RecoveryGoodAfter(b, false, o.bmcSecond))
  }

  /** Both attempts at one image. */
  lemma TwoAttempts(i: Image, isPch: bool, first: RecoverInputs, second: RecoverInputs)
    ensures var i1 := if i.recoveryOk then i else RecoverImage(i, isPch, first).0;
            var i2 := if i1.activeOk then i1 else RecoverImage(i1, isPch, second).0;
            var good := RecoveryGoodAfter(i, isPch, first);
            && (i2.activeOk <==> i.activeOk || (good && second.addressOk && second.activeCopied))
            && (i2.recoveryOk <==> good || (!i.activeOk && RecoveryGoodAfter(i, isPch, second)))
  {
    var i1 := if i.recoveryOk then i else RecoverImage(i, isPch, first).0;
    RecoveredExactly(i, isPch, first);
    RecoveredExactly(i1, isPch, second);
  }

  /** A recovery, from the images with an expired boot timer's active image counted as bad:
      both only improve; it is reported as failed only when it changed nothing and the PCH
      needed nothing; and the recovery update it ends is that of an image whose active part
      was bad, the PCH's before the BMC's. */
  lemma RecoveryImproves(cfg: Config, bmc: Image, pch: Image, e: Event, o: RecoveryInputs)
    requires BootTimeout(cfg, e) || e.kind.VerifyFailed?
    ensures var b := TimedOut(bmc, BootTimeout(cfg, e) && cfg.bmcCheckpointRecovery && e.source == BMC_EVENT);
            var p := TimedOut(pch, BootTimeout(cfg, e) && cfg.pchCheckpointRecovery && e.source == PCH_EVENT);
            var r := RecoverImages(cfg, bmc, pch, e, o);
            && Improved(b, r.bmc) && Improved(p, r.pch)
            && (!r.done ==> r.bmc == b && r.pch == p && p.recoveryOk && p.activeOk)
            && r.region == (if !p.activeOk then Some(Pch) else if !b.activeOk then Some(Bmc) else None)
  {
    BmcImproves(TimedOut(bmc, BootTimeout(cfg, e) && cfg.bmcCheckpointRecovery && e.source == BMC_EVENT), o);
    PchImproves(TimedOut(pch, BootTimeout(cfg, e) && cfg.pchCheckpointRecovery && e.source == PCH_EVENT), o);
  }
}
