/** How updates end: a cancelled one is never deployed, and an undisturbed one can succeed. */
module OtaOutcomes {
  import opened CLib
  import opened Ota
  import opened OtaSafety
  import opened OtaTheorems
  import opened OtaDevice

  // ---------------------------------------------------------------------------------------------
  // Cancellation
  // ---------------------------------------------------------------------------------------------

  /** The worker has not come to the end of a good attempt. */
  predicate Early(w: Worker) {
    || w in {ToTakeSemaphore, ToAcknowledge, ToInitSettings, ToSaveInProgress, ToPrepareFlash, ToSaveRequest}
    || w.ToAnnounceAttempt? || w.Attempting? || w.ToReportError?
  }

  /** The worker is on its way out. */
  predicate Leaving(w: Worker) {
    w.ToReportFailure? || w in {ToSaveIdleFirst, ToClearRunBit, ToDeleteRequest, ToSaveIdle, ToGiveSemaphore}
  }

  /** The update will not come to its deployment any more. */
  predicate Stopped(s: System, u: Uuid) {
    && u in s.seen
    && (s.data.request == u ==> s.worker.NoWorker? || Leaving(s.worker) || (Early(s.worker) && !s.data.running))
  }

  lemma {:induction false} StoppedOneStep(s: System, a: Action, u: Uuid)
    requires Stopped(s, u) && Enabled(s, a) && Published(u, Deploying) !in s.history
    requires !s.recovery.Ready? ==> s.worker.NoWorker?
    requires s.recovery.ToPublish? ==> s.recovery.event != Deploying
    ensures Stopped(Step(s, a), u) && Published(u, Deploying) !in Step(s, a).history
  {
    if a.RunWorker? {
      hide Step, Enabled;
      StoppedWorker(s, a.outcome, u);
    } else {
      hide WorkerStep, Early, Leaving;
    }
  }

  /** Only a download looks at payloads. */
  lemma {:induction false} PayloadsAreForDownloads(s: System, o: Outcome)
    requires Enabled(s, RunWorker(o)) && !s.worker.Attempting?
    ensures Enabled(s, Plainly(o.ok)) && Step(s, RunWorker(o)) == Step(s, Plainly(o.ok))
  {
    hide RecoveryStep, UpdateStep, CancelStep, Payload, AttemptOver, WithoutRequest, Noted, WithState, Announced;
  }

  lemma {:induction false} StoppedWorker(s: System, o: Outcome, u: Uuid)
    requires Stopped(s, u) && Enabled(s, RunWorker(o)) && Published(u, Deploying) !in s.history
    ensures Stopped(Step(s, RunWorker(o)), u) && Published(u, Deploying) !in Step(s, RunWorker(o)).history
  {
    if s.worker.Attempting? {
      StoppedAttempt(s, o, u);
    } else {
      hide Step;
      PayloadsAreForDownloads(s, o);
      if IsSpecial(s.worker) {
        SpecialSteps(s, o.ok);
        StoppedSpecially(s, o.ok, u);
      } else {
        PlainSteps(s, o.ok);
        StoppedPlainly(s, o.ok, u);
      }
    }
  }

  lemma {:induction false} StoppedAttempt(s: System, o: Outcome, u: Uuid)
    requires Stopped(s, u) && Enabled(s, RunWorker(o)) && Published(u, Deploying) !in s.history && s.worker.Attempting?
    ensures Stopped(Step(s, RunWorker(o)), u) && Published(u, Deploying) !in Step(s, RunWorker(o)).history
  {
    hide RoundedPercent, RecoveryStep, UpdateStep, CancelStep, Announced, WithoutRequest;
  }

  lemma {:induction false} StoppedSpecially(s: System, ok: bool, u: Uuid)
    requires Stopped(s, u) && IsSpecial(s.worker) && Published(u, Deploying) !in s.history
    ensures Stopped(Special(s, ok), u) && Published(u, Deploying) !in Special(s, ok).history
  {
  }

  lemma {:induction false} StoppedPlainly(s: System, ok: bool, u: Uuid)
    requires Stopped(s, u) && Published(u, Deploying) !in s.history
    ensures var w := s.worker;
            && (Onward(w, ok).Some? ==> Stopped(s.(worker := Onward(w, ok).value), u))
            && (Saving(w).Some? ==> Stopped(WithState(s.(worker := Saving(w).value.1), Saving(w).value.0), u))
            && (Announcement(w).Some? ==>
                  var t := Announced(s, Announcement(w).value.0, Announcement(w).value.1);
                  Stopped(t, u) && Published(u, Deploying) !in t.history)
  {
  }

  lemma {:induction false} StoppedForGood(s: System, actions: seq<Action>, u: Uuid)
    requires Inv(s) && CanRun(s, actions) && Stopped(s, u) && Published(u, Deploying) !in s.history
    ensures Published(u, Deploying) !in Run(s, actions).history
    decreases |actions|
  {
    hide Step, Enabled, Stopped, Exclusive, WorkerStored, StoredRequest, WorkerPhase, GoodHistory, NothingLost, Known;
    if actions != [] {
      StepKeeps(s, actions[0]);
      StoppedOneStep(s, actions[0], u);
      StoppedForGood(Step(s, actions[0]), actions[1..], u);
    }
  }

  // ---------------------------------------------------------------------------------------------
  // What the phase of an update shows
  // ---------------------------------------------------------------------------------------------

  predicate Deployment(p: Phase) { p.InDeployment? || p.InPlace? || p.Restarting? }

  /** Deploying leaves its mark on the phase of an update. */
  lemma {:induction false} DeployingShows(h: History, u: Uuid)
    requires Published(u, Deploying) in h
    ensures var p := PhaseOf(h, u); Deployment(p) || p.Ended? || p.Broken?
  {
    hide PhaseOf;
    var front, last := h[..|h| - 1], h[|h| - 1];
    assert h == front + [last];
    OneMore(front, last, u);
    if last != Published(u, Deploying) {
      DeployingShows(front, u);
    }
  }

  /** And nothing else puts that mark there. */
  lemma {:induction false} DeploymentIsPublished(h: History, u: Uuid)
    requires Deployment(PhaseOf(h, u))
    ensures Published(u, Deploying) in h
  {
    if h != [] {
      var front, last := h[..|h| - 1], h[|h| - 1];
      assert h == front + [last];
      OneMore(front, last, u);
      hide PhaseOf;
      if last != Published(u, Deploying) {
        DeploymentIsPublished(front, u);
      }
    }
  }

  lemma {:induction false} SuccessShows(h: History, u: Uuid)
    requires Published(u, Success) in h
    ensures PhaseOf(h, u) in {Ended(true), Broken}
  {
    hide PhaseOf;
    var front, last := h[..|h| - 1], h[|h| - 1];
    assert h == front + [last];
    OneMore(front, last, u);
    if last != Published(u, Success) {
      SuccessShows(front, u);
    }
  }

  // ---------------------------------------------------------------------------------------------
  // When a cancel comes in time
  // ---------------------------------------------------------------------------------------------

  /** A cancel is accepted. */
  predicate AcceptsCancel(s: System) {
    s.recovery.Ready? && s.data.running && s.settings.request.Some?
  }

  /** It comes too late: the last attempt was good, or the deployment has been announced. */
  predicate TooLate(s: System, u: Uuid) {
    s.worker.ToAnnounceDeploying? || Published(u, Deploying) in s.history
  }

  /** Some continuation has the deployment of the update announced. */
  ghost predicate CanDeploy(s: System, u: Uuid) {
    exists after :: CanRun(s, after) && Published(u, Deploying) in Run(s, after).history
  }

  lemma {:induction false} InTimeIsStopped(s: System, v: Uuid)
    requires Inv(s) && AcceptsCancel(s) && !TooLate(s, s.settings.request.value)
    ensures s.data.request == s.settings.request.value
    ensures Stopped(Step(s, Cancel(v, true)), s.data.request)
  {
    hide PhaseOf, Stage, Reported, Swappable, GoodHistory, NothingLost, WorkerStep;
    StoredIsOwn(s);
    if Deployment(PhaseOf(s.history, s.data.request)) { DeploymentIsPublished(s.history, s.data.request); }
  }

  /** After a good attempt the next step of the worker publishes Deploying, cancelled or not. */
  lemma {:induction false} DeploysAnyway(s: System, v: Uuid)
    requires AcceptsCancel(s) && s.worker.ToAnnounceDeploying?
    ensures var t := Step(s, Cancel(v, true));
            && !t.data.running && Enabled(t, Plainly(true))
            && Step(t, Plainly(true)).history == s.history + [Published(s.data.request, Deploying)]
  {
  }

  /**
   An accepted cancel, exactly: in the state after it the update can still be deployed, by some
   continuation, if and only if the cancel came too late. Otherwise it is never deployed nor reported as
   a success, whatever follows, restarts included.
   */
  lemma {:induction false} CancelIsFinalUnlessTooLate(start: System, before: seq<Action>, v: Uuid)
    requires Factory(start) && CanRun(start, before) && AcceptsCancel(Run(start, before))
    ensures var s := Run(start, before);
            CanDeploy(Step(s, Cancel(v, true)), s.settings.request.value) <==> TooLate(s, s.settings.request.value)
  {
    hide Run, CanRun, Factory, PhaseOf, Stage, Reported, Swappable, Step;
    ReachableInv(start, before);
    var s := Run(start, before);
    var u, t := s.settings.request.value, Step(s, Cancel(v, true));
    CancelLeavesHistory(s, v);
    if s.worker.ToAnnounceDeploying? {
      StoredIsOwn(s);
      DeploysAnyway(s, v);
      RunOne(t, Plainly(true));
      DeploysIn(t, [Plainly(true)], u);
    } else if TooLate(s, u) {
      RunNothing(t);
      DeploysIn(t, [], u);
    } else {
      InTimeIsStopped(s, v);
      StepKeeps(s, Cancel(v, true));
      forall after | CanRun(t, after) ensures Published(u, Deploying) !in Run(t, after).history {
        StoppedForGood(t, after, u);
      }
    }
  }

  lemma {:induction false} CancelLeavesHistory(s: System, v: Uuid)
    requires AcceptsCancel(s)
    ensures Enabled(s, Cancel(v, true)) && Step(s, Cancel(v, true)).history == s.history
  {
  }

  lemma {:induction false} DeploysIn(t: System, after: seq<Action>, u: Uuid)
    requires CanRun(t, after) && Published(u, Deploying) in Run(t, after).history
    ensures CanDeploy(t, u)
  {
  }

  lemma {:induction false} RunOne(s: System, a: Action)
    requires Enabled(s, a)
    ensures CanRun(s, [a]) && Run(s, [a]) == Step(s, a)
  {
    assert [a][1..] == [];
    RunNothing(Step(s, a));
  }

  /** A cancel in time is final: the update is neither deployed nor reported as a success. */
  lemma {:induction false} CancelledIsNeverDeployed(start: System, before: seq<Action>, v: Uuid, after: seq<Action>)
    requires Factory(start) && CanRun(start, before)
    requires AcceptsCancel(Run(start, before)) && !TooLate(Run(start, before), Run(start, before).settings.request.value)
    requires CanRun(Step(Run(start, before), Cancel(v, true)), after)
    ensures var u := Run(start, before).settings.request.value;
            var h := Run(Step(Run(start, before), Cancel(v, true)), after).history;
            Published(u, Deploying) !in h && Published(u, Success) !in h
  {
    hide Run, CanRun, Factory, PhaseOf, Stage, Reported, Swappable, Step;
    var s := Run(start, before);
    ReachableInv(start, before);
    CancelLeavesHistory(s, v);
    InTimeIsStopped(s, v);
    var t, u := Step(s, Cancel(v, true)), s.settings.request.value;
    StepKeeps(s, Cancel(v, true));
    StoppedForGood(t, after, u);
    RunKeeps(t, after);
    if Published(u, Success) in Run(t, after).history { SuccessNeedsDeploying(Run(t, after), u); }
  }

  lemma {:induction false} SuccessNeedsDeploying(s: System, u: Uuid)
    requires Inv(s) && Published(u, Success) in s.history
    ensures Published(u, Deploying) in s.history
  {
    hide Stage, Swappable;
    var h := s.history;
    var i :| 0 <= i < |h| && h[i] == Published(u, Success);
    SafeAt(h, i);
    StageMeaning(h, u, i);
    var l :| 0 <= l < i <= |h| && h[l].RebootSaved? && h[l].u == u && Staged(h, u, 2, l);
  }

  /** And a cancel can come too late: a new device can come to a state that accepts one and deploys all the same. */
  lemma {:induction false} CancelCanBeTooLate(u: Uuid, n: nat, v: Uuid)
    requires 0 < n * OTA_PROGRESS_PERC < SIZE_MODULUS
    ensures var s := Downloaded(u, n, SETTLED, 0);
            && Factory(NewDevice(SETTLED)) && Leads(NewDevice(SETTLED), s) && AcceptsCancel(s) && Published(u, Deploying) !in s.history
            && Published(u, Deploying) in Step(Step(s, Cancel(v, true)), Plainly(true)).history
  {
    hide Leads, Step, Enabled, Factory;
    DownloadHappens(u, n, SETTLED, 0);
    CancelLeavesHistory(Downloaded(u, n, SETTLED, 0), v);
    DeploysAnyway(Downloaded(u, n, SETTLED, 0), v);
  }

  // ---------------------------------------------------------------------------------------------
  // Success without a new upgrade
  // ---------------------------------------------------------------------------------------------

  /**
   Success cannot come for the update without a new request for the upgrade: what is stored for it is
   stored with a settled boot loader, and no worker is on the way to storing it again.
   */
  predicate Barred(s: System, u: Uuid) {
    && u in s.seen && Published(u, Success) !in s.history
    && s.recovery != ToConfirm(u) && s.recovery != ToPublish(u, Success)
    && (s.settings.request == Some(u) ==> s.mcuboot == SETTLED)
    && (s.data.request == u ==>
          s.worker.NoWorker? || s.worker in {ToReadHeader, ToRequestUpgrade} || Leaving(s.worker))
  }

  /** No worker is at work for the update. */
  predicate Idling(s: System, u: Uuid) { s.data.request == u ==> s.worker.NoWorker? }

  lemma {:induction false} BarredOneStep(s: System, a: Action, u: Uuid)
    requires Inv(s) && Enabled(s, a) && Barred(s, u)
    ensures Barred(Step(s, a), u) || UpgradeRequested(u) in Step(s, a).history
    ensures Idling(s, u) ==> Barred(Step(s, a), u) && Idling(Step(s, a), u)
  {
    if a.RunWorker? {
      hide Step, Enabled, Inv;
      if s.worker.Attempting? {
        BarredAttempt(s, a.outcome, u);
      } else {
        WorkerIsUp(s);
        PayloadsAreForDownloads(s, a.outcome);
        if IsSpecial(s.worker) {
          SpecialSteps(s, a.outcome.ok);
          BarredSpecially(s, a.outcome.ok, u);
        } else {
          PlainSteps(s, a.outcome.ok);
          BarredPlainly(s, a.outcome.ok, u);
        }
      }
    } else if a.RunRecovery? {
      hide Step, Enabled;
      BarredRecovery(s, a.swapNone, a.confirmOk, u);
    } else {
      hide WorkerStep, RecoveryStep, Inv;
    }
  }

  lemma {:induction false} BarredRecovery(s: System, swapNone: bool, confirmOk: bool, u: Uuid)
    requires Inv(s) && Enabled(s, RunRecovery(swapNone, confirmOk)) && Barred(s, u)
    ensures Barred(Step(s, RunRecovery(swapNone, confirmOk)), u)
    ensures Idling(s, u) ==> Idling(Step(s, RunRecovery(swapNone, confirmOk)), u)
  {
    hide WorkerStep, WorkerStored, WorkerPhase, PhaseOf, Stage, Reported, Swappable, GoodHistory, NothingLost, Exclusive;
    hide UpdateStep, CancelStep, StoredRequest;
  }

  lemma {:induction false} WorkerIsUp(s: System)
    requires Inv(s)
    ensures !s.worker.NoWorker? ==> s.recovery.Ready? && s.settings.request in {None, Some(s.data.request)}
    ensures s.worker.ToReadHeader? ==> s.settings == Settings(Some(s.data.request), Reboot)
  {
    hide PhaseOf, Stage, Reported, Swappable, GoodHistory, NothingLost, WorkerPhase;
    if s.recovery.Ready? { StoredIsOwn(s); }
  }

  lemma {:induction false} BarredAttempt(s: System, o: Outcome, u: Uuid)
    requires Enabled(s, RunWorker(o)) && Barred(s, u) && s.worker.Attempting?
    ensures Barred(Step(s, RunWorker(o)), u) && (Idling(s, u) ==> Idling(Step(s, RunWorker(o)), u))
  {
    hide RoundedPercent, RecoveryStep, UpdateStep, CancelStep, Announced, WithoutRequest;
  }

  lemma {:induction false} BarredSpecially(s: System, ok: bool, u: Uuid)
    requires Barred(s, u) && IsSpecial(s.worker) && s.settings.request in {None, Some(s.data.request)}
    ensures var t := Special(s, ok);
            && (Barred(t, u) || UpgradeRequested(u) in t.history)
            && (Idling(s, u) ==> Barred(t, u) && Idling(t, u))
  {
  }

  lemma {:induction false} BarredPlainly(s: System, ok: bool, u: Uuid)
    requires Barred(s, u) && !s.worker.NoWorker?
    ensures var w := s.worker;
            && (Onward(w, ok).Some? ==>
                  var t := s.(worker := Onward(w, ok).value); Barred(t, u) && (Idling(s, u) ==> Idling(t, u)))
            && (Saving(w).Some? ==>
                  var t := WithState(s.(worker := Saving(w).value.1), Saving(w).value.0);
                  Barred(t, u) && (Idling(s, u) ==> Idling(t, u)))
            && (Announcement(w).Some? ==>
                  var t := Announced(s, Announcement(w).value.0, Announcement(w).value.1);
                  Barred(t, u) && (Idling(s, u) ==> Idling(t, u)))
  {
  }

  lemma {:induction false} HistoryStays(s: System, actions: seq<Action>, r: Record)
    requires CanRun(s, actions) && r in s.history
    ensures r in Run(s, actions).history
    decreases |actions|
  {
    hide Step, Enabled;
    if actions != [] {
      StepOnlyAdds(s, actions[0]);
      HistoryStays(Step(s, actions[0]), actions[1..], r);
    }
  }

  lemma {:induction false} StepOnlyAdds(s: System, a: Action)
    requires Enabled(s, a)
    ensures s.history <= Step(s, a).history
  {
    if a.RunWorker? && !s.worker.Attempting? {
      hide Step, Enabled;
      PayloadsAreForDownloads(s, a.outcome);
      if IsSpecial(s.worker) {
        SpecialSteps(s, a.outcome.ok);
      } else {
        PlainSteps(s, a.outcome.ok);
      }
    } else if a.RunWorker? {
      AttemptOnlyAdds(s, a.outcome);
    } else {
      hide WorkerStep;
    }
  }

  lemma {:induction false} AttemptOnlyAdds(s: System, o: Outcome)
    requires Enabled(s, RunWorker(o)) && s.worker.Attempting?
    ensures s.history <= Step(s, RunWorker(o)).history
  {
    hide RoundedPercent, RecoveryStep, UpdateStep, CancelStep, Announced, WithoutRequest;
  }

  lemma {:induction false} BarredForGood(s: System, actions: seq<Action>, u: Uuid)
    requires Inv(s) && CanRun(s, actions) && Barred(s, u)
    ensures Published(u, Success) in Run(s, actions).history ==> UpgradeRequested(u) in Run(s, actions).history
    ensures Idling(s, u) ==> Published(u, Success) !in Run(s, actions).history
    decreases |actions|
  {
    hide Step, Enabled, Inv;
    if actions != [] {
      var t := Step(s, actions[0]);
      StepKeeps(s, actions[0]);
      BarredOneStep(s, actions[0], u);
      if Barred(t, u) {
        BarredForGood(t, actions[1..], u);
      } else {
        HistoryStays(t, actions[1..], UpgradeRequested(u));
      }
    }
  }

  // ---------------------------------------------------------------------------------------------
  // A restart just before Success
  // ---------------------------------------------------------------------------------------------

  /** Of recovery steps and restarts, a recovery step comes first. */
  predicate RecoveryComesFirst(actions: seq<Action>) {
    actions != [] && (actions[0].RunRecovery? || (!actions[0].Restart? && RecoveryComesFirst(actions[1..])))
  }

  /**
   With the new image confirmed and Success about to be published: it is ever published if and only if
   no restart comes before the next step of the recovery.
   */
  lemma {:induction false} LateRestartCostsSuccess(start: System, before: seq<Action>, u: Uuid, after: seq<Action>)
    requires Factory(start) && CanRun(start, before) && Run(start, before).recovery == ToPublish(u, Success)
    requires CanRun(Run(start, before), after)
    ensures Published(u, Success) in Run(Run(start, before), after).history <==> RecoveryComesFirst(after)
  {
    hide Run, CanRun, Factory, Stage, Reported, Swappable, RecoveryComesFirst;
    ReachableInv(start, before);
    SuccessByOrder(Run(start, before), u, after);
  }

  lemma {:induction false} SuccessByOrder(s: System, u: Uuid, after: seq<Action>)
    requires Inv(s) && s.recovery == ToPublish(u, Success) && CanRun(s, after)
    ensures Published(u, Success) in Run(s, after).history <==> RecoveryComesFirst(after)
    decreases |after|
  {
    hide Step, Enabled, Inv;
    AboutToPublish(s, u);
    if after != [] {
      var t := Step(s, after[0]);
      StepKeeps(s, after[0]);
      FirstStep(s, u, after[0]);
      if after[0].RunRecovery? {
        HistoryStays(t, after[1..], Published(u, Success));
      } else if after[0].Restart? {
        BarredForGood(t, after[1..], u);
      } else {
        SuccessByOrder(t, u, after[1..]);
      }
    }
  }

  lemma {:induction false} AboutToPublish(s: System, u: Uuid)
    requires Inv(s) && s.recovery == ToPublish(u, Success)
    ensures Published(u, Success) !in s.history && s.settings.request == Some(u) && s.mcuboot == SETTLED
    ensures u in s.seen && s.worker.NoWorker?
  {
    hide PhaseOf, Stage, Reported, Swappable, SafeHistory, NothingLost;
    NotBroken(s.history, s.seen, u);
    if Published(u, Success) in s.history { SuccessShows(s.history, u); }
  }

  /** What can happen at that point. */
  lemma {:induction false} FirstStep(s: System, u: Uuid, a: Action)
    requires s.recovery == ToPublish(u, Success) && Enabled(s, a)
    requires Published(u, Success) !in s.history && s.settings.request == Some(u) && s.mcuboot == SETTLED && u in s.seen
    ensures var t := Step(s, a);
            && (a.RunRecovery? ==> Published(u, Success) in t.history)
            && (a.Restart? ==> Barred(t, u) && Idling(t, u))
            && (!a.RunRecovery? && !a.Restart? ==> t.recovery == s.recovery)
  {
    if a.RunRecovery? {
      var r := Published(u, Success);
      assert (s.history + [r])[|s.history|] == r;
    }
  }

  /** And a device can come to that point. */
  lemma {:induction false} LateRestartCanHappen(u: Uuid, n: nat) returns (s: System)
    requires 0 < n * OTA_PROGRESS_PERC < SIZE_MODULUS
    ensures Factory(NewDevice(SETTLED)) && Leads(NewDevice(SETTLED), s)
    ensures s.recovery == ToPublish(u, Success) && Enabled(s, Restart(SETTLED))
  {
    hide Leads, WorkerStep;
    SwapHappens(u, n, 0);
    var go := RunRecovery(true, true);
    var s0 := Swapped(u, n, 0);
    LeadsFurther(NewDevice(SETTLED), s0, go);
    var s1 := Step(s0, go);
    LeadsFurther(NewDevice(SETTLED), s1, go);
    var s2 := Step(s1, go);
    LeadsFurther(NewDevice(SETTLED), s2, go);
    var s3 := Step(s2, go);
    LeadsFurther(NewDevice(SETTLED), s3, go);
    s := Step(s3, go);
  }

  // ---------------------------------------------------------------------------------------------
  // Success without an upgrade
  // ---------------------------------------------------------------------------------------------

  /** Some continuation publishes Success although the upgrade is never requested. */
  ghost predicate CanSucceedWithoutUpgrade(s: System, u: Uuid) {
    exists after :: SucceedsWithoutUpgrade(s, u, after)
  }

  ghost predicate SucceedsWithoutUpgrade(s: System, u: Uuid, after: seq<Action>) {
    && CanRun(s, after) && Published(u, Success) in Run(s, after).history
    && UpgradeRequested(u) !in Run(s, after).history
  }

  /** The worker has not come to requesting the upgrade, or not beyond. */
  predicate BeforeRequest(w: Worker) {
    Early(w) || w in {ToAnnounceDeploying, ToSaveReboot, ToReadHeader, ToRequestUpgrade}
  }

  ghost predicate NotAhead(s: System) {
    && (forall u :: u !in s.seen ==> UpgradeRequested(u) !in s.history)
    && (BeforeRequest(s.worker) ==> UpgradeRequested(s.data.request) !in s.history)
  }

  lemma {:induction false} NotAheadOneStep(s: System, a: Action)
    requires NotAhead(s) && Enabled(s, a) && (!s.worker.NoWorker? ==> s.data.request in s.seen)
    requires !s.recovery.Ready? ==> s.worker.NoWorker?
    ensures NotAhead(Step(s, a))
  {
    if a.RunWorker? {
      hide Step, Enabled;
      if s.worker.Attempting? {
        NotAheadAttempt(s, a.outcome);
      } else {
        NotAheadWorker(s, a.outcome);
      }
    } else {
      hide WorkerStep;
    }
  }

  lemma {:induction false} NotAheadAttempt(s: System, o: Outcome)
    requires NotAhead(s) && Enabled(s, RunWorker(o)) && s.worker.Attempting? && s.data.request in s.seen
    ensures NotAhead(Step(s, RunWorker(o)))
  {
    hide RoundedPercent, RecoveryStep, UpdateStep, CancelStep, Announced, WithoutRequest;
  }

  lemma {:induction false} NotAheadWorker(s: System, o: Outcome)
    requires NotAhead(s) && Enabled(s, RunWorker(o)) && !s.worker.Attempting? && s.data.request in s.seen
    ensures NotAhead(Step(s, RunWorker(o)))
  {
    hide Step, NotAhead;
    PayloadsAreForDownloads(s, o);
    if IsSpecial(s.worker) {
      SpecialSteps(s, o.ok);
      NotAheadSpecially(s, o.ok);
    } else {
      PlainSteps(s, o.ok);
      NotAheadPlainly(s, o.ok);
    }
  }

  lemma {:induction false} NotAheadSpecially(s: System, ok: bool)
    requires NotAhead(s) && IsSpecial(s.worker) && s.data.request in s.seen
    ensures NotAhead(Special(s, ok))
  {
  }

  lemma {:induction false} NotAheadPlainly(s: System, ok: bool)
    requires NotAhead(s)
    ensures var w := s.worker;
            && (Onward(w, ok).Some? ==> NotAhead(s.(worker := Onward(w, ok).value)))
            && (Saving(w).Some? ==> NotAhead(WithState(s.(worker := Saving(w).value.1), Saving(w).value.0)))
            && (Announcement(w).Some? ==> NotAhead(Announced(s, Announcement(w).value.0, Announcement(w).value.1)))
  {
  }

  lemma {:induction false} NotAheadForGood(s: System, actions: seq<Action>)
    requires Inv(s) && NotAhead(s) && CanRun(s, actions)
    ensures NotAhead(Run(s, actions))
    decreases |actions|
  {
    hide Step, Enabled, NotAhead, Exclusive, RecoveryStored, StoredRequest, GoodHistory, NothingLost, WorkerStored, WorkerPhase;
    if actions != [] {
      StepKeeps(s, actions[0]);
      NotAheadOneStep(s, actions[0]);
      NotAheadForGood(Step(s, actions[0]), actions[1..]);
    }
  }

  /** A restart, and a recovery that finds an unconfirmed image. */
  lemma {:induction false} RestartSucceeds(s: System, u: Uuid)
    requires s.settings == Settings(Some(u), Reboot) && s.mcuboot != SETTLED && UpgradeRequested(u) !in s.history
    ensures CanSucceedWithoutUpgrade(s, u)
  {
    hide Recovered, Step, CanRun, Run;
    var unconfirmed := Mcuboot(false, false);
    var t := RestartOf(s, unconfirmed);
    AnyRestart(s, unconfirmed);
    LeadsToItself(s);
    LeadsFurther(s, s, Restart(unconfirmed));
    RecoveryLeads(t, true, true);
    var end := Recovered(t, true, true);
    LeadsOn(s, t, end);
    RecoveryInOneGo(t, true, true);
    var h := s.history + [Published(u, Success)] + [RequestDeleted(u)];
    assert end.history == h && h[|s.history|] == Published(u, Success);
    var after :| CanRun(s, after) && Run(s, after) == end;
    assert SucceedsWithoutUpgrade(s, u, after);
  }

  lemma {:induction false} AnyRestart(s: System, after: Mcuboot)
    requires s.mcuboot != SETTLED && !after.pending && !after.confirmed
    ensures Enabled(s, Restart(after)) && Step(s, Restart(after)) == RestartOf(s, after)
  {
  }

  /**
   Once state REBOOT is saved, exactly: Success can come without the upgrade ever being requested if
   and only if the boot loader was not settled, that is, an upgrade was pending already or the running
   image was not confirmed.
   */
  lemma {:induction false} SuccessWithoutUpgrade(start: System, before: seq<Action>)
    requires Factory(start) && CanRun(start, before) && Run(start, before).worker.ToReadHeader?
    ensures var s := Run(start, before);
            CanSucceedWithoutUpgrade(s, s.data.request) <==> s.mcuboot != SETTLED
  {
    hide Run, CanRun, PhaseOf, Stage, Reported, Swappable, GoodHistory, NothingLost, Early, Leaving;
    ReachableInv(start, before);
    FactoryInv(start);
    NotAheadForGood(start, before);
    var s := Run(start, before);
    var u := s.data.request;
    WorkerIsUp(s);
    if s.mcuboot != SETTLED {
      RestartSucceeds(s, u);
    } else {
      if Published(u, Success) in s.history { SuccessShows(s.history, u); }
      forall after ensures !SucceedsWithoutUpgrade(s, u, after) {
        if CanRun(s, after) { BarredForGood(s, after, u); }
      }
    }
  }

  /** And this can happen: a device whose image is not confirmed saves REBOOT, and can report Success for nothing. */
  lemma {:induction false} UpgradeCanBeSkipped(u: Uuid, n: nat)
    requires 0 < n * OTA_PROGRESS_PERC < SIZE_MODULUS
    ensures var m := Mcuboot(false, false);
            && Factory(NewDevice(m)) && Leads(NewDevice(m), RebootIsSaved(u, n, m, 0))
            && CanSucceedWithoutUpgrade(RebootIsSaved(u, n, m, 0), u)
  {
    hide Leads, CanSucceedWithoutUpgrade;
    var m := Mcuboot(false, false);
    DownloadHappens(u, n, m, 0);
    DeploymentBegins(u, n, m, 0);
    LeadsOn(NewDevice(m), Downloaded(u, n, m, 0), RebootIsSaved(u, n, m, 0));
    RestartSucceeds(RebootIsSaved(u, n, m, 0), u);
  }

  // ---------------------------------------------------------------------------------------------
  // Retries
  // ---------------------------------------------------------------------------------------------

  /** All bytes were written, and every payload announced the same size of the image. */
  predicate Written(portions: seq<Portion>, total: nat) {
    forall i :: 0 <= i < |portions| ==> portions[i].flashed.Some? && portions[i].size == total
  }

  /** The payload callbacks of one exchange, with so many bytes in flash before it. */
  function Delivery(inFlash: nat, portions: seq<Portion>): seq<Action>
    decreases |portions|
  {
    if portions == [] then []
    else
      var now := inFlash + Flashed(portions[..1]);
      [RunWorker(Outcome(true, Some(Chunk(Some(now), portions[0].size))))] + Delivery(now, portions[1..])
  }

  predicate InDownload(s: System, n: nat) {
    s.recovery.Ready? && s.worker == Attempting(n) && s.data.running
  }

  lemma {:induction false} OnePayload(s: System, n: nat, more: nat, total: nat)
    requires InDownload(s, n) && total > 0
    ensures var a := RunWorker(Outcome(true, Some(Chunk(Some(s.data.downloadSize + more), total))));
            && Enabled(s, a) && InDownload(Step(s, a), n)
            && Step(s, a).data.downloadSize == s.data.downloadSize + more && Step(s, a).data.imageSize == total
            && Step(s, a).data.request == s.data.request
  {
    hide RoundedPercent;
  }

  lemma {:induction false} DeliveryAdds(s: System, n: nat, portions: seq<Portion>, total: nat)
    requires InDownload(s, n) && total > 0 && Written(portions, total)
    ensures var actions := Delivery(s.data.downloadSize, portions);
            && CanRun(s, actions) && InDownload(Run(s, actions), n)
            && Run(s, actions).data.downloadSize == s.data.downloadSize + Flashed(portions)
            && (portions != [] ==> Run(s, actions).data.imageSize == total)
            && Run(s, actions).data.request == s.data.request
    decreases |portions|
  {
    hide Step, Enabled, InDownload;
    if portions == [] {
      RunNothing(s);
    } else {
      var more := portions[0].flashed.value;
      assert portions[..1][1..] == [];
      assert Flashed(portions[..1]) == more;
      OnePayload(s, n, more, total);
      var a := Delivery(s.data.downloadSize, portions)[0];
      var rest := Delivery(s.data.downloadSize + more, portions[1..]);
      assert Delivery(s.data.downloadSize, portions) == [a] + rest && ([a] + rest)[1..] == rest;
      assert Written(portions[1..], total) by { assert forall i :: 0 <= i < |portions[1..]| ==> portions[1..][i] == portions[i + 1]; }
      DeliveryAdds(Step(s, a), n, portions[1..], total);
      if portions[1..] == [] { RunNothing(Step(s, a)); }
    }
  }

  /**
   The bytes of all attempts are counted together, because the flash image context is set up once: an
   attempt whose exchange succeeds is good if and only if what was in flash before it and what it
   wrote add up to the size of the image. So once some bytes have been written, a later attempt that
   receives the whole image is reported as an Error.
   */
  lemma {:induction false} RetryCountsAllAttempts(s: System, n: nat, portions: seq<Portion>, total: nat)
    requires InDownload(s, n) && total > 0 && portions != [] && Written(portions, total)
    ensures CanRun(s, Delivery(s.data.downloadSize, portions))
    ensures Enabled(Run(s, Delivery(s.data.downloadSize, portions)), Plainly(true))
    ensures var end := Step(Run(s, Delivery(s.data.downloadSize, portions)), Plainly(true));
            && end.history != []
            && (GoodAttempt(end.history[|end.history| - 1], s.data.request) <==>
                  s.data.downloadSize + Flashed(portions) == total)
            && end.worker == (if s.data.downloadSize + Flashed(portions) == total then ToAnnounceDeploying else ToReportError(n))
            && (s.data.downloadSize > 0 && Flashed(portions) == total ==> end.worker == ToReportError(n))
  {
    hide CanRun, Run, Delivery, Flashed, RecoveryStep, UpdateStep, CancelStep;
    DeliveryAdds(s, n, portions, total);
  }

  // ---------------------------------------------------------------------------------------------
  // Success
  // ---------------------------------------------------------------------------------------------

  /** A device as it leaves the factory, with its boot loader in some state. */
  function NewDevice(m: Mcuboot): System {
    System(ToLoad, NoWorker, NO_DATA, 1, false, Settings(None, NoState), m, {}, [])
  }

  /** The device before any update, ready. */
  function Booted(m: Mcuboot): System {
    System(Ready, NoWorker, NO_DATA, 1, false, Settings(None, Idle), m, {}, [])
  }

  lemma {:induction false} DeviceBoots(m: Mcuboot)
    requires !m.pending
    ensures Factory(NewDevice(m)) && Leads(NewDevice(m), Booted(m))
  {
    hide Leads, WorkerStep;
    var go := RunRecovery(true, true);
    LeadsToItself(NewDevice(m));
    LeadsFurther(NewDevice(m), NewDevice(m), go);
    LeadsFurther(NewDevice(m), Step(NewDevice(m), go), go);
    LeadsFurther(NewDevice(m), Step(Step(NewDevice(m), go), go), go);
  }

  /** What an attempt without a response leaves, up to the next attempt. */
  function FailedAttempts(u: Uuid, k: nat): History {
    if k == 0 then []
    else FailedAttempts(u, k - 1) + [AttemptEnded(u, 0, 0, true, false), Published(u, Error), Published(u, Downloading(0))]
  }

  function Beginning(u: Uuid, k: nat): History {
    [Published(u, Acknowledged), RequestSaved(u), Published(u, Downloading(0))] + FailedAttempts(u, k)
  }

  /** The worker has announced an attempt, after so many failed ones. */
  function AttemptBegun(u: Uuid, m: Mcuboot, k: nat): System {
    System(Ready, Attempting(k), ThreadData(u, 0, 0, 0, true), 0, false, Settings(Some(u), InProgress), m, {u}, Beginning(u, k))
  }

  lemma {:induction false} UpdateBegins(u: Uuid, m: Mcuboot)
    ensures Leads(Booted(m), AttemptBegun(u, m, 0))
  {
    hide Leads, Step, Enabled;
    var go := Plainly(true);
    LeadsToItself(Booted(m));
    assert Enabled(Booted(m), Update(u, true)) by { UpdateAllowed(Booted(m), u); }
    LeadsFurther(Booted(m), Booted(m), Update(u, true));
    UpdateInParts(Booted(m), u, true);
    var s0 := Step(Booted(m), Update(u, true));
    assert s0 == Booted(m).(worker := ToTakeSemaphore, data := ThreadData(u, 0, 0, 0, true), seen := {u});
    LeadsSpecially(Booted(m), s0, true);
    var s1 := Special(s0, true);
    PlainSteps(s1, true);
    LeadsFurther(Booted(m), s1, go);
    var s2 := Step(s1, go);
    PlainSteps(s2, true);
    LeadsFurther(Booted(m), s2, go);
    var s3 := Step(s2, go);
    PlainSteps(s3, true);
    LeadsFurther(Booted(m), s3, go);
    var s4 := Step(s3, go);
    PlainSteps(s4, true);
    LeadsFurther(Booted(m), s4, go);
    var s5 := Step(s4, go);
    LeadsSpecially(Booted(m), s5, true);
    var s6 := Special(s5, true);
    PlainSteps(s6, true);
    LeadsFurther(Booted(m), s6, go);
    assert Step(s6, go) == AttemptBegun(u, m, 0);
  }

  /** The exchange fails without a response. */
  function AttemptFailed(u: Uuid, m: Mcuboot, k: nat): System {
    AttemptBegun(u, m, k).(worker := ToReportError(k), history := Beginning(u, k) + [AttemptEnded(u, 0, 0, true, false)])
  }

  lemma {:induction false} AttemptFails(u: Uuid, m: Mcuboot, k: nat)
    ensures Leads(AttemptBegun(u, m, k), AttemptFailed(u, m, k))
  {
    hide Leads, Payload, RecoveryStep, UpdateStep, CancelStep, Beginning;
    var s := AttemptBegun(u, m, k);
    LeadsToItself(s);
    LeadsFurther(s, s, Plainly(false));
    assert Step(s, Plainly(false)) == AttemptFailed(u, m, k);
  }

  lemma {:induction false} NextAttemptBegins(u: Uuid, m: Mcuboot, k: nat)
    requires k + 1 < 5
    ensures Leads(AttemptBegun(u, m, k), AttemptBegun(u, m, k + 1))
  {
    hide Leads, Step, Enabled;
    var s, t := AttemptBegun(u, m, k), AttemptFailed(u, m, k);
    AttemptFails(u, m, k);
    PlainSteps(t, true);
    LeadsFurther(s, t, Plainly(true));
    var t1 := Step(t, Plainly(true));
    PlainSteps(t1, true);
    LeadsFurther(s, t1, Plainly(true));
    assert Step(t1, Plainly(true)) == AttemptBegun(u, m, k + 1) by { hide *; BeginningGrows(u, k); hide Step; PlainSteps(t, true); PlainSteps(t1, true); }
  }

  lemma {:induction false} BeginningGrows(u: Uuid, k: nat)
    ensures Beginning(u, k + 1)
         == Beginning(u, k) + [AttemptEnded(u, 0, 0, true, false)] + [Published(u, Error)] + [Published(u, Downloading(0))]
  {
  }

  lemma {:induction false} AttemptsHappen(u: Uuid, m: Mcuboot, k: nat)
    requires k < 5
    ensures Leads(Booted(m), AttemptBegun(u, m, k))
  {
    hide Leads, AttemptBegun;
    if k == 0 {
      UpdateBegins(u, m);
    } else {
      AttemptsHappen(u, m, k - 1);
      NextAttemptBegins(u, m, k - 1);
      LeadsOn(Booted(m), AttemptBegun(u, m, k - 1), AttemptBegun(u, m, k));
    }
  }

  lemma {:induction false} UpdateAllowed(s: System, u: Uuid)
    requires s.recovery.Ready? && u !in s.seen && s.worker.NoWorker?
    ensures Enabled(s, Update(u, true))
  {
  }

  lemma {:induction false} FullPercent(n: nat)
    requires 0 < n * OTA_PROGRESS_PERC < SIZE_MODULUS
    ensures RoundedPercent(n, n) == 100
  {
    assert (OTA_PROGRESS_PERC * n) % SIZE_MODULUS == OTA_PROGRESS_PERC * n;
    assert OTA_PROGRESS_PERC * n / n == OTA_PROGRESS_PERC;
  }

  /** The whole image has arrived, after so many failed attempts. */
  function Downloaded(u: Uuid, n: nat, m: Mcuboot, k: nat): System {
    System(Ready, ToAnnounceDeploying, ThreadData(u, n, n, 100, true), 0, false, Settings(Some(u), InProgress),
           m, {u}, Beginning(u, k) + [Published(u, Downloading(100))] + [AttemptEnded(u, n, n, true, true)])
  }

  lemma {:induction false} ImageArrives(u: Uuid, n: nat, m: Mcuboot, k: nat)
    requires 0 < n * OTA_PROGRESS_PERC < SIZE_MODULUS
    ensures Leads(AttemptBegun(u, m, k), Downloaded(u, n, m, k))
  {
    hide Leads, RoundedPercent, RecoveryStep, UpdateStep, CancelStep, Beginning;
    var s := AttemptBegun(u, m, k);
    FullPercent(n);
    LeadsToItself(s);
    var payload := RunWorker(Outcome(true, Some(Chunk(Some(n), n))));
    LeadsFurther(s, s, payload);
    var t := Step(s, payload);
    LeadsFurther(s, t, Plainly(true));
    assert Step(t, Plainly(true)) == Downloaded(u, n, m, k);
  }

  /** The device waits for its reboot. */
  function WaitingToReboot(u: Uuid, n: nat, k: nat): System {
    System(Ready, ToReboot, ThreadData(u, n, n, 100, true), 0, false, Settings(Some(u), Reboot),
           Mcuboot(true, true), {u},
           RebootIsSaved(u, n, SETTLED, k).history + [UpgradeRequested(u)] + [Published(u, Deployed)] + [Published(u, Rebooting)])
  }

  /** State REBOOT is saved. */
  function RebootIsSaved(u: Uuid, n: nat, m: Mcuboot, k: nat): System {
    System(Ready, ToReadHeader, ThreadData(u, n, n, 100, true), 0, false, Settings(Some(u), Reboot), m, {u},
           Downloaded(u, n, m, k).history + [Published(u, Deploying)] + [RebootSaved(u, m)])
  }

  lemma {:induction false} DeploymentBegins(u: Uuid, n: nat, m: Mcuboot, k: nat)
    ensures Leads(Downloaded(u, n, m, k), RebootIsSaved(u, n, m, k))
  {
    hide Leads, Step, Enabled, Beginning;
    var s0 := Downloaded(u, n, m, k);
    var go := Plainly(true);
    LeadsToItself(s0);
    PlainSteps(s0, true);
    LeadsFurther(s0, s0, go);
    var s1 := Step(s0, go);
    LeadsSpecially(s0, s1, true);
    assert Special(s1, true) == RebootIsSaved(u, n, m, k);
  }

  lemma {:induction false} DeploymentEnds(u: Uuid, n: nat, k: nat)
    ensures Leads(RebootIsSaved(u, n, SETTLED, k), WaitingToReboot(u, n, k))
  {
    hide Leads, Step, Enabled, Beginning;
    var s2 := RebootIsSaved(u, n, SETTLED, k);
    var go := Plainly(true);
    LeadsToItself(s2);
    PlainSteps(s2, true);
    LeadsFurther(s2, s2, go);
    var s3 := Step(s2, go);
    LeadsSpecially(s2, s3, true);
    var s4 := Special(s3, true);
    PlainSteps(s4, true);
    LeadsFurther(s2, s4, go);
    var s5 := Step(s4, go);
    PlainSteps(s5, true);
    LeadsFurther(s2, s5, go);
    assert Step(s5, go) == WaitingToReboot(u, n, k);
  }

  lemma {:induction false} ImageIsDeployed(u: Uuid, n: nat, k: nat)
    ensures Leads(Downloaded(u, n, SETTLED, k), WaitingToReboot(u, n, k))
  {
    hide Leads;
    DeploymentBegins(u, n, SETTLED, k);
    DeploymentEnds(u, n, k);
    LeadsOn(Downloaded(u, n, SETTLED, k), RebootIsSaved(u, n, SETTLED, k), WaitingToReboot(u, n, k));
  }

  lemma {:induction false} LeadsOn(s: System, t: System, v: System)
    requires Leads(s, t) && Leads(t, v)
    ensures Leads(s, v)
  {
    var xs :| CanRun(s, xs) && Run(s, xs) == t;
    var ys :| CanRun(t, ys) && Run(t, ys) == v;
    RunsOn(s, xs, ys);
  }

  lemma {:induction false} RunsOn(s: System, xs: seq<Action>, ys: seq<Action>)
    requires CanRun(s, xs) && CanRun(Run(s, xs), ys)
    ensures CanRun(s, xs + ys) && Run(s, xs + ys) == Run(Run(s, xs), ys)
    decreases |xs|
  {
    hide Step, Enabled;
    if xs == [] {
      assert xs + ys == ys;
    } else {
      assert (xs + ys)[1..] == xs[1..] + ys;
      RunsOn(Step(s, xs[0]), xs[1..], ys);
    }
  }

  /** Running the recovery to its end is a run, when "no swap" is answered only without a pending upgrade. */
  lemma {:induction false} RecoveryLeads(s: System, swapNone: bool, confirmOk: bool)
    requires !s.recovery.Ready? && (swapNone ==> !s.mcuboot.pending)
    ensures Leads(s, Recovered(s, swapNone, confirmOk))
    decreases StepsLeft(s.recovery)
  {
    hide Leads, Recovered, WorkerStep;
    var go := RunRecovery(swapNone, confirmOk);
    var next := Step(s, go);
    LeadsToItself(s);
    LeadsFurther(s, s, go);
    RecoveredUnfolds(s, swapNone, confirmOk);
    if !s.recovery.ToReset? {
      RecoveryLeads(next, swapNone, confirmOk);
      LeadsOn(s, next, Recovered(next, swapNone, confirmOk));
    }
  }

  /**
   An update can go all the way, even after up to four failed attempts: for every image and every k < 5
   there is a run of a new device that publishes, for that update, exactly the whole successful sequence
   with k Errors, each followed by another attempt, and leaves the new image confirmed.
   */
  lemma {:induction false} SuccessIsPossible(u: Uuid, n: nat, k: nat) returns (end: System)
    requires 0 < n * OTA_PROGRESS_PERC < SIZE_MODULUS && k < 5
    ensures Factory(NewDevice(SETTLED)) && Leads(NewDevice(SETTLED), end)
    ensures Events(end.history, u)
         == [Acknowledged, Downloading(0)] + Retries(k) + [Downloading(100), Deploying, Deployed, Rebooting, Success]
    ensures end.recovery.Ready? && end.settings == Settings(None, Idle) && end.mcuboot == SETTLED
  {
    hide Leads, Recovered, Step, Factory, Beginning;
    SwapHappens(u, n, k);
    var s := Swapped(u, n, k);
    RecoveryLeads(s, true, true);
    end := Recovered(s, true, true);
    LeadsOn(NewDevice(SETTLED), s, end);
    RecoveryInOneGo(s, true, true);
    EventsToTheEnd(u, n, k);
  }

  lemma {:induction false} DownloadHappens(u: Uuid, n: nat, m: Mcuboot, k: nat)
    requires 0 < n * OTA_PROGRESS_PERC < SIZE_MODULUS && !m.pending && k < 5
    ensures Factory(NewDevice(m)) && Leads(NewDevice(m), Downloaded(u, n, m, k))
  {
    hide Leads, Step, Beginning;
    DeviceBoots(m);
    AttemptsHappen(u, m, k);
    LeadsOn(NewDevice(m), Booted(m), AttemptBegun(u, m, k));
    ImageArrives(u, n, m, k);
    LeadsOn(NewDevice(m), AttemptBegun(u, m, k), Downloaded(u, n, m, k));
  }

  /** The device has restarted into the new image. */
  function Swapped(u: Uuid, n: nat, k: nat): System { RestartOf(WaitingToReboot(u, n, k), Mcuboot(false, false)) }

  lemma {:induction false} SwapHappens(u: Uuid, n: nat, k: nat)
    requires 0 < n * OTA_PROGRESS_PERC < SIZE_MODULUS && k < 5
    ensures Factory(NewDevice(SETTLED)) && Leads(NewDevice(SETTLED), Swapped(u, n, k))
  {
    hide Leads, Step, Factory, Beginning;
    DownloadHappens(u, n, SETTLED, k);
    ImageIsDeployed(u, n, k);
    LeadsOn(NewDevice(SETTLED), Downloaded(u, n, SETTLED, k), WaitingToReboot(u, n, k));
    RestartIsAStep(WaitingToReboot(u, n, k), Mcuboot(false, false));
    LeadsFurther(NewDevice(SETTLED), WaitingToReboot(u, n, k), Restart(Mcuboot(false, false)));
  }

  function RestartOf(s: System, after: Mcuboot): System {
    System(ToLoad, NoWorker, NO_DATA, 1, false, s.settings, after, s.seen, s.history)
  }

  lemma {:induction false} RestartIsAStep(s: System, after: Mcuboot)
    requires s.mcuboot.pending
    ensures Enabled(s, Restart(after)) && Step(s, Restart(after)) == RestartOf(s, after)
  {
  }

  /** An Error and the next attempt, so many times. */
  function Retries(k: nat): seq<Event> {
    if k == 0 then [] else Retries(k - 1) + [Error] + [Downloading(0)]
  }

  lemma {:induction false} EventsOfBeginning(u: Uuid, k: nat)
    ensures Events(Beginning(u, k), u) == [Acknowledged, Downloading(0)] + Retries(k)
  {
    hide Events, Beginning;
    if k == 0 {
      var h0: History := [];
      EventsOneMore(h0, Published(u, Acknowledged), u);
      var h1 := [Published(u, Acknowledged)];
      EventsOneMore(h1, RequestSaved(u), u);
      EventsOneMore(h1 + [RequestSaved(u)], Published(u, Downloading(0)), u);
      BeginningIs(u);
    } else {
      EventsOfBeginning(u, k - 1);
      BeginningGrows(u, k - 1);
      var h := Beginning(u, k - 1);
      EventsOneMore(h, AttemptEnded(u, 0, 0, true, false), u);
      EventsOneMore(h + [AttemptEnded(u, 0, 0, true, false)], Published(u, Error), u);
      EventsOneMore(h + [AttemptEnded(u, 0, 0, true, false)] + [Published(u, Error)], Published(u, Downloading(0)), u);
    }
  }

  lemma {:induction false} BeginningIs(u: Uuid)
    ensures Beginning(u, 0) == [Published(u, Acknowledged)] + [RequestSaved(u)] + [Published(u, Downloading(0))]
  {
  }

  lemma {:induction false} EventsToTheEnd(u: Uuid, n: nat, k: nat)
    ensures var h := WaitingToReboot(u, n, k).history + [Published(u, Success)] + [RequestDeleted(u)];
            Events(h, u)
            == [Acknowledged, Downloading(0)] + Retries(k) + [Downloading(100), Deploying, Deployed, Rebooting, Success]
  {
    hide Events, Beginning;
    EventsOfBeginning(u, k);
    var h2 := Beginning(u, k);
    EventsOneMore(h2, Published(u, Downloading(100)), u);
    var h4 := h2 + [Published(u, Downloading(100))];
    EventsOneMore(h4, AttemptEnded(u, n, n, true, true), u);
    EventsOneMore(h4 + [AttemptEnded(u, n, n, true, true)], Published(u, Deploying), u);
    var h6 := h4 + [AttemptEnded(u, n, n, true, true)] + [Published(u, Deploying)];
    EventsOneMore(h6, RebootSaved(u, SETTLED), u);
    EventsOneMore(h6 + [RebootSaved(u, SETTLED)], UpgradeRequested(u), u);
    var h8 := h6 + [RebootSaved(u, SETTLED)] + [UpgradeRequested(u)];
    EventsOneMore(h8, Published(u, Deployed), u);
    EventsOneMore(h8 + [Published(u, Deployed)], Published(u, Rebooting), u);
    assert h8 + [Published(u, Deployed)] + [Published(u, Rebooting)] == WaitingToReboot(u, n, k).history;
    EventsOneMore(WaitingToReboot(u, n, k).history, Published(u, Success), u);
    EventsOneMore(WaitingToReboot(u, n, k).history + [Published(u, Success)], RequestDeleted(u), u);
  }

  lemma {:induction false} EventsOneMore(h: History, r: Record, u: Uuid)
    ensures Events([], u) == []
    ensures Events(h + [r], u) == Events(h, u) + EventIn(r, u)
    ensures h == [] ==> h + [r] == [r]
  {
    assert (h + [r])[..|h|] == h;
  }
}
