/** Refusals, failures and progress reports of updates: what is refused, what ends an update, what is reported. */
module OtaFailures {
  import opened CLib
  import opened Ota
  import opened OtaSafety
  import opened OtaTheorems
  import opened OtaDevice
  import opened OtaOutcomes

  // ---------------------------------------------------------------------------------------------
  // What is stored, read off the history
  // ---------------------------------------------------------------------------------------------

  /** The request stored last and not deleted since. */
  function StoredNow(h: History): Option<Uuid> {
    if h == [] then None
    else
      match h[|h| - 1]
      case RequestSaved(u) => Some(u)
      case RequestDeleted(_) => None
      case _ => StoredNow(h[..|h| - 1])
  }

  lemma {:induction false} StoredOneMore(h: History, r: Record)
    ensures StoredNow(h + [r]) == if r.RequestSaved? then Some(r.u) else if r.RequestDeleted? then None else StoredNow(h)
  {
    assert (h + [r])[..|h|] == h;
  }

  lemma {:induction false} StoredWasSaved(h: History)
    requires StoredNow(h).Some?
    ensures RequestSaved(StoredNow(h).value) in h
  {
    if !h[|h| - 1].RequestSaved? { StoredWasSaved(h[..|h| - 1]); }
  }

  lemma {:induction false} StoredOneStep(s: System, a: Action)
    requires Enabled(s, a) && s.settings.request == StoredNow(s.history)
    ensures Step(s, a).settings.request == StoredNow(Step(s, a).history)
  {
    if a.RunWorker? {
      hide Step, Enabled, StoredNow;
      StoredWorker(s, a.outcome);
    } else {
      hide WorkerStep, StoredNow;
      var t := Step(s, a);
      if t.history != s.history { StoredOneMore(s.history, t.history[|s.history|]); }
    }
  }

  lemma {:induction false} StoredWorker(s: System, o: Outcome)
    requires Enabled(s, RunWorker(o)) && s.settings.request == StoredNow(s.history)
    ensures Step(s, RunWorker(o)).settings.request == StoredNow(Step(s, RunWorker(o)).history)
  {
    if s.worker.Attempting? { StoredAttempt(s, o); } else { StoredPoint(s, o); }
  }

  lemma {:induction false} StoredAttempt(s: System, o: Outcome)
    requires Enabled(s, RunWorker(o)) && s.settings.request == StoredNow(s.history) && s.worker.Attempting?
    ensures Step(s, RunWorker(o)).settings.request == StoredNow(Step(s, RunWorker(o)).history)
  {
    hide StoredNow, RoundedPercent, RecoveryStep, UpdateStep, CancelStep;
    var t := Step(s, RunWorker(o));
    if t.history != s.history { StoredOneMore(s.history, t.history[|s.history|]); }
  }

  lemma {:induction false} StoredPoint(s: System, o: Outcome)
    requires Enabled(s, RunWorker(o)) && s.settings.request == StoredNow(s.history) && !s.worker.Attempting?
    ensures Step(s, RunWorker(o)).settings.request == StoredNow(Step(s, RunWorker(o)).history)
  {
    hide StoredNow, Step, Onward, Saving, Announcement;
    PayloadsAreForDownloads(s, o);
    if IsSpecial(s.worker) {
      SpecialSteps(s, o.ok);
      var t := Special(s, o.ok);
      if t.history != s.history { StoredOneMore(s.history, t.history[|s.history|]); }
    } else {
      PlainSteps(s, o.ok);
      OtherPoints(s.worker, o.ok);
      if Announcement(s.worker).Some? { StoredOneMore(s.history, Published(s.data.request, Announcement(s.worker).value.0)); }
    }
  }

  lemma {:induction false} StoredIsInHistory(s: System, actions: seq<Action>)
    requires CanRun(s, actions) && s.settings.request == StoredNow(s.history)
    ensures Run(s, actions).settings.request == StoredNow(Run(s, actions).history)
    decreases |actions|
  {
    hide Step, Enabled, StoredNow;
    if actions != [] {
      StoredOneStep(s, actions[0]);
      StoredIsInHistory(Step(s, actions[0]), actions[1..]);
    }
  }

  /**
   A cancel, exactly, in every reachable state after the recovery: it clears the run bit if and only if
   the bit is set, the settings work, and the request of an update has been stored and not yet deleted;
   otherwise it is refused and nothing else changes. So an update whose request is not stored yet cannot be cancelled.
   */
  lemma {:induction false} CancelIsAcceptedExactly(start: System, before: seq<Action>, v: Uuid, settingsOk: bool)
    requires Factory(start) && CanRun(start, before) && Run(start, before).recovery.Ready?
    ensures var s := Run(start, before);
            && Enabled(s, Cancel(v, settingsOk))
            && var t := Step(s, Cancel(v, settingsOk));
               && (if s.data.running && settingsOk && StoredNow(s.history).Some? then
                     t == s.(data := s.data.(running := false))
                   else
                     t == s.(seen := s.seen + {v}, history := s.history + [Refused(v)]))
               && (!s.worker.NoWorker? && RequestSaved(s.data.request) !in s.history ==> t.data == s.data)
  {
    hide Run, CanRun, Inv, StoredNow;
    ReachableInv(start, before);
    StoredIsInHistory(start, before) by { assert StoredNow([]) == None by { NothingStored(); } }
    var s := Run(start, before);
    if StoredNow(s.history).Some? {
      StoredWasSaved(s.history);
      if !s.worker.NoWorker? { OwnRequest(s); }
    }
  }

  lemma {:induction false} NothingStored()
    ensures StoredNow([]) == None
  {
  }

  lemma {:induction false} OwnRequest(s: System)
    requires Inv(s) && s.recovery.Ready?
    ensures s.settings.request in {None, Some(s.data.request)}
  {
    hide PhaseOf, Stage, Reported, Swappable, GoodHistory, NothingLost, WorkerPhase, StoredRequest;
    StoredIsOwn(s);
  }

  // ---------------------------------------------------------------------------------------------
  // A failure ends the update
  // ---------------------------------------------------------------------------------------------

  /** The update is not going on: no worker, or one on its way out or with a cancelled download. */
  predicate GivenUp(s: System, u: Uuid) {
    && u in s.seen
    && (s.data.request == u ==>
          s.worker.NoWorker? || Leaving(s.worker) || (s.worker.Attempting? && !s.data.running))
  }

  /** All that is still recorded for such an update. */
  predicate Closing(r: Record, u: Uuid) {
    r.u == u ==>
      || r.Refused? || r.RequestDeleted?
      || (r.Published? && r.event in {Success, Failure})
      || (r.AttemptEnded? && !r.running)
  }

  /** The history grows by at most one record, a closing one. */
  ghost predicate ClosesWith(h: History, k: History, u: Uuid) {
    k == h || (k != [] && k == h + [k[|k| - 1]] && Closing(k[|k| - 1], u))
  }

  lemma {:induction false} GivenUpOneStep(s: System, a: Action, u: Uuid)
    requires GivenUp(s, u) && Enabled(s, a)
    requires !s.recovery.Ready? ==> s.worker.NoWorker?
    requires s.recovery.ToPublish? ==> s.recovery.event in {Success, Failure}
    requires !s.worker.NoWorker? ==> s.settings.request in {None, Some(s.data.request)}
    ensures GivenUp(Step(s, a), u) && ClosesWith(s.history, Step(s, a).history, u)
  {
    if a.RunWorker? {
      if s.worker.Attempting? { GivenUpAttempt(s, a.outcome, u); } else { GivenUpWorker(s, a.outcome, u); }
    } else {
      hide WorkerStep, Leaving;
    }
  }

  lemma {:induction false} GivenUpAttempt(s: System, o: Outcome, u: Uuid)
    requires GivenUp(s, u) && Enabled(s, RunWorker(o)) && s.worker.Attempting?
    ensures var t := Step(s, RunWorker(o)); GivenUp(t, u) && ClosesWith(s.history, t.history, u)
  {
    hide RoundedPercent, RecoveryStep, UpdateStep, CancelStep, Announced, WithoutRequest;
  }

  lemma {:induction false} GivenUpWorker(s: System, o: Outcome, u: Uuid)
    requires GivenUp(s, u) && Enabled(s, RunWorker(o)) && !s.worker.Attempting?
    requires s.settings.request in {None, Some(s.data.request)}
    ensures var t := Step(s, RunWorker(o)); GivenUp(t, u) && ClosesWith(s.history, t.history, u)
  {
    hide Step, GivenUp, ClosesWith, Special, Onward, Saving, Announcement, Announced, WithState;
    PayloadsAreForDownloads(s, o);
    if IsSpecial(s.worker) {
      SpecialSteps(s, o.ok);
      GivenUpSpecially(s, o.ok, u);
    } else {
      PlainSteps(s, o.ok);
      OtherPoints(s.worker, o.ok);
      GivenUpPlainly(s, o.ok, u);
    }
  }

  lemma {:induction false} GivenUpSpecially(s: System, ok: bool, u: Uuid)
    requires GivenUp(s, u) && IsSpecial(s.worker) && s.settings.request in {None, Some(s.data.request)}
    ensures GivenUp(Special(s, ok), u) && ClosesWith(s.history, Special(s, ok).history, u)
  {
  }

  lemma {:induction false} GivenUpPlainly(s: System, ok: bool, u: Uuid)
    requires GivenUp(s, u)
    ensures var w := s.worker;
            && (Onward(w, ok).Some? ==> GivenUp(s.(worker := Onward(w, ok).value), u))
            && (Saving(w).Some? ==>
                  var t := WithState(s.(worker := Saving(w).value.1), Saving(w).value.0);
                  GivenUp(t, u) && t.history == s.history)
            && (Announcement(w).Some? ==>
                  var t := Announced(s, Announcement(w).value.0, Announcement(w).value.1);
                  GivenUp(t, u) && ClosesWith(s.history, t.history, u))
    ensures ClosesWith(s.history, s.history, u)
  {
  }

  lemma {:induction false} InvAtPoints(s: System)
    requires Inv(s)
    ensures !s.recovery.Ready? ==> s.worker.NoWorker?
    ensures s.recovery.ToPublish? ==> s.recovery.event in {Success, Failure}
    ensures !s.worker.NoWorker? ==> s.settings.request in {None, Some(s.data.request)} && s.data.request in s.seen
  {
    hide PhaseOf, Stage, Reported, Swappable, GoodHistory, NothingLost, WorkerPhase, StoredRequest;
    if s.recovery.Ready? { StoredIsOwn(s); }
  }

  lemma {:induction false} GivenUpForGood(s: System, actions: seq<Action>, u: Uuid)
    requires Inv(s) && CanRun(s, actions) && GivenUp(s, u)
    ensures s.history <= Run(s, actions).history
    ensures forall i :: |s.history| <= i < |Run(s, actions).history| ==> Closing(Run(s, actions).history[i], u)
    decreases |actions|
  {
    hide Inv, Step, Enabled, GivenUp, Closing;
    if actions != [] {
      InvAtPoints(s);
      StepKeeps(s, actions[0]);
      GivenUpOneStep(s, actions[0], u);
      GivenUpForGood(Step(s, actions[0]), actions[1..], u);
    }
  }

  /** Points at which the worker needs something to succeed. */
  predicate MayFail(w: Worker) {
    w in {ToInitSettings, ToPrepareFlash, ToSaveRequest, ToReadHeader, ToRequestUpgrade}
  }

  lemma {:induction false} FailureGivesUp(s: System)
    requires s.recovery.Ready? && MayFail(s.worker) && s.data.request in s.seen
    ensures Enabled(s, Plainly(false))
    ensures GivenUp(Step(s, Plainly(false)), s.data.request) && Step(s, Plainly(false)).history == s.history
  {
    hide RecoveryStep, UpdateStep, CancelStep, Payload, AttemptOver;
  }

  /**
   When the settings cannot be set up, the flash not prepared, the request not stored, the header not read
   or the upgrade not requested, the update is over: in every continuation, restarts included, nothing more
   is recorded for it but its outcome and the deletion of its request. In particular an unreadable
   header never leads to a request for the upgrade.
   */
  lemma {:induction false} FailureEndsTheUpdate(start: System, before: seq<Action>, after: seq<Action>)
    requires Factory(start) && CanRun(start, before) && MayFail(Run(start, before).worker)
    ensures var s := Run(start, before);
            && Enabled(s, Plainly(false))
            && (CanRun(Step(s, Plainly(false)), after) ==>
                  var h := Run(Step(s, Plainly(false)), after).history;
                  && s.history <= h
                  && (forall i :: |s.history| <= i < |h| ==> Closing(h[i], s.data.request))
                  && (UpgradeRequested(s.data.request) in h ==> UpgradeRequested(s.data.request) in s.history))
  {
    hide Run, CanRun, Inv, Step, Enabled, GivenUp;
    ReachableInv(start, before);
    var s := Run(start, before);
    InvAtPoints(s);
    WorkerNeedsRecovery(s);
    FailureGivesUp(s);
    StepKeeps(s, Plainly(false));
    if CanRun(Step(s, Plainly(false)), after) {
      GivenUpForGood(Step(s, Plainly(false)), after, s.data.request);
    }
  }

  lemma {:induction false} WorkerNeedsRecovery(s: System)
    requires Inv(s) && !s.worker.NoWorker?
    ensures s.recovery.Ready?
  {
    hide PhaseOf, Stage, Reported, Swappable, GoodHistory, NothingLost, WorkerPhase, StoredRequest, WorkerStored;
  }

  /**
   A cancel that is accepted during a download stops it: in every continuation nothing more is recorded for the
   update than the end of the attempt, its outcome and the deletion of its request, and no byte is written to the
   flash for it.
   */
  lemma {:induction false} CancelStopsTheDownload(start: System, before: seq<Action>, v: Uuid, after: seq<Action>)
    requires Factory(start) && CanRun(start, before)
    requires AcceptsCancel(Run(start, before)) && Run(start, before).worker.Attempting?
    requires CanRun(Step(Run(start, before), Cancel(v, true)), after)
    ensures var s := Run(start, before);
            var t := Run(Step(s, Cancel(v, true)), after);
            && s.history <= t.history
            && (forall i :: |s.history| <= i < |t.history| ==> Closing(t.history[i], s.data.request))
            && (t.data.request == s.data.request ==> t.data.downloadSize <= s.data.downloadSize)
  {
    hide Run, CanRun, Inv, Step, Enabled, GivenUp;
    ReachableInv(start, before);
    var s := Run(start, before);
    InvAtPoints(s);
    CancelLeavesHistory(s, v);
    CancelGivesUp(s, v);
    StepKeeps(s, Cancel(v, true));
    var c := Step(s, Cancel(v, true));
    GivenUpForGood(c, after, s.data.request);
    NoMoreBytes(c, after, s.data.request, s.data.downloadSize);
  }

  lemma {:induction false} CancelGivesUp(s: System, v: Uuid)
    requires AcceptsCancel(s) && s.worker.Attempting? && s.data.request in s.seen
    ensures Enabled(s, Cancel(v, true)) && GivenUp(Step(s, Cancel(v, true)), s.data.request)
    ensures Step(s, Cancel(v, true)).data == s.data.(running := false)
  {
  }

  lemma {:induction false} NoByteInOneStep(s: System, a: Action, u: Uuid)
    requires GivenUp(s, u) && Enabled(s, a)
    ensures var t := Step(s, a);
            t.data.request == u ==> t.data.downloadSize == 0 || (s.data.request == u && t.data.downloadSize == s.data.downloadSize)
  {
    hide RoundedPercent;
  }

  lemma {:induction false} NoMoreBytes(s: System, actions: seq<Action>, u: Uuid, n: nat)
    requires Inv(s) && CanRun(s, actions) && GivenUp(s, u) && (s.data.request == u ==> s.data.downloadSize <= n)
    ensures Run(s, actions).data.request == u ==> Run(s, actions).data.downloadSize <= n
    decreases |actions|
  {
    hide Inv, Step, Enabled, GivenUp;
    if actions != [] {
      InvAtPoints(s);
      StepKeeps(s, actions[0]);
      GivenUpOneStep(s, actions[0], u);
      NoByteInOneStep(s, actions[0], u);
      NoMoreBytes(Step(s, actions[0]), actions[1..], u, n);
    }
  }

  // ---------------------------------------------------------------------------------------------
  // The way out
  // ---------------------------------------------------------------------------------------------

  /** Steps to the end of a worker that is on its way out. */
  function StepsOut(w: Worker): nat {
    match w
    case ToReportFailure(performed) => if performed then 6 else 5
    case ToSaveIdleFirst => 5
    case ToClearRunBit => 4
    case ToDeleteRequest => 3
    case ToSaveIdle => 2
    case ToGiveSemaphore => 1
    case _ => 0
  }

  function Plain(n: nat): (actions: seq<Action>)
    ensures |actions| == n && forall i :: 0 <= i < n ==> actions[i] == Plainly(true)
  {
    if n == 0 then [] else [Plainly(true)] + Plain(n - 1)
  }

  lemma {:induction false} LeavingOneStep(s: System)
    requires s.recovery.Ready? && Leaving(s.worker)
    ensures Enabled(s, Plainly(true))
    ensures var t := Step(s, Plainly(true));
            && t.recovery.Ready? && StepsOut(t.worker) == StepsOut(s.worker) - 1
            && (Leaving(t.worker) || t.worker.NoWorker?)
            && (t.worker.NoWorker? <==> s.worker.ToGiveSemaphore?)
  {
    hide RecoveryStep, UpdateStep, CancelStep, Payload, AttemptOver;
  }

  lemma {:induction false} LeavingEnds(s: System)
    requires s.recovery.Ready? && Leaving(s.worker)
    ensures CanRun(s, Plain(StepsOut(s.worker)))
    ensures Run(s, Plain(StepsOut(s.worker))).worker.NoWorker? && Run(s, Plain(StepsOut(s.worker))).recovery.Ready?
    decreases StepsOut(s.worker)
  {
    hide Step, Enabled;
    LeavingOneStep(s);
    var t := Step(s, Plainly(true));
    assert ([Plainly(true)] + Plain(StepsOut(t.worker)))[1..] == Plain(StepsOut(t.worker));
    if Leaving(t.worker) {
      LeavingEnds(t);
    } else {
      assert Plain(0) == [];
      RunNothing(t);
    }
  }

  /** A worker on its way out gets there in at most six steps: the semaphore is free, and nothing is stored. */
  lemma {:induction false} FailedWorkerLeaves(start: System, before: seq<Action>)
    requires Factory(start) && CanRun(start, before) && Leaving(Run(start, before).worker)
    ensures var s := Run(start, before);
            && StepsOut(s.worker) <= 6 && CanRun(s, Plain(StepsOut(s.worker)))
            && var t := Run(s, Plain(StepsOut(s.worker)));
               t.worker.NoWorker? && t.settings == Settings(None, Idle) && t.semaphore == 1
  {
    hide Run, CanRun, PhaseOf, Stage, Reported, Swappable, GoodHistory, NothingLost, WorkerPhase, StoredRequest;
    ReachableInv(start, before);
    var s := Run(start, before);
    WorkerNeedsRecovery(s);
    LeavingEnds(s);
    RunKeeps(s, Plain(StepsOut(s.worker)));
    NoTransferMeanwhile(s, Plain(StepsOut(s.worker)));
  }

  lemma {:induction false} NoTransferMeanwhile(s: System, actions: seq<Action>)
    requires CanRun(s, actions) && (forall i :: 0 <= i < |actions| ==> actions[i].RunWorker?) && !s.transferHolds
    ensures !Run(s, actions).transferHolds
    decreases |actions|
  {
    hide Step, Enabled;
    if actions != [] {
      WorkerTransfersNothing(s, actions[0]);
      NoTransferMeanwhile(Step(s, actions[0]), actions[1..]);
    }
  }

  lemma {:induction false} WorkerTransfersNothing(s: System, a: Action)
    requires Enabled(s, a) && a.RunWorker?
    ensures Step(s, a).transferHolds == s.transferHolds
  {
    hide RoundedPercent;
  }

  // ---------------------------------------------------------------------------------------------
  // What a failure leaves stored
  // ---------------------------------------------------------------------------------------------

  /** The state that stays stored until the request is deleted: REBOOT once Deploying was published, else IDLE. */
  predicate Remains(s: System) {
    s.settings.state == if Published(s.data.request, Deploying) in s.history then Reboot else Idle
  }

  predicate Lingering(s: System) {
    var deploying := Published(s.data.request, Deploying) in s.history;
    match s.worker
    case NoWorker => true
    case ToReportFailure(performed) => if performed then !deploying else Remains(s)
    case ToClearRunBit => Remains(s)
    case ToDeleteRequest => Remains(s)
    case ToSaveReboot => deploying
    case ToReadHeader => deploying
    case ToRequestUpgrade => deploying
    case ToAnnounceDeployed => true
    case ToAnnounceReboot => true
    case ToReboot => true
    case ToSaveIdle => true
    case ToGiveSemaphore => true
    case _ => !deploying
  }

  lemma {:induction false} DeployingOneMore(h: History, r: Record, u: Uuid)
    ensures Published(u, Deploying) in h + [r] <==> Published(u, Deploying) in h || r == Published(u, Deploying)
  {
  }

  lemma {:induction false} LingeringAttempt(s: System, o: Outcome)
    requires Lingering(s) && Enabled(s, RunWorker(o)) && s.worker.Attempting?
    ensures Lingering(Step(s, RunWorker(o)))
  {
    hide RoundedPercent, RecoveryStep, UpdateStep, CancelStep, Announced, WithoutRequest;
    var t := Step(s, RunWorker(o));
    if t.history != s.history { DeployingOneMore(s.history, t.history[|s.history|], s.data.request); }
  }

  lemma {:induction false} LingeringWorker(s: System, o: Outcome)
    requires Lingering(s) && Enabled(s, RunWorker(o)) && !s.worker.Attempting?
    requires s.worker.ToInitSettings? ==> s.settings.state == Idle
    requires s.worker in {ToReadHeader, ToRequestUpgrade} ==> s.settings.state == Reboot
    ensures Lingering(Step(s, RunWorker(o)))
  {
    hide Step, Onward, Saving, Announcement, Special, Lingering, Announced, WithState;
    PayloadsAreForDownloads(s, o);
    if IsSpecial(s.worker) {
      SpecialSteps(s, o.ok);
      LingeringSpecially(s, o.ok);
    } else {
      PlainSteps(s, o.ok);
      OtherPoints(s.worker, o.ok);
      LingeringPlainly(s, o.ok);
    }
  }

  lemma {:induction false} LingeringSpecially(s: System, ok: bool)
    requires Lingering(s) && IsSpecial(s.worker)
    requires s.worker in {ToReadHeader, ToRequestUpgrade} ==> s.settings.state == Reboot
    ensures Lingering(Special(s, ok))
  {
    var t := Special(s, ok);
    if t.history != s.history { DeployingOneMore(s.history, t.history[|s.history|], s.data.request); }
  }

  lemma {:induction false} LingeringPlainly(s: System, ok: bool)
    requires Lingering(s)
    requires s.worker.ToInitSettings? ==> s.settings.state == Idle
    requires s.worker.ToReadHeader? ==> s.settings.state == Reboot
    ensures var w := s.worker;
            && (Onward(w, ok).Some? ==> Lingering(s.(worker := Onward(w, ok).value)))
            && (Saving(w).Some? ==> Lingering(WithState(s.(worker := Saving(w).value.1), Saving(w).value.0)))
            && (Announcement(w).Some? ==> Lingering(Announced(s, Announcement(w).value.0, Announcement(w).value.1)))
  {
    if Announcement(s.worker).Some? {
      DeployingOneMore(s.history, Published(s.data.request, Announcement(s.worker).value.0), s.data.request);
    }
  }

  lemma {:induction false} LingeringOtherwise(s: System, a: Action)
    requires Lingering(s) && Enabled(s, a) && !a.RunWorker?
    requires a.Update? ==> Published(a.u, Deploying) !in s.history
    requires s.recovery.ToPublish? ==> s.recovery.event != Deploying
    requires !s.recovery.Ready? ==> s.worker.NoWorker?
    ensures Lingering(Step(s, a))
  {
    hide WorkerStep;
    var t := Step(s, a);
    if t.history != s.history { DeployingOneMore(s.history, t.history[|s.history|], s.data.request); }
  }

  lemma {:induction false} StoredAtPoints(s: System)
    requires Inv(s)
    ensures s.worker.ToInitSettings? ==> s.settings.state == Idle
    ensures s.worker in {ToReadHeader, ToRequestUpgrade} ==> s.settings.state == Reboot
  {
    hide PhaseOf, Stage, Reported, Swappable, GoodHistory, NothingLost, WorkerPhase, StoredRequest;
  }

  lemma {:induction false} NewUpdateWasNotDeployed(s: System, u: Uuid)
    requires Inv(s) && u !in s.seen
    ensures Published(u, Deploying) !in s.history
  {
    hide PhaseOf, Stage, Reported, Swappable, SafeHistory, NothingLost, WorkerPhase, StoredRequest, WorkerStored;
    if Published(u, Deploying) in s.history { DeployingShows(s.history, u); }
    NotBroken(s.history, s.seen, u);
  }

  lemma {:induction false} LingeringRun(s: System, actions: seq<Action>)
    requires Inv(s) && Lingering(s) && CanRun(s, actions)
    ensures Lingering(Run(s, actions))
    decreases |actions|
  {
    hide Inv, Lingering, Step, Enabled;
    if actions != [] {
      var a := actions[0];
      StepKeeps(s, a);
      InvAtPoints(s);
      StoredAtPoints(s);
      LingeringOneStep(s, a);
      LingeringRun(Step(s, a), actions[1..]);
    }
  }

  lemma {:induction false} LingeringOneStep(s: System, a: Action)
    requires Inv(s) && Lingering(s) && Enabled(s, a)
    ensures Lingering(Step(s, a))
  {
    InvAtPoints(s);
    StoredAtPoints(s);
    if a.Update? { NewUpdateIsNew(s, a); }
    hide Inv, Lingering, Step;
    if !a.RunWorker? { LingeringOtherwise(s, a); }
    else if s.worker.Attempting? { LingeringAttempt(s, a.outcome); }
    else { LingeringWorker(s, a.outcome); }
  }

  lemma {:induction false} NewUpdateIsNew(s: System, a: Action)
    requires Inv(s) && Enabled(s, a) && a.Update?
    ensures Published(a.u, Deploying) !in s.history
  {
    hide Inv;
    NewUpdateWasNotDeployed(s, a.u);
  }

  /**
   While the worker is about to clear the run bit and delete the request, state REBOOT is stored if Deploying
   had been published for the update, and IDLE if not: a failed download is set back to IDLE before anything
   else, a failed deployment only after its request is deleted.
   */
  lemma {:induction false} FailureLeavesStored(start: System, before: seq<Action>)
    requires Factory(start) && CanRun(start, before)
    ensures var s := Run(start, before);
            s.worker in {ToClearRunBit, ToDeleteRequest} ==>
              s.settings.state == if Published(s.data.request, Deploying) in s.history then Reboot else Idle
  {
    hide Run, CanRun, Inv;
    FactoryInv(start);
    LingeringRun(start, before);
  }

  // ---------------------------------------------------------------------------------------------
  // Accepting updates
  // ---------------------------------------------------------------------------------------------

  /** The device is up without a worker, and the run bit is set: no update will be accepted until it restarts. */
  predicate Blocked(s: System) {
    s.recovery.Ready? && s.worker.NoWorker? && s.data.running && s.settings.request.None?
  }

  /** An update is refused while the run bit is set; otherwise a worker with a clean record begins, if it can be created. */
  lemma {:induction false} UpdateIsDecided(s: System, u: Uuid, created: bool)
    requires Enabled(s, Update(u, created))
    ensures var t := Step(s, Update(u, created));
            if s.data.running then t == s.(seen := s.seen + {u}, history := s.history + [Refused(u)])
            else
              && t.data == ThreadData(u, 0, 0, 0, true) && t.settings == s.settings && t.seen == s.seen + {u}
              && (created ==> t.worker == ToTakeSemaphore && t.history == s.history)
              && (!created ==> t.worker == s.worker && t.history == s.history + [Refused(u)])
  {
    hide WorkerStep, RecoveryStep;
  }

  lemma {:induction false} BlockedOneStep(s: System, a: Action)
    requires Blocked(s) && Enabled(s, a) && !a.Restart?
    ensures Blocked(Step(s, a))
    ensures a.Update? || a.Cancel? ==> Step(s, a).history == s.history + [Refused(a.u)]
    ensures !a.Update? && !a.Cancel? ==> Step(s, a).history == s.history
  {
    hide WorkerStep, RecoveryStep;
  }

  predicate OnlyRefusals(h: History, from: nat) {
    forall i :: from <= i < |h| ==> h[i].Refused?
  }

  lemma {:induction false} BlockedStays(s: System, actions: seq<Action>)
    requires Blocked(s) && CanRun(s, actions) && forall i :: 0 <= i < |actions| ==> !actions[i].Restart?
    ensures Blocked(Run(s, actions)) && s.history <= Run(s, actions).history && OnlyRefusals(Run(s, actions).history, |s.history|)
    decreases |actions|
  {
    hide Step, Enabled, Blocked;
    if actions != [] {
      BlockedOneStep(s, actions[0]);
      BlockedStays(Step(s, actions[0]), actions[1..]);
    }
  }

  /**
   A worker that cannot be created blocks updates: the run bit stays set, and until the device restarts
   every further update and cancel is refused and nothing else is recorded.
   */
  lemma {:induction false} FailedCreationBlocksUpdates(start: System, before: seq<Action>, u: Uuid, after: seq<Action>)
    requires Factory(start) && CanRun(start, before)
    requires var s := Run(start, before); Enabled(s, Update(u, false)) && !s.data.running
    requires CanRun(Step(Run(start, before), Update(u, false)), after)
    requires forall i :: 0 <= i < |after| ==> !after[i].Restart?
    ensures var s := Run(start, before);
            var t := Run(Step(s, Update(u, false)), after);
            t.worker.NoWorker? && t.data.running && s.history <= t.history && OnlyRefusals(t.history, |s.history|)
  {
    hide Run, CanRun, PhaseOf, Stage, Reported, Swappable, GoodHistory, NothingLost, WorkerPhase, StoredRequest, OnlyRefusals;
    ReachableInv(start, before);
    var s := Run(start, before);
    var t := Step(s, Update(u, false));
    assert Blocked(t);
    BlockedStays(t, after);
    assert t.history == s.history + [Refused(u)];
    RefusalsFrom(s.history, Run(t, after).history, u);
  }

  lemma {:induction false} RefusalsFrom(h: History, k: History, u: Uuid)
    requires h + [Refused(u)] <= k && OnlyRefusals(k, |h| + 1)
    ensures h <= k && OnlyRefusals(k, |h|)
  {
    assert k[|h|] == (h + [Refused(u)])[|h|];
  }

  // ---------------------------------------------------------------------------------------------
  // Progress reports
  // ---------------------------------------------------------------------------------------------

  /**
   The percentage that is reported: a multiple of ten, never more than the true one, and less than ten
   below it as long as a hundred times the bytes fit `size_t`.
   */
  lemma {:induction false} ReportedPercent(written: nat, size: nat)
    requires size > 0
    ensures var p := RoundedPercent(written, size);
            && p % 10 == 0
            && p * size <= 100 * written
            && (100 * written < SIZE_MODULUS ==> 100 * written < (p + 10) * size)
  {
    var scaled := (100 * written) % SIZE_MODULUS;
    var p, percent := RoundedPercent(written, size), scaled / size;
    assert p == percent - percent % 10;
    hide RoundedPercent;
    Remainder(100 * written, SIZE_MODULUS);
    Quotient(scaled, size);
    Scaled(p, percent, size);
    Scaled(percent + 1, p + 10, size);
  }

  lemma {:induction false} Quotient(a: nat, b: nat)
    requires b > 0
    ensures a / b * b <= a < (a / b + 1) * b
  {
  }

  lemma {:induction false} Remainder(a: nat, m: nat)
    requires m > 0
    ensures a % m <= a && (a < m ==> a % m == a)
  {
    assert a == a / m * m + a % m;
  }

  lemma {:induction false} Scaled(a: nat, b: nat, size: nat)
    requires a <= b
    ensures a * size <= b * size
  {
  }

  /** Every percentage in the history is a multiple of ten. */
  predicate AllRounded(h: History) {
    forall i :: 0 <= i < |h| && h[i].Published? && h[i].event.Downloading? ==> h[i].event.percent % 10 == 0
  }

  lemma {:induction false} RoundedOneMore(h: History, r: Record)
    ensures AllRounded(h + [r]) <==> AllRounded(h) && (r.Published? && r.event.Downloading? ==> r.event.percent % 10 == 0)
  {
    var more := h + [r];
    assert more[|h|] == r && forall i :: 0 <= i < |h| ==> more[i] == h[i];
  }

  lemma {:induction false} RoundedOneStep(s: System, a: Action)
    requires Enabled(s, a) && AllRounded(s.history) && (s.recovery.ToPublish? ==> s.recovery.event in {Success, Failure})
    ensures AllRounded(Step(s, a).history)
  {
    if a.RunWorker? {
      hide Step, Enabled, AllRounded;
      RoundedWorker(s, a.outcome);
    } else {
      hide WorkerStep, AllRounded;
      var t := Step(s, a);
      if t.history != s.history { RoundedOneMore(s.history, t.history[|s.history|]); }
    }
  }

  lemma {:induction false} RoundedWorker(s: System, o: Outcome)
    requires Enabled(s, RunWorker(o)) && AllRounded(s.history)
    ensures AllRounded(Step(s, RunWorker(o)).history)
  {
    hide AllRounded, Step, Onward, Saving, Announcement;
    if s.worker.Attempting? {
      if o.chunk.Some? { RoundedPayload(s, o); } else { RoundedEnd(s, o); }
    } else {
      PayloadsAreForDownloads(s, o);
      if IsSpecial(s.worker) {
        SpecialSteps(s, o.ok);
        var t := Special(s, o.ok);
        if t.history != s.history { RoundedOneMore(s.history, t.history[|s.history|]); }
      } else {
        PlainSteps(s, o.ok);
        OtherPoints(s.worker, o.ok);
        if Announcement(s.worker).Some? {
          if Announcement(s.worker).value.0.Downloading? { AnnouncedPercent(s.worker); }
          RoundedOneMore(s.history, Published(s.data.request, Announcement(s.worker).value.0));
        }
      }
    }
  }

  lemma {:induction false} AnnouncedPercent(w: Worker)
    requires Announcement(w).Some? && Announcement(w).value.0.Downloading?
    ensures Announcement(w).value.0.percent == 0
  {
  }

  lemma {:induction false} RoundedEnd(s: System, o: Outcome)
    requires Enabled(s, RunWorker(o)) && s.worker.Attempting? && o.chunk.None? && AllRounded(s.history)
    ensures AllRounded(Step(s, RunWorker(o)).history)
  {
    hide AllRounded, RecoveryStep, UpdateStep, CancelStep, Payload;
    RoundedOneMore(s.history, Step(s, RunWorker(o)).history[|s.history|]);
  }

  lemma {:induction false} RoundedPayload(s: System, o: Outcome)
    requires Enabled(s, RunWorker(o)) && s.worker.Attempting? && o.chunk.Some? && AllRounded(s.history)
    ensures AllRounded(Step(s, RunWorker(o)).history)
  {
    if o.chunk.value.written.Some? { ReportedPercent(o.chunk.value.written.value, o.chunk.value.size); }
    hide AllRounded, RoundedPercent, RecoveryStep, UpdateStep, CancelStep, AttemptOver;
    var t := Step(s, RunWorker(o));
    if t.history != s.history { RoundedOneMore(s.history, t.history[|s.history|]); }
  }

  /** In every run, with any restarts, every percentage that is published is a multiple of ten. */
  lemma {:induction false} ReportsAreRounded(start: System, actions: seq<Action>)
    requires Factory(start) && CanRun(start, actions)
    ensures AllRounded(Run(start, actions).history)
  {
    hide Run, CanRun, Inv;
    FactoryInv(start);
    RoundedRun(start, actions);
  }

  lemma {:induction false} RoundedRun(s: System, actions: seq<Action>)
    requires Inv(s) && CanRun(s, actions) && AllRounded(s.history)
    ensures AllRounded(Run(s, actions).history)
    decreases |actions|
  {
    hide Inv, Step, Enabled, AllRounded;
    if actions != [] {
      InvAtPoints(s);
      StepKeeps(s, actions[0]);
      RoundedOneStep(s, actions[0]);
      RoundedRun(Step(s, actions[0]), actions[1..]);
    }
  }

  /** More bytes never mean a lower percentage. */
  lemma {:induction false} PercentGrows(written: nat, more: nat, size: nat)
    requires size > 0 && written <= more && 100 * more < SIZE_MODULUS
    ensures RoundedPercent(written, size) <= RoundedPercent(more, size)
  {
    var p, q := RoundedPercent(written, size), RoundedPercent(more, size);
    ReportedPercent(written, size);
    ReportedPercent(more, size);
    if p > q {
      assert p >= q + 10;
      Scaled(q + 10, p, size);
    }
  }

  /** The percentages a history reports for one update from some point on. */
  function Reports(h: History, from: nat): seq<nat>
    requires from <= |h|
  {
    if |h| == from then []
    else
      Reports(h[..|h| - 1], from)
      + if h[|h| - 1].Published? && h[|h| - 1].event.Downloading? then [h[|h| - 1].event.percent] else []
  }

  /** Multiples of ten, each above the one before, all above the last one reported. */
  predicate Climbing(reports: seq<nat>, last: nat) {
    && (forall i :: 0 <= i < |reports| ==> reports[i] % 10 == 0 && reports[i] > last)
    && (forall i, j :: 0 <= i < j < |reports| ==> reports[i] < reports[j])
  }

  /** One payload reports its percentage if it is above the last one. */
  lemma {:induction false} PayloadReports(s: System, n: nat, more: nat, total: nat)
    requires InDownload(s, n) && 0 < total && s.data.lastPercent == RoundedPercent(s.data.downloadSize, total)
    requires 100 * (s.data.downloadSize + more) < SIZE_MODULUS
    requires RoundedPercent(s.data.downloadSize + more, total) < 256
    ensures var a := RunWorker(Outcome(true, Some(Chunk(Some(s.data.downloadSize + more), total))));
            var p := RoundedPercent(s.data.downloadSize + more, total);
            && Enabled(s, a)
            && Step(s, a).data.lastPercent == p >= s.data.lastPercent
            && Step(s, a).history
               == s.history + if p > s.data.lastPercent then [Published(s.data.request, Downloading(p))] else []
  {
    PercentGrows(s.data.downloadSize, s.data.downloadSize + more, total);
    hide RoundedPercent;
    assert s.history + [] == s.history;
  }

  /**
   One payload in general: the sizes are taken over, and the percentage is published if it is not the one
   kept, of which there is one byte; so beyond 255 the same percentage is published again and again.
   */
  lemma {:induction false} PercentIsKeptInAByte(s: System, n: nat, more: nat, total: nat)
    requires InDownload(s, n) && 0 < total
    ensures var a := RunWorker(Outcome(true, Some(Chunk(Some(s.data.downloadSize + more), total))));
            var p := RoundedPercent(s.data.downloadSize + more, total);
            && Enabled(s, a)
            && var t := Step(s, a);
               && t.data.downloadSize == s.data.downloadSize + more && t.data.imageSize == total
               && t.history == (if p == s.data.lastPercent then s.history else s.history + [Published(s.data.request, Downloading(p))])
               && t.data.lastPercent == (if p == s.data.lastPercent then p else p % 256)
               && (p > 255 && s.data.lastPercent <= 255 ==> t.history != s.history && t.data.lastPercent <= 255)
  {
    hide RoundedPercent;
  }

  lemma {:induction false} ReportsOneMore(h: History, from: nat, r: Record)
    requires from <= |h|
    ensures Reports(h + [r], from) == Reports(h, from) + if r.Published? && r.event.Downloading? then [r.event.percent] else []
  {
    assert (h + [r])[..|h|] == h;
  }

  /**
   The progress of one exchange: with payloads that announce one size and are all written, the percentages
   published are multiples of ten, each above the one before, and the last one reported is less than ten
   below the true one in the end.
   */
  lemma {:induction false} DownloadReports(s: System, n: nat, portions: seq<Portion>, total: nat)
    requires InDownload(s, n) && 0 < total && Written(portions, total)
    requires s.data.lastPercent == RoundedPercent(s.data.downloadSize, total)
    requires 100 * (s.data.downloadSize + Flashed(portions)) < SIZE_MODULUS
    requires RoundedPercent(s.data.downloadSize + Flashed(portions), total) < 256
    ensures CanRun(s, Delivery(s.data.downloadSize, portions))
    ensures var t := Run(s, Delivery(s.data.downloadSize, portions));
            && |s.history| <= |t.history| && t.data.lastPercent >= s.data.lastPercent
            && Climbing(Reports(t.history, |s.history|), s.data.lastPercent)
            && t.data.lastPercent == RoundedPercent(s.data.downloadSize + Flashed(portions), total)
            && (var reports := Reports(t.history, |s.history|);
                t.data.lastPercent == if reports == [] then s.data.lastPercent else reports[|reports| - 1])
  {
    hide CanRun, Run, Delivery, Flashed, RoundedPercent, Written, InDownload, Climbing;
    assert Standing(s.history, |s.history|, s.data.lastPercent, s.data.lastPercent) by { NoReports(s.history, s.data.lastPercent); }
    ReportsClimb(s, n, portions, total, |s.history|, s.data.lastPercent);
    LastReport(Run(s, Delivery(s.data.downloadSize, portions)).history, |s.history|, s.data.lastPercent,
               Run(s, Delivery(s.data.downloadSize, portions)).data.lastPercent);
  }

  lemma {:induction false} NoReports(h: History, last: nat)
    ensures Reports(h, |h|) == [] && Standing(h, |h|, last, last)
  {
  }

  lemma {:induction false} LastReport(h: History, from: nat, first: nat, last: nat)
    requires Standing(h, from, first, last)
    ensures last >= first
  {
    hide Reports;
  }

  /** Where the reports stand: so far they climb, and end with the last percentage. */
  predicate Standing(h: History, from: nat, first: nat, last: nat)
  {
    && from <= |h|
    && var reports := Reports(h, from);
       && Climbing(reports, first) && last == if reports == [] then first else reports[|reports| - 1]
  }

  lemma {:induction false} StandingOneMore(h: History, from: nat, first: nat, last: nat, u: Uuid, p: nat)
    requires Standing(h, from, first, last) && p > last && p % 10 == 0
    ensures Standing(h + [Published(u, Downloading(p))], from, first, p)
  {
    hide Reports;
    ReportsOneMore(h, from, Published(u, Downloading(p)));
    var reports := Reports(h, from);
    var more := reports + [p];
    assert forall i :: 0 <= i < |reports| ==> more[i] == reports[i];
    assert forall i :: 0 <= i < |reports| ==> reports[i] <= last;
  }

  lemma {:induction false} ReportsClimb(
    s: System, n: nat, portions: seq<Portion>, total: nat, from: nat, first: nat)
    requires InDownload(s, n) && 0 < total && Written(portions, total)
    requires s.data.lastPercent == RoundedPercent(s.data.downloadSize, total)
    requires 100 * (s.data.downloadSize + Flashed(portions)) < SIZE_MODULUS
    requires RoundedPercent(s.data.downloadSize + Flashed(portions), total) < 256
    requires Standing(s.history, from, first, s.data.lastPercent)
    ensures CanRun(s, Delivery(s.data.downloadSize, portions))
    ensures var t := Run(s, Delivery(s.data.downloadSize, portions));
            && t.data.lastPercent == RoundedPercent(s.data.downloadSize + Flashed(portions), total)
            && Standing(t.history, from, first, t.data.lastPercent)
    decreases |portions|
  {
    hide Step, Enabled, InDownload, RoundedPercent, Standing;
    if portions == [] {
      RunNothing(s);
    } else {
      var more := portions[0].flashed.value;
      assert portions[..1][1..] == [];
      assert Flashed(portions[..1]) == more;
      OnePayload(s, n, more, total);
      PercentGrows(s.data.downloadSize + more, s.data.downloadSize + Flashed(portions), total);
      PayloadReports(s, n, more, total);
      var a := Delivery(s.data.downloadSize, portions)[0];
      var t := Step(s, a);
      var p := RoundedPercent(s.data.downloadSize + more, total);
      ReportedPercent(s.data.downloadSize + more, total);
      if p > s.data.lastPercent {
        StandingOneMore(s.history, from, first, s.data.lastPercent, s.data.request, p);
      } else {
        assert t.history == s.history by { assert s.history + [] == s.history; }
      }
      var rest := Delivery(s.data.downloadSize + more, portions[1..]);
      assert Delivery(s.data.downloadSize, portions) == [a] + rest && ([a] + rest)[1..] == rest;
      assert Written(portions[1..], total) by { assert forall i :: 0 <= i < |portions[1..]| ==> portions[1..][i] == portions[i + 1]; }
      ReportsClimb(t, n, portions[1..], total, from, first);
    }
  }
}
