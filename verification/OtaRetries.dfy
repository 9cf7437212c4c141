/** Failed downloads are tried again: what a Failure published by the worker means. */
module OtaRetries {
  import opened CLib
  import opened Ota
  import opened OtaSafety
  import opened OtaTheorems
  import opened OtaDevice
  import opened OtaOutcomes

  // ---------------------------------------------------------------------------------------------
  // Reading a history
  // ---------------------------------------------------------------------------------------------

  /** No attempt for this update has found the run bit cleared. */
  predicate AllRan(h: History, u: Uuid) {
    forall i :: 0 <= i < |h| && AttemptOf(h[i], u) ==> h[i].running
  }

  /** Every record is about a known identifier. */
  ghost predicate AllKnown(h: History, seen: set<Uuid>) {
    forall i :: 0 <= i < |h| ==> h[i].u in seen
  }

  lemma {:induction false} UnknownHasNothing(h: History, seen: set<Uuid>, u: Uuid)
    requires AllKnown(h, seen) && u !in seen
    ensures Errors(h, u) == 0 && AllRan(h, u) && RequestSaved(u) !in h && Published(u, Deploying) !in h
  {
    if h != [] {
      UnknownHasNothing(h[..|h| - 1], seen, u);
    }
  }

  lemma {:induction false} KnownToMore(h: History, seen: set<Uuid>, more: set<Uuid>)
    requires AllKnown(h, seen) && seen <= more
    ensures AllKnown(h, more)
  {
  }

  lemma {:induction false} CountOneMore(h: History, r: Record, u: Uuid)
    ensures Errors(h + [r], u) == Errors(h, u) + if r == Published(u, Error) then 1 else 0
    ensures AllRan(h + [r], u) <==> AllRan(h, u) && (AttemptOf(r, u) ==> r.running)
    ensures RequestSaved(u) in h + [r] <==> RequestSaved(u) in h || r == RequestSaved(u)
    ensures Published(u, Deploying) in h + [r] <==> Published(u, Deploying) in h || r == Published(u, Deploying)
    ensures forall seen :: AllKnown(h + [r], seen) <==> AllKnown(h, seen) && r.u in seen
  {
    ErrorsOneMore(h, r, u);
    var more := h + [r];
    assert more[|h|] == r && forall i :: 0 <= i < |h| ==> more[i] == h[i];
  }

  // ---------------------------------------------------------------------------------------------
  // The invariant
  // ---------------------------------------------------------------------------------------------

  /** The request was stored, and the download given up although nobody cancelled it. */
  predicate GaveUp(h: History, u: Uuid) {
    RequestSaved(u) in h && Published(u, Deploying) !in h && AllRan(h, u)
  }

  /** How many Errors there have been while the worker is at each point. */
  predicate Counted(w: Worker, h: History, u: Uuid) {
    match w
    case ToAnnounceAttempt(n) => GaveUp(h, u) && Errors(h, u) == n < 5
    case Attempting(n) => GaveUp(h, u) && Errors(h, u) == n < 5
    case ToReportError(n) => GaveUp(h, u) && Errors(h, u) == n < 5
    case ToAnnounceDeploying => Errors(h, u) < 5
    case ToReportFailure(_) => Errors(h, u) <= 5 && (Errors(h, u) == 5 <==> GaveUp(h, u))
    case _ =>
      if w in {ToTakeSemaphore, ToAcknowledge, ToInitSettings, ToSaveInProgress, ToPrepareFlash, ToSaveRequest} then
        Errors(h, u) == 0 && AllRan(h, u) && RequestSaved(u) !in h && Published(u, Deploying) !in h
      else if w in {ToSaveReboot, ToReadHeader, ToRequestUpgrade, ToAnnounceDeployed, ToAnnounceReboot, ToReboot} then
        Errors(h, u) < 5 && Published(u, Deploying) in h
      else true
  }

  ghost predicate Reckoned(s: System) {
    AllKnown(s.history, s.seen) && Counted(s.worker, s.history, s.data.request)
  }

  lemma {:induction false} CountedAttempt(s: System, o: Outcome)
    requires Reckoned(s) && Enabled(s, RunWorker(o)) && s.worker.Attempting? && s.data.request in s.seen
    ensures Reckoned(Step(s, RunWorker(o)))
  {
    hide RoundedPercent, Errors, AllRan, AllKnown, RecoveryStep, UpdateStep, CancelStep, Announced, WithoutRequest;
    var t := Step(s, RunWorker(o));
    if t.history != s.history { CountOneMore(s.history, t.history[|s.history|], s.data.request); }
  }

  lemma {:induction false} CountedSpecially(s: System, ok: bool)
    requires Reckoned(s) && IsSpecial(s.worker) && s.data.request in s.seen
    requires s.settings.request.Some? ==> s.settings.request.value in s.seen
    ensures Reckoned(Special(s, ok))
  {
    hide Errors, AllRan, AllKnown;
    var t := Special(s, ok);
    if t.history != s.history { CountOneMore(s.history, t.history[|s.history|], s.data.request); }
  }

  lemma {:induction false} CountedAnnouncement(s: System)
    requires Reckoned(s) && Announcement(s.worker).Some? && s.data.request in s.seen
    ensures Reckoned(Announced(s, Announcement(s.worker).value.0, Announcement(s.worker).value.1))
  {
    hide Errors, AllRan, AllKnown;
    CountOneMore(s.history, Published(s.data.request, Announcement(s.worker).value.0), s.data.request);
  }

  lemma {:induction false} CountedPlainly(s: System, ok: bool)
    requires Reckoned(s)
    ensures var w := s.worker;
            && (Onward(w, ok).Some? ==> Reckoned(s.(worker := Onward(w, ok).value)))
            && (Saving(w).Some? ==> Reckoned(WithState(s.(worker := Saving(w).value.1), Saving(w).value.0)))
  {
    hide Errors, AllRan, AllKnown;
  }

  lemma {:induction false} CountedWorker(s: System, o: Outcome)
    requires Reckoned(s) && Enabled(s, RunWorker(o)) && s.data.request in s.seen
    requires s.settings.request.Some? ==> s.settings.request.value in s.seen
    ensures Reckoned(Step(s, RunWorker(o)))
  {
    hide Step, Reckoned, Special, Onward, Saving, Announcement;
    if s.worker.Attempting? {
      CountedAttempt(s, o);
    } else {
      PayloadsAreForDownloads(s, o);
      if IsSpecial(s.worker) {
        SpecialSteps(s, o.ok);
        CountedSpecially(s, o.ok);
      } else {
        PlainSteps(s, o.ok);
        CountedPlainly(s, o.ok);
        if Announcement(s.worker).Some? { CountedAnnouncement(s); }
        OtherPoints(s.worker, o.ok);
      }
    }
  }

  /** The steps of everything but the worker. */
  lemma {:induction false} CountedOtherwise(s: System, a: Action)
    requires Reckoned(s) && Enabled(s, a) && !a.RunWorker?
    requires s.settings.request.Some? ==> s.settings.request.value in s.seen
    requires s.recovery.ToPublish? ==> s.recovery.u in s.seen
    requires !s.recovery.Ready? ==> s.worker.NoWorker?
    ensures Reckoned(Step(s, a))
  {
    hide WorkerStep, Errors, AllRan, AllKnown;
    if a.Update? { UnknownHasNothing(s.history, s.seen, a.u); }
    var t := Step(s, a);
    KnownToMore(s.history, s.seen, t.seen);
    if t.history != s.history { CountOneMore(s.history, t.history[|s.history|], s.data.request); }
  }

  lemma {:induction false} InvKnows(s: System)
    requires Inv(s)
    ensures s.settings.request.Some? ==> s.settings.request.value in s.seen
    ensures !s.worker.NoWorker? ==> s.data.request in s.seen
    ensures s.recovery.ToPublish? ==> s.recovery.u in s.seen
    ensures !s.recovery.Ready? ==> s.worker.NoWorker?
  {
    hide PhaseOf, Stage, Reported, Swappable, GoodHistory, NothingLost, WorkerStored, WorkerPhase, StoredRequest;
  }

  lemma {:induction false} CountedOneStep(s: System, a: Action)
    requires Inv(s) && Reckoned(s) && Enabled(s, a)
    ensures Reckoned(Step(s, a))
  {
    InvKnows(s);
    hide Inv, Step, Reckoned;
    if a.RunWorker? {
      assert !s.worker.NoWorker?;
      CountedWorker(s, a.outcome);
    } else {
      CountedOtherwise(s, a);
    }
  }

  lemma {:induction false} CountedRun(s: System, actions: seq<Action>)
    requires Inv(s) && Reckoned(s) && CanRun(s, actions)
    ensures Reckoned(Run(s, actions))
    decreases |actions|
  {
    hide Inv, Reckoned, Step, Enabled;
    if actions != [] {
      StepKeeps(s, actions[0]);
      CountedOneStep(s, actions[0]);
      CountedRun(Step(s, actions[0]), actions[1..]);
    }
  }

  // ---------------------------------------------------------------------------------------------
  // What a Failure means
  // ---------------------------------------------------------------------------------------------

  /**
   Persistence: in every reachable state in which the worker is about to publish Failure, restarts
   before it or not, there have been five Errors for the update if and only if its request was stored,
   Deploying was not published and no attempt found the run bit cleared. So a download that nobody
   cancels is given up after five attempts, never before.
   */
  lemma {:induction false} FailureAfterFiveAttempts(start: System, before: seq<Action>)
    requires Factory(start) && CanRun(start, before) && Run(start, before).worker.ToReportFailure?
    ensures var s := Run(start, before);
            var u, h := s.data.request, s.history;
            && Errors(h, u) <= 5
            && (Errors(h, u) == 5 <==> RequestSaved(u) in h && Published(u, Deploying) !in h && AllRan(h, u))
            && Enabled(s, Plainly(true)) && Step(s, Plainly(true)).history == h + [Published(u, Failure)]
  {
    hide Run, CanRun, Inv, Errors, AllRan;
    FactoryInv(start);
    CountedRun(start, before);
    RunKeeps(start, before);
    WorkersAreUp(Run(start, before));
    FailureIsNext(Run(start, before));
  }

  lemma {:induction false} WorkersAreUp(s: System)
    requires Inv(s) && !s.worker.NoWorker?
    ensures s.recovery.Ready?
  {
    hide PhaseOf, Stage, Reported, Swappable, GoodHistory, NothingLost, WorkerStored, WorkerPhase, StoredRequest;
  }

  lemma {:induction false} FailureIsNext(s: System)
    requires s.recovery.Ready? && s.worker.ToReportFailure?
    ensures Enabled(s, Plainly(true)) && Step(s, Plainly(true)).history == s.history + [Published(s.data.request, Failure)]
  {
    hide Step, Enabled;
    PlainSteps(s, true);
  }

  /** As long as an update is being downloaded, an attempt that ends in an Error is followed by the next. */
  lemma {:induction false} ErrorsLeadToTheNextAttempt(start: System, before: seq<Action>, n: nat)
    requires Factory(start) && CanRun(start, before) && Run(start, before).worker == ToReportError(n)
    ensures var s := Run(start, before);
            && n == Errors(s.history, s.data.request) < 5
            && Enabled(s, Plainly(true))
            && var t := Step(s, Plainly(true));
               && t.history == s.history + [Published(s.data.request, Error)]
               && t.worker == if n < 4 then ToAnnounceAttempt(n + 1) else ToReportFailure(true)
  {
    hide Run, CanRun, Inv, Errors, AllRan;
    FactoryInv(start);
    CountedRun(start, before);
    RunKeeps(start, before);
    WorkersAreUp(Run(start, before));
    ErrorIsNext(Run(start, before));
  }

  lemma {:induction false} ErrorIsNext(s: System)
    requires s.recovery.Ready? && s.worker.ToReportError?
    ensures Enabled(s, Plainly(true))
    ensures Step(s, Plainly(true)) == Announced(s, Error, if s.worker.n < 4 then ToAnnounceAttempt(s.worker.n + 1) else ToReportFailure(true))
  {
    hide Step, Enabled, Announced;
    PlainSteps(s, true);
  }

  /** Without a restart, every Failure in the history is one of the worker's, and counts its Errors. */
  predicate FailuresCounted(h: History) {
    h == [] || (FailuresCounted(h[..|h| - 1]) && FailureCounted(h[..|h| - 1], h[|h| - 1]))
  }

  predicate FailureCounted(h: History, r: Record) {
    r.Published? && r.event == Failure ==> (Errors(h, r.u) == 5 <==> GaveUp(h, r.u))
  }

  predicate NoRestart(actions: seq<Action>) {
    forall i :: 0 <= i < |actions| ==> !actions[i].Restart?
  }

  /** The recovery of a device that never restarted has nothing to publish. */
  predicate FirstBoot(s: System) {
    !s.recovery.Ready? ==> s.settings.request == None && s.recovery in {ToLoad, ToDrop, ToReset}
  }

  lemma {:induction false} FailuresOneStep(s: System, a: Action)
    requires Inv(s) && Reckoned(s) && FirstBoot(s) && FailuresCounted(s.history)
    requires Enabled(s, a) && !a.Restart?
    ensures FirstBoot(Step(s, a)) && FailuresCounted(Step(s, a).history)
  {
    InvKnows(s);
    hide Inv, AllRan, Errors, AllKnown;
    if a.RunWorker? {
      hide Step, Enabled;
      FailuresWorker(s, a.outcome);
    } else {
      hide WorkerStep, Counted, GaveUp;
      var t := Step(s, a);
      if t.history != s.history { CountedOneMore(s.history, t.history[|s.history|]); }
    }
  }

  lemma {:induction false} CountedOneMore(h: History, r: Record)
    ensures FailuresCounted(h + [r]) <==> FailuresCounted(h) && FailureCounted(h, r)
  {
    assert (h + [r])[..|h|] == h;
  }

  lemma {:induction false} FailuresWorker(s: System, o: Outcome)
    requires Reckoned(s) && FirstBoot(s) && FailuresCounted(s.history) && Enabled(s, RunWorker(o))
    ensures FirstBoot(Step(s, RunWorker(o))) && FailuresCounted(Step(s, RunWorker(o)).history)
  {
    if s.worker.Attempting? {
      FailuresAttempt(s, o);
    } else {
      FailuresPoint(s, o);
    }
  }

  lemma {:induction false} FailuresAttempt(s: System, o: Outcome)
    requires FirstBoot(s) && FailuresCounted(s.history) && Enabled(s, RunWorker(o)) && s.worker.Attempting?
    ensures FirstBoot(Step(s, RunWorker(o))) && FailuresCounted(Step(s, RunWorker(o)).history)
  {
    hide Errors, RoundedPercent, RecoveryStep, UpdateStep, CancelStep, GaveUp, FailuresCounted;
    var t := Step(s, RunWorker(o));
    if t.history != s.history { CountedOneMore(s.history, t.history[|s.history|]); }
  }

  lemma {:induction false} FailuresPoint(s: System, o: Outcome)
    requires Reckoned(s) && FirstBoot(s) && FailuresCounted(s.history) && Enabled(s, RunWorker(o)) && !s.worker.Attempting?
    ensures FirstBoot(Step(s, RunWorker(o))) && FailuresCounted(Step(s, RunWorker(o)).history)
  {
    hide Errors, AllKnown, Payload, AttemptOver, RecoveryStep, UpdateStep, CancelStep, GaveUp, FailuresCounted;
    var t := Step(s, RunWorker(o));
    if t.history != s.history { CountedOneMore(s.history, t.history[|s.history|]); }
  }

  lemma {:induction false} FailuresOfRun(s: System, actions: seq<Action>)
    requires Inv(s) && Reckoned(s) && FirstBoot(s) && FailuresCounted(s.history)
    requires CanRun(s, actions) && NoRestart(actions)
    ensures FailuresCounted(Run(s, actions).history)
    decreases |actions|
  {
    hide Inv, Reckoned, Step, Enabled, FailuresCounted, FirstBoot;
    if actions != [] {
      StepKeeps(s, actions[0]);
      CountedOneStep(s, actions[0]);
      FailuresOneStep(s, actions[0]);
      FailuresOfRun(Step(s, actions[0]), actions[1..]);
    }
  }

  lemma {:induction false} FailureAt(h: History, i: nat)
    requires FailuresCounted(h) && i < |h|
    ensures FailureCounted(h[..i], h[i])
  {
    hide FailureCounted;
    if i < |h| - 1 {
      FailureAt(h[..|h| - 1], i);
      assert h[..|h| - 1][..i] == h[..i];
    }
  }

  /**
   The same read off the history of a run without restarts: a Failure for an update whose request was
   stored, that was not deployed and that no attempt found cancelled comes after exactly five Errors.
   */
  lemma {:induction false} FiveErrorsBeforeFailure(start: System, actions: seq<Action>, i: nat, u: Uuid)
    requires Factory(start) && CanRun(start, actions) && NoRestart(actions)
    requires var h := Run(start, actions).history;
             && i < |h| && h[i] == Published(u, Failure)
             && RequestSaved(u) in h[..i] && Published(u, Deploying) !in h[..i] && AllRan(h[..i], u)
    ensures Errors(Run(start, actions).history[..i], u) == 5
  {
    hide Run, CanRun, Inv, Errors, AllRan, FailuresCounted;
    FactoryInv(start);
    assert FailuresCounted([]) by { NoFailures(); }
    FailuresOfRun(start, actions);
    FailureAt(Run(start, actions).history, i);
  }

  lemma {:induction false} NoFailures()
    ensures FailuresCounted([])
  {
  }
}
