/** What every run of the update protocol keeps, with restarts at any point. */
module OtaSafety {
  import opened CLib
  import opened Ota

  // ---------------------------------------------------------------------------------------------
  // Reading a history
  // ---------------------------------------------------------------------------------------------

  /** How far an update has come: its latest attempt is good, then Deploying, then state REBOOT saved. */
  function Stage(h: History, u: Uuid): (stage: nat)
    ensures stage <= 3
  {
    if h == [] then 0 else Bumped(Stage(h[..|h| - 1], u), h[|h| - 1], u)
  }

  predicate AttemptOf(r: Record, u: Uuid) { r.AttemptEnded? && r.u == u }

  predicate GoodAttempt(r: Record, u: Uuid) {
    AttemptOf(r, u) && r.running && r.httpOk && r.written == r.size > 0
  }

  function Bumped(stage: nat, r: Record, u: Uuid): nat {
    if stage <= 1 && AttemptOf(r, u) then if GoodAttempt(r, u) then 1 else 0
    else if stage == 1 && r == Published(u, Deploying) then 2
    else if stage == 2 && r.RebootSaved? && r.u == u then 3
    else stage
  }

  predicate Reported(h: History, u: Uuid) {
    Published(u, Success) in h || Published(u, Failure) in h
  }

  /** Nothing pending, and the running image confirmed. */
  const SETTLED := Mcuboot(false, true)

  /** The upgrade was requested, or state REBOOT was saved while the boot loader was not settled. */
  predicate Swappable(h: History, u: Uuid) {
    || UpgradeRequested(u) in h
    || RebootSaved(u, Mcuboot(true, true)) in h
    || RebootSaved(u, Mcuboot(true, false)) in h
    || RebootSaved(u, Mcuboot(false, false)) in h
  }

  /** Successes are earned, and requests are dropped only once reported. */
  predicate SafeHistory(h: History) {
    h == [] || (SafeHistory(h[..|h| - 1]) && SafeNext(h[..|h| - 1], h[|h| - 1]))
  }

  predicate SafeNext(h: History, r: Record) {
    match r
    case Published(u, Success) => Stage(h, u) == 3 && Swappable(h, u)
    case RequestDeleted(u) => Reported(h, u)
    case _ => true
  }

  /** What the worker and the recovery have published for one update. */
  function Events(h: History, u: Uuid): seq<Event> {
    if h == [] then [] else Events(h[..|h| - 1], u) + EventIn(h[|h| - 1], u)
  }

  function EventIn(r: Record, u: Uuid): seq<Event> {
    if r.Published? && r.u == u then [r.event] else []
  }

  datatype Phase =
    | Unheard | Accepted | Fetching(n: nat) | Failed(n: nat) | InDeployment | InPlace | Restarting
    | Ended(succeeded: bool) | Broken

  /** The automaton of the events of one update. */
  function After(p: Phase, e: Event): Phase {
    match (p, e)
    case (Unheard, Acknowledged) => Accepted
    case (Accepted, Downloading(_)) => Fetching(1)
    case (Fetching(n), Downloading(_)) => Fetching(n)
    case (Fetching(n), Error) => Failed(n)
    case (Failed(n), Downloading(_)) => if n < MAX_OTA_RETRY then Fetching(n + 1) else Broken
    case (Fetching(_), Deploying) => InDeployment
    case (InDeployment, Deployed) => InPlace
    case (InPlace, Rebooting) => Restarting
    case (Ended(done), Failure) => Ended(done)
    case (Ended(done), Success) => if done then Broken else Ended(true)
    case (_, Failure) => if p in {Unheard, Broken} then Broken else Ended(false)
    case (_, Success) => if p in {Unheard, Broken} then Broken else Ended(true)
    case (_, _) => Broken
  }

  function Reading(events: seq<Event>): Phase {
    if events == [] then Unheard else After(Reading(events[..|events| - 1]), events[|events| - 1])
  }

  function PhaseOf(h: History, u: Uuid): Phase { Reading(Events(h, u)) }

  /** How many Errors have been published for one update. */
  function Errors(h: History, u: Uuid): nat {
    if h == [] then 0 else Errors(h[..|h| - 1], u) + if h[|h| - 1] == Published(u, Error) then 1 else 0
  }

  lemma {:induction false} ErrorsOneMore(h: History, r: Record, u: Uuid)
    ensures Errors([], u) == 0
    ensures Errors(h + [r], u) == Errors(h, u) + if r == Published(u, Error) then 1 else 0
  {
    assert (h + [r])[..|h|] == h;
  }

  // ---------------------------------------------------------------------------------------------
  // One more record
  // ---------------------------------------------------------------------------------------------

  lemma {:induction false} OneMore(h: History, r: Record, u: Uuid)
    ensures Stage(h + [r], u) == Bumped(Stage(h, u), r, u)
    ensures PhaseOf(h + [r], u) == if r.Published? && r.u == u then After(PhaseOf(h, u), r.event) else PhaseOf(h, u)
    ensures Reported(h, u) ==> Reported(h + [r], u)
    ensures r == Published(u, Success) || r == Published(u, Failure) ==> Reported(h + [r], u)
    ensures Swappable(h, u) ==> Swappable(h + [r], u)
    ensures r == UpgradeRequested(u) ==> Swappable(h + [r], u)
    ensures r.RebootSaved? && r.u == u && r.boot != SETTLED ==> Swappable(h + [r], u)
    ensures SafeHistory(h + [r]) <==> SafeHistory(h) && SafeNext(h, r)
  {
    hide After, Bumped, SafeNext;
    assert (h + [r])[..|h|] == h;
    var es := Events(h, u);
    if r.Published? && r.u == u {
      assert (es + [r.event])[..|es|] == es;
    } else {
      assert es + [] == es;
    }
    assert r in h + [r];
    assert forall x :: x in h ==> x in h + [r];
  }

  // ---------------------------------------------------------------------------------------------
  // The invariant
  // ---------------------------------------------------------------------------------------------

  predicate HoldsSemaphore(w: Worker) { !w.NoWorker? && !w.ToTakeSemaphore? }

  /** Count and holders of the semaphore add up to one: updates and transfers exclude each other. */
  predicate Exclusive(s: System) {
    s.semaphore + (if HoldsSemaphore(s.worker) then 1 else 0) + (if s.transferHolds then 1 else 0) == 1
  }

  /** What is stored while the worker is at each point. */
  predicate WorkerStored(s: System) {
    var u, st, h := s.data.request, s.settings, s.history;
    match s.worker
    case NoWorker => st == Settings(None, Idle)
    case ToTakeSemaphore => st == Settings(None, Idle)
    case ToAcknowledge => st == Settings(None, Idle)
    case ToInitSettings => st == Settings(None, Idle)
    case ToSaveInProgress => st == Settings(None, Idle)
    case ToPrepareFlash => st == Settings(None, InProgress)
    case ToSaveRequest => st == Settings(None, InProgress)
    case ToAnnounceAttempt(_) => st == Settings(Some(u), InProgress)
    case Attempting(_) => st == Settings(Some(u), InProgress)
    case ToReportError(_) => st == Settings(Some(u), InProgress)
    case ToAnnounceDeploying => st == Settings(Some(u), InProgress) && Stage(h, u) >= 1
    case ToSaveReboot => st == Settings(Some(u), InProgress) && Stage(h, u) >= 2
    case ToReadHeader => st == Settings(Some(u), Reboot)
    case ToRequestUpgrade => st == Settings(Some(u), Reboot)
    case ToAnnounceDeployed => st == Settings(Some(u), Reboot)
    case ToAnnounceReboot => st == Settings(Some(u), Reboot)
    case ToReboot => st == Settings(Some(u), Reboot)
    case ToReportFailure(_) => st.request in {None, Some(u)}
    case ToSaveIdleFirst => st.request in {None, Some(u)} && Reported(h, u)
    case ToClearRunBit => st.request in {None, Some(u)} && Reported(h, u)
    case ToDeleteRequest => st.request in {None, Some(u)} && Reported(h, u)
    case ToSaveIdle => st.request == None
    case ToGiveSemaphore => st == Settings(None, Idle)
  }

  /** What is stored, and known about the boot loader, while the recovery is at each point. */
  predicate RecoveryStored(s: System) {
    match s.recovery
    case ToLoad => true
    case ToCheckSwap(u) => s.settings == Settings(Some(u), Reboot)
    case ToCheckConfirmed(u) => s.settings == Settings(Some(u), Reboot) && !s.mcuboot.pending
    case ToConfirm(u) => s.settings == Settings(Some(u), Reboot) && s.mcuboot == Mcuboot(false, false)
    case ToPublish(u, event) =>
      && s.settings.request == Some(u) && event in {Success, Failure}
      && (event == Success ==>
            && s.settings.state == Reboot && s.mcuboot == SETTLED
            && PhaseOf(s.history, u) != Ended(true) && Swappable(s.history, u))
    case ToDrop => s.settings.request.Some? ==> Reported(s.history, s.settings.request.value)
    case ToReset => s.settings.request == None
    case Ready => true
  }

  /**
   A stored request was acknowledged; with state REBOOT it has earned it, and without an upgrade the
   boot loader has stayed settled; reported as a success, the image is confirmed.
   */
  predicate StoredRequest(s: System) {
    s.settings.request.Some? ==>
      var u := s.settings.request.value;
      && PhaseOf(s.history, u) != Unheard
      && (s.settings.state == Reboot ==>
            Stage(s.history, u) == 3 && (Swappable(s.history, u) || s.mcuboot == SETTLED))
      && (PhaseOf(s.history, u) == Ended(true) ==> !s.recovery.Ready? && s.mcuboot == SETTLED)
  }

  /** Where the worker is in the events of its update. */
  predicate WorkerPhase(s: System) {
    var p := PhaseOf(s.history, s.data.request);
    match s.worker
    case NoWorker => true
    case ToTakeSemaphore => p == Unheard
    case ToAcknowledge => p == Unheard
    case ToInitSettings => p == Accepted
    case ToSaveInProgress => p == Accepted
    case ToPrepareFlash => p == Accepted
    case ToSaveRequest => p == Accepted
    case ToAnnounceAttempt(n) => n < MAX_OTA_RETRY && p == if n == 0 then Accepted else Failed(n)
    case Attempting(n) => n < MAX_OTA_RETRY && p == Fetching(n + 1)
    case ToReportError(n) => n < MAX_OTA_RETRY && p == Fetching(n + 1)
    case ToAnnounceDeploying => p.Fetching?
    case ToSaveReboot => p == InDeployment
    case ToReadHeader => p == InDeployment
    case ToRequestUpgrade => p == InDeployment
    case ToAnnounceDeployed => p == InDeployment
    case ToAnnounceReboot => p == InPlace
    case ToReboot => p == Restarting
    case ToReportFailure(_) => p !in {Unheard, Broken} && !p.Ended?
    case _ => p == Ended(false)
  }

  /** Identifiers are known before anything happens under them; no event is out of order. */
  ghost predicate GoodHistory(h: History, seen: set<Uuid>) {
    && SafeHistory(h)
    && (forall u :: PhaseOf(h, u) != Broken)
    && (forall u :: u !in seen ==> PhaseOf(h, u) == Unheard && RequestSaved(u) !in h)
  }

  /** A request that was ever stored is still stored, or has been reported. */
  ghost predicate NothingLost(h: History, stored: Option<Uuid>) {
    forall u :: RequestSaved(u) in h ==> Reported(h, u) || stored == Some(u)
  }

  predicate Known(s: System) {
    && (s.settings.request.Some? ==> s.settings.request.value in s.seen)
    && (!s.worker.NoWorker? ==> s.data.request in s.seen)
  }

  ghost predicate Inv(s: System) {
    && Exclusive(s) && RecoveryStored(s) && StoredRequest(s) && Known(s)
    && GoodHistory(s.history, s.seen) && NothingLost(s.history, s.settings.request)
    && (if s.recovery.Ready? then WorkerStored(s) && WorkerPhase(s) else s.worker == NoWorker)
  }

  lemma {:induction false} FactoryInv(s: System)
    requires Factory(s)
    ensures Inv(s)
  {
  }

  // ---------------------------------------------------------------------------------------------
  // Histories grow in order
  // ---------------------------------------------------------------------------------------------

  /** A record may come next: its identifier is known, it is safe, and its event is in order. */
  predicate MayFollow(h: History, seen: set<Uuid>, r: Record) {
    && SafeNext(h, r)
    && match r
       case Published(u, event) => u in seen && After(PhaseOf(h, u), event) != Broken
       case RequestSaved(u) => u in seen
       case _ => true
  }

  lemma {:induction false} HistoryGrows(h: History, seen: set<Uuid>, r: Record)
    requires GoodHistory(h, seen) && MayFollow(h, seen, r)
    ensures GoodHistory(h + [r], seen)
  {
    hide PhaseOf, SafeHistory, SafeNext, After, Stage, Reported, Swappable;
    OneMore(h, r, "");
    forall u
      ensures PhaseOf(h + [r], u) != Broken
      ensures u !in seen ==> PhaseOf(h + [r], u) == Unheard && RequestSaved(u) !in h + [r]
    {
      OneMore(h, r, u);
    }
  }

  lemma {:induction false} NothingLostAfter(h: History, stored: Option<Uuid>, r: Record, after: Option<Uuid>)
    requires NothingLost(h, stored)
    requires r.RequestSaved? ==> after == Some(r.u)
    requires stored.Some? ==> after == stored || Reported(h, stored.value)
    ensures NothingLost(h + [r], after)
  {
    hide Reported, PhaseOf, Stage, SafeHistory, Swappable;
    forall u | RequestSaved(u) in h + [r] ensures Reported(h + [r], u) || after == Some(u) {
      OneMore(h, r, u);
    }
  }

  lemma {:induction false} MoreSeen(h: History, seen: set<Uuid>, u: Uuid)
    requires GoodHistory(h, seen)
    ensures GoodHistory(h, seen + {u})
  {
    hide PhaseOf, SafeHistory;
  }

  // ---------------------------------------------------------------------------------------------
  // Every step keeps the invariant
  // ---------------------------------------------------------------------------------------------

  /** A step of the recovery that publishes nothing and stores nothing. */
  lemma {:induction false} RecoveryMoves(s: System, swapNone: bool, confirmOk: bool)
    requires Inv(s) && Enabled(s, RunRecovery(swapNone, confirmOk)) && !s.recovery.ToPublish? && !s.recovery.ToDrop?
    ensures Inv(Step(s, RunRecovery(swapNone, confirmOk)))
  {
    hide Stage, PhaseOf, Reported, Swappable, GoodHistory, NothingLost;
  }

  lemma {:induction false} RecoveryPublishes(s: System, swapNone: bool, confirmOk: bool)
    requires Inv(s) && Enabled(s, RunRecovery(swapNone, confirmOk)) && s.recovery.ToPublish?
    ensures Inv(Step(s, RunRecovery(swapNone, confirmOk)))
  {
    hide Stage, PhaseOf, Reported, Swappable, SafeHistory, GoodHistory, NothingLost;
    var u, event := s.recovery.u, s.recovery.event;
    var r := Published(u, event);
    OneMore(s.history, r, u);
    assert PhaseOf(s.history, u) != Broken by { NotBroken(s.history, s.seen, u); }
    HistoryGrows(s.history, s.seen, r);
    NothingLostAfter(s.history, s.settings.request, r, s.settings.request);
  }

  lemma {:induction false} NotBroken(h: History, seen: set<Uuid>, u: Uuid)
    requires GoodHistory(h, seen)
    ensures PhaseOf(h, u) != Broken && (u !in seen ==> PhaseOf(h, u) == Unheard)
  {
    hide PhaseOf, SafeHistory;
  }

  lemma {:induction false} RecoveryDrops(s: System, swapNone: bool, confirmOk: bool)
    requires Inv(s) && Enabled(s, RunRecovery(swapNone, confirmOk)) && s.recovery.ToDrop?
    ensures Inv(Step(s, RunRecovery(swapNone, confirmOk)))
  {
    hide Stage, PhaseOf, Reported, Swappable, SafeHistory, GoodHistory, NothingLost;
    if s.settings.request.Some? {
      var r := RequestDeleted(s.settings.request.value);
      HistoryGrows(s.history, s.seen, r);
      NothingLostAfter(s.history, s.settings.request, r, None);
    }
  }

  lemma {:induction false} RefusedKeeps(h: History, seen: set<Uuid>, stored: Option<Uuid>, u: Uuid)
    requires GoodHistory(h, seen) && NothingLost(h, stored)
    ensures GoodHistory(h + [Refused(u)], seen) && NothingLost(h + [Refused(u)], stored)
    ensures forall v :: Stage(h + [Refused(u)], v) == Stage(h, v) && PhaseOf(h + [Refused(u)], v) == PhaseOf(h, v)
    ensures forall v :: Reported(h, v) ==> Reported(h + [Refused(u)], v)
    ensures forall v :: Swappable(h, v) ==> Swappable(h + [Refused(u)], v)
  {
    hide Stage, PhaseOf, Reported, Swappable, SafeHistory, GoodHistory, NothingLost;
    HistoryGrows(h, seen, Refused(u));
    NothingLostAfter(h, stored, Refused(u), stored);
    forall v
      ensures Stage(h + [Refused(u)], v) == Stage(h, v) && PhaseOf(h + [Refused(u)], v) == PhaseOf(h, v)
      ensures Reported(h, v) ==> Reported(h + [Refused(u)], v)
      ensures Swappable(h, v) ==> Swappable(h + [Refused(u)], v)
    {
      OneMore(h, Refused(u), v);
    }
  }

  lemma {:induction false} UpdateKeeps(s: System, u: Uuid, created: bool)
    requires Inv(s) && Enabled(s, Update(u, created))
    ensures Inv(Step(s, Update(u, created)))
  {
    hide Stage, PhaseOf, Reported, Swappable, GoodHistory, NothingLost;
    MoreSeen(s.history, s.seen, u);
    NotBroken(s.history, s.seen, u);
    RefusedKeeps(s.history, s.seen + {u}, s.settings.request, u);
  }

  lemma {:induction false} CancelKeeps(s: System, u: Uuid, settingsOk: bool)
    requires Inv(s) && Enabled(s, Cancel(u, settingsOk))
    ensures Inv(Step(s, Cancel(u, settingsOk)))
  {
    hide Stage, PhaseOf, Reported, Swappable, GoodHistory, NothingLost;
    MoreSeen(s.history, s.seen, u);
    RefusedKeeps(s.history, s.seen + {u}, s.settings.request, u);
  }

  lemma {:induction false} OutsideKeeps(s: System, a: Action)
    requires Inv(s) && Enabled(s, a) && (a in {TransferTakes, TransferGives} || a.Restart?)
    ensures Inv(Step(s, a))
  {
    hide Stage, PhaseOf, Reported, Swappable, GoodHistory, NothingLost;
  }

  // ---------------------------------------------------------------------------------------------
  // The worker
  // ---------------------------------------------------------------------------------------------

  ghost predicate Working(s: System, o: Outcome) {
    Inv(s) && Enabled(s, RunWorker(o))
  }

  /** Steps that leave no record, on the way to the reboot and on the way out. */
  predicate Proceeding(w: Worker) {
    w in {ToTakeSemaphore, ToInitSettings, ToSaveInProgress, ToPrepareFlash, ToReadHeader}
  }

  predicate Finishing(w: Worker) {
    w in {ToSaveIdleFirst, ToClearRunBit, ToSaveIdle, ToGiveSemaphore}
  }

  lemma {:induction false} WorkerProceeds(s: System, o: Outcome)
    requires Working(s, o) && Proceeding(s.worker)
    ensures Inv(Step(s, RunWorker(o)))
  {
    hide Stage, PhaseOf, Reported, Swappable, GoodHistory, NothingLost, Payload, AttemptOver, Announced, Noted, WithoutRequest;
  }

  lemma {:induction false} WorkerFinishes(s: System, o: Outcome)
    requires Working(s, o) && Finishing(s.worker)
    ensures Inv(Step(s, RunWorker(o)))
  {
    hide Stage, PhaseOf, Reported, Swappable, GoodHistory, NothingLost, Payload, AttemptOver, Announced, Noted, WithoutRequest;
  }

  /** What the worker publishes at each point, and where it goes from there. */
  function Announcement(w: Worker): Option<(Event, Worker)> {
    match w
    case ToAcknowledge => Some((Acknowledged, ToInitSettings))
    case ToAnnounceAttempt(n) => Some((Downloading(0), Attempting(n)))
    case ToReportError(n) => Some((Error, if n + 1 < MAX_OTA_RETRY then ToAnnounceAttempt(n + 1) else ToReportFailure(true)))
    case ToAnnounceDeploying => Some((Deploying, ToSaveReboot))
    case ToAnnounceDeployed => Some((Deployed, ToAnnounceReboot))
    case ToAnnounceReboot => Some((Rebooting, ToReboot))
    case ToReportFailure(performed) => Some((Failure, if performed then ToSaveIdleFirst else ToClearRunBit))
    case _ => None
  }

  /** One more record about the worker's own update, seen from everything the invariant looks at. */
  lemma {:induction false} WorkerRecords(s: System, r: Record, stored: Option<Uuid>)
    requires Inv(s) && s.recovery.Ready? && !s.worker.NoWorker? && r.u == s.data.request
    requires MayFollow(s.history, s.seen, r)
    requires stored == if r.RequestSaved? then Some(r.u) else if r.RequestDeleted? then None else s.settings.request
    ensures GoodHistory(s.history + [r], s.seen) && NothingLost(s.history + [r], stored)
  {
    hide Stage, PhaseOf, Reported, Swappable, SafeHistory, GoodHistory, NothingLost, After;
    HistoryGrows(s.history, s.seen, r);
    assert s.settings.request in {None, Some(r.u)} by { StoredIsOwn(s); }
    NothingLostAfter(s.history, s.settings.request, r, stored);
  }

  lemma {:induction false} AnnouncementInOrder(s: System)
    requires WorkerPhase(s) && Announcement(s.worker).Some?
    ensures var (event, next) := Announcement(s.worker).value;
            var p := After(PhaseOf(s.history, s.data.request), event);
            && p != Broken && p != Unheard && p != Ended(true)
            && WorkerPhase(s.(worker := next, history := s.history + [Published(s.data.request, event)]))
  {
    hide PhaseOf, Stage, Reported;
    var (event, next) := Announcement(s.worker).value;
    OneMore(s.history, Published(s.data.request, event), s.data.request);
  }

  lemma {:induction false} AnnouncementStored(s: System)
    requires WorkerStored(s) && Announcement(s.worker).Some?
    ensures var (event, next) := Announcement(s.worker).value;
            WorkerStored(s.(worker := next, history := s.history + [Published(s.data.request, event)]))
  {
    hide PhaseOf, Stage, Reported;
    var (event, next) := Announcement(s.worker).value;
    OneMore(s.history, Published(s.data.request, event), s.data.request);
  }

  lemma {:induction false} WorkerAnnounces(s: System, o: Outcome)
    requires Working(s, o) && Announcement(s.worker).Some?
    ensures Inv(Step(s, RunWorker(o)))
  {
    hide Stage, PhaseOf, Reported, Swappable, GoodHistory, NothingLost, After, Payload, AttemptOver, WithoutRequest, WorkerStored, WorkerPhase;
    var (event, next) := Announcement(s.worker).value;
    var r := Published(s.data.request, event);
    assert Step(s, RunWorker(o)) == Announced(s, event, next);
    AnnouncementInOrder(s);
    AnnouncementStored(s);
    WorkerRecords(s, r, s.settings.request);
    OneMore(s.history, r, s.data.request);
    StoredIsOwn(s);
  }

  lemma {:induction false} StoredIsOwn(s: System)
    requires WorkerStored(s)
    ensures s.settings.request in {None, Some(s.data.request)}
  {
    hide Stage, Reported, Swappable;
  }

  lemma {:induction false} WorkerSavesRequest(s: System, o: Outcome)
    requires Working(s, o) && s.worker.ToSaveRequest?
    ensures Inv(Step(s, RunWorker(o)))
  {
    hide Stage, PhaseOf, Reported, Swappable, GoodHistory, NothingLost, Payload, AttemptOver, Announced, WithoutRequest;
    var r := RequestSaved(s.data.request);
    OneMore(s.history, r, s.data.request);
    WorkerRecords(s, r, Some(s.data.request));
  }

  lemma {:induction false} WorkerSavesReboot(s: System, o: Outcome)
    requires Working(s, o) && s.worker.ToSaveReboot?
    ensures Inv(Step(s, RunWorker(o)))
  {
    hide Stage, PhaseOf, Reported, Swappable, GoodHistory, NothingLost, Payload, AttemptOver, Announced, WithoutRequest;
    var r := RebootSaved(s.data.request, s.mcuboot);
    OneMore(s.history, r, s.data.request);
    WorkerRecords(s, r, s.settings.request);
  }

  lemma {:induction false} WorkerRequestsUpgrade(s: System, o: Outcome)
    requires Working(s, o) && s.worker.ToRequestUpgrade?
    ensures Inv(Step(s, RunWorker(o)))
  {
    hide Stage, PhaseOf, Reported, Swappable, GoodHistory, NothingLost, Payload, AttemptOver, Announced, WithoutRequest;
    if o.ok {
      var r := UpgradeRequested(s.data.request);
      OneMore(s.history, r, s.data.request);
      WorkerRecords(s, r, s.settings.request);
    }
  }

  lemma {:induction false} WorkerDeletes(s: System, o: Outcome)
    requires Working(s, o) && s.worker.ToDeleteRequest?
    ensures Inv(Step(s, RunWorker(o)))
  {
    hide Stage, PhaseOf, Reported, Swappable, GoodHistory, NothingLost, Payload, AttemptOver, Announced;
    var u := s.data.request;
    if s.settings.request.Some? {
      OneMore(s.history, RequestDeleted(u), u);
      WorkerRecords(s, RequestDeleted(u), None);
    }
  }

  lemma {:induction false} WorkerReceives(s: System, o: Outcome)
    requires Working(s, o) && s.worker.Attempting? && o.chunk.Some?
    ensures Inv(Step(s, RunWorker(o)))
  {
    hide Stage, PhaseOf, Reported, Swappable, GoodHistory, NothingLost, AttemptOver, Announced, WithoutRequest;
    var after := Step(s, RunWorker(o));
    if after.history != s.history {
      var u := s.data.request;
      var r := Published(u, Downloading(after.history[|s.history|].event.percent));
      assert after.history == s.history + [r];
      OneMore(s.history, r, u);
      WorkerRecords(s, r, s.settings.request);
    }
  }

  lemma {:induction false} WorkerEndsAttempt(s: System, o: Outcome)
    requires Working(s, o) && s.worker.Attempting? && o.chunk.None?
    ensures Inv(Step(s, RunWorker(o)))
  {
    hide Stage, PhaseOf, Reported, Swappable, GoodHistory, NothingLost, Payload, Announced, WithoutRequest;
    var u := s.data.request;
    var r := AttemptEnded(u, s.data.downloadSize, s.data.imageSize, s.data.running, o.ok);
    OneMore(s.history, r, u);
    WorkerRecords(s, r, s.settings.request);
    var after := AttemptOver(s, s.worker.n, o.ok);
    assert Step(s, RunWorker(o)) == after && after.history == s.history + [r];
    assert Exclusive(after) && StoredRequest(after) && Known(after) && WorkerStored(after) && WorkerPhase(after);
  }

  lemma {:induction false} StepKeeps(s: System, a: Action)
    requires Inv(s) && Enabled(s, a)
    ensures Inv(Step(s, a))
  {
    hide Inv, Step, Announcement;
    match a
    case RunRecovery(swapNone, confirmOk) =>
      if s.recovery.ToPublish? { RecoveryPublishes(s, swapNone, confirmOk); }
      else if s.recovery.ToDrop? { RecoveryDrops(s, swapNone, confirmOk); }
      else { RecoveryMoves(s, swapNone, confirmOk); }
    case Update(u, created) => UpdateKeeps(s, u, created);
    case Cancel(u, settingsOk) => CancelKeeps(s, u, settingsOk);
    case RunWorker(o) => WorkerKeeps(s, o);
    case TransferTakes => OutsideKeeps(s, a);
    case TransferGives => OutsideKeeps(s, a);
    case Restart(_) => OutsideKeeps(s, a);
  }

  lemma {:induction false} WorkerKeeps(s: System, o: Outcome)
    requires Working(s, o)
    ensures Inv(Step(s, RunWorker(o)))
  {
    hide Inv, Step;
    if Proceeding(s.worker) { WorkerProceeds(s, o); }
    else if Finishing(s.worker) { WorkerFinishes(s, o); }
    else if s.worker.ToSaveRequest? { WorkerSavesRequest(s, o); }
    else if s.worker.ToSaveReboot? { WorkerSavesReboot(s, o); }
    else if s.worker.ToRequestUpgrade? { WorkerRequestsUpgrade(s, o); }
    else if s.worker.ToDeleteRequest? { WorkerDeletes(s, o); }
    else if s.worker.Attempting? && o.chunk.Some? { WorkerReceives(s, o); }
    else if s.worker.Attempting? { WorkerEndsAttempt(s, o); }
    else { WorkerAnnounces(s, o); }
  }

  /** Every state that can be reached, over any number of restarts. */
  lemma {:induction false} RunKeeps(s: System, actions: seq<Action>)
    requires Inv(s) && CanRun(s, actions)
    ensures Inv(Run(s, actions))
    decreases |actions|
  {
    hide Inv, Step, Enabled;
    if actions != [] {
      StepKeeps(s, actions[0]);
      RunKeeps(Step(s, actions[0]), actions[1..]);
    }
  }

  lemma {:induction false} ReachableInv(s: System, actions: seq<Action>)
    requires Factory(s) && CanRun(s, actions)
    ensures Inv(Run(s, actions))
  {
    hide Inv, Step, Enabled, Run, Factory;
    FactoryInv(s);
    RunKeeps(s, actions);
  }
}
