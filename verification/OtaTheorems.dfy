/** The update protocol's promises, over every run with restarts at any point. */
module OtaTheorems {
  import opened CLib
  import opened Ota
  import opened OtaSafety

  // ---------------------------------------------------------------------------------------------
  // From the invariant to the history
  // ---------------------------------------------------------------------------------------------

  lemma {:induction false} SafeAt(h: History, i: nat)
    requires SafeHistory(h) && i < |h|
    ensures SafeNext(h[..i], h[i])
  {
    hide SafeNext;
    if i < |h| - 1 {
      SafeAt(h[..|h| - 1], i);
      assert h[..|h| - 1][..i] == h[..i];
    }
  }

  lemma {:induction false} ReportedBefore(h: History, i: nat, u: Uuid) returns (j: nat)
    requires i <= |h| && Reported(h[..i], u)
    ensures j < i && (h[j] == Published(u, Success) || h[j] == Published(u, Failure))
  {
    j :| 0 <= j < |h[..i]| && (h[..i][j] == Published(u, Success) || h[..i][j] == Published(u, Failure));
  }

  /** What each stage means: the records that led to it, in their order. */
  ghost predicate Staged(h: History, u: Uuid, n: nat, i: nat) {
    match n
    case 0 => true
    case 1 => exists j :: LatestIsGood(h, u, j, i)
    case 2 => exists k :: 0 <= k < i <= |h| && h[k] == Published(u, Deploying) && Staged(h, u, 1, k)
    case _ => exists l :: 0 <= l < i <= |h| && h[l].RebootSaved? && h[l].u == u && Staged(h, u, 2, l)
  }

  /** The record at `j` is a good attempt, and the latest attempt for this update before `i`. */
  ghost predicate LatestIsGood(h: History, u: Uuid, j: int, i: nat) {
    0 <= j < i <= |h| && GoodAttempt(h[j], u) && forall x :: j < x < i ==> !AttemptOf(h[x], u)
  }

  lemma {:induction false} StageMeaning(h: History, u: Uuid, i: nat)
    requires i <= |h|
    ensures Stage(h[..i], u) <= 3 && Staged(h, u, Stage(h[..i], u), i)
    decreases i
  {
    if i > 0 {
      StageMeaning(h, u, i - 1);
      assert h[..i][..i - 1] == h[..i - 1];
      var n := Stage(h[..i - 1], u);
      if n == 1 {
        var j :| LatestIsGood(h, u, j, i - 1);
        if AttemptOf(h[i - 1], u) {
          if GoodAttempt(h[i - 1], u) { assert LatestIsGood(h, u, i - 1, i); }
        } else {
          assert LatestIsGood(h, u, j, i);
        }
      } else if n == 0 && GoodAttempt(h[i - 1], u) {
        assert LatestIsGood(h, u, i - 1, i);
      }
    }
  }

  // ---------------------------------------------------------------------------------------------
  // The promises
  // ---------------------------------------------------------------------------------------------

  /**
   Success is earned, across any number of restarts: before it is published for an update, an attempt
   for that update ended with the HTTP request successful, the run bit set and all bytes of a non-empty
   image in flash; it was the last attempt before Deploying was published; and then state REBOOT was
   saved for it.
   */
  lemma {:induction false} SuccessIsEarned(s: System, actions: seq<Action>, i: nat, u: Uuid)
    returns (j: nat, k: nat, l: nat)
    requires Factory(s) && CanRun(s, actions)
    requires i < |Run(s, actions).history| && Run(s, actions).history[i] == Published(u, Success)
    ensures var h := Run(s, actions).history;
            && j < k < l < i && GoodAttempt(h[j], u)
            && (forall x :: j < x < k ==> !AttemptOf(h[x], u))
            && h[k] == Published(u, Deploying) && h[l].RebootSaved? && h[l].u == u
  {
    hide Run, Factory, CanRun, Stage, GoodAttempt, Swappable;
    ReachableInv(s, actions);
    var h := Run(s, actions).history;
    SafeAt(h, i);
    StageMeaning(h, u, i);
    l :| 0 <= l < i <= |h| && h[l].RebootSaved? && h[l].u == u && Staged(h, u, 2, l);
    k :| 0 <= k < l <= |h| && h[k] == Published(u, Deploying) && Staged(h, u, 1, k);
    var j' :| LatestIsGood(h, u, j', k);
    j := j';
  }

  /**
   Success means that the upgrade was requested, or that state REBOOT was saved for the update while an
   upgrade was already pending or the running image not confirmed.
   */
  lemma {:induction false} SuccessNeedsTheUpgrade(s: System, actions: seq<Action>, i: nat, u: Uuid) returns (j: nat)
    requires Factory(s) && CanRun(s, actions)
    requires i < |Run(s, actions).history| && Run(s, actions).history[i] == Published(u, Success)
    ensures var h := Run(s, actions).history;
            && j < i
            && (h[j] == UpgradeRequested(u) || (h[j].RebootSaved? && h[j].u == u && h[j].boot != SETTLED))
  {
    hide Run, Factory, CanRun, Stage;
    ReachableInv(s, actions);
    var h := Run(s, actions).history;
    SafeAt(h, i);
    j :| 0 <= j < |h[..i]| &&
      (h[..i][j] == UpgradeRequested(u) || (h[..i][j].RebootSaved? && h[..i][j].u == u && h[..i][j].boot != SETTLED));
  }

  /** A stored request is deleted only after Success or Failure was published for it. */
  lemma {:induction false} NoSilentDrop(s: System, actions: seq<Action>, i: nat, u: Uuid) returns (j: nat)
    requires Factory(s) && CanRun(s, actions)
    requires i < |Run(s, actions).history| && Run(s, actions).history[i] == RequestDeleted(u)
    ensures var h := Run(s, actions).history;
            j < i && (h[j] == Published(u, Success) || h[j] == Published(u, Failure))
  {
    hide Run, Factory, CanRun, Stage, Reported;
    ReachableInv(s, actions);
    SafeAt(Run(s, actions).history, i);
    j := ReportedBefore(Run(s, actions).history, i, u);
  }

  /** Whenever it was stored, a request is still stored unless its outcome has been published. */
  lemma {:induction false} StoredUntilReported(s: System, actions: seq<Action>, u: Uuid)
    requires Factory(s) && CanRun(s, actions) && RequestSaved(u) in Run(s, actions).history
    ensures var after := Run(s, actions);
            || Reported(after.history, u)
            || after.settings.request == Some(u)
  {
    hide Run, Factory, CanRun, Stage, Reported;
    ReachableInv(s, actions);
  }

  /** After the recovery, and whenever no worker runs, no request is stored and the state is IDLE. */
  lemma {:induction false} QuietWhenReady(s: System, actions: seq<Action>)
    requires Factory(s) && CanRun(s, actions)
    ensures var after := Run(s, actions);
            after.recovery.Ready? && after.worker.NoWorker? ==> after.settings == Settings(None, Idle)
  {
    hide Run, Factory, CanRun, Stage, Reported;
    ReachableInv(s, actions);
  }

  /** The semaphore count and its holders always add up to one: an update and a transfer never overlap. */
  lemma {:induction false} UpdatesExcludeTransfers(s: System, actions: seq<Action>)
    requires Factory(s) && CanRun(s, actions)
    ensures var after := Run(s, actions);
            && after.semaphore <= 1
            && !(HoldsSemaphore(after.worker) && after.transferHolds)
            && (after.semaphore == 0 <==> HoldsSemaphore(after.worker) || after.transferHolds)
  {
    hide Run, Factory, CanRun, Stage, Reported;
    ReachableInv(s, actions);
  }

  // ---------------------------------------------------------------------------------------------
  // An uninterrupted recovery
  // ---------------------------------------------------------------------------------------------

  /** Steps left of `edgehog_ota_init`. */
  function StepsLeft(r: Recovery): nat {
    match r
    case ToLoad => 6
    case ToCheckSwap(_) => 5
    case ToCheckConfirmed(_) => 4
    case ToConfirm(_) => 3
    case ToPublish(_, _) => 2
    case ToDrop => 1
    case ToReset => 0
    case Ready => 0
  }

  /** Running `edgehog_ota_init` to its end. */
  function Recovered(s: System, swapNone: bool, confirmOk: bool): System
    requires !s.recovery.Ready?
    decreases StepsLeft(s.recovery)
  {
    var next := RecoveryStep(s, swapNone, confirmOk);
    if s.recovery.ToReset? then next else Recovered(next, swapNone, confirmOk)
  }

  /** What the recovery publishes for the stored request, if there is one. */
  function Verdict(s: System, swapNone: bool, confirmOk: bool): Event {
    if s.settings.state == Reboot && swapNone && !s.mcuboot.confirmed && confirmOk then Success else Failure
  }

  /** Where the rest of the recovery leads. */
  function Settled(s: System, swapNone: bool, confirmOk: bool): System {
    var s := match s.recovery
      case ToCheckSwap(u) =>
        var v := if swapNone && !s.mcuboot.confirmed && confirmOk then Success else Failure;
        Noted(if v == Success then s.(mcuboot := s.mcuboot.(confirmed := true)) else s, Published(u, v))
      case ToPublish(u, event) => Noted(s, Published(u, event))
      case _ => s;
    WithState(WithoutRequest(s.(recovery := Ready)), Idle)
  }

  lemma {:induction false} DropSettles(s: System, swapNone: bool, confirmOk: bool)
    requires s.recovery == ToDrop
    ensures Recovered(s, swapNone, confirmOk) == WithState(WithoutRequest(s.(recovery := Ready)), Idle)
    ensures Recovered(s, swapNone, confirmOk) == Settled(s, swapNone, confirmOk)
  {
    hide Recovered, StepsLeft;
    RecoveredUnfolds(s, swapNone, confirmOk);
    RecoveredUnfolds(RecoveryStep(s, swapNone, confirmOk), swapNone, confirmOk);
  }

  lemma {:induction false} PublishSettles(s: System, swapNone: bool, confirmOk: bool)
    requires s.recovery.ToPublish?
    ensures Recovered(s, swapNone, confirmOk) == Settled(s, swapNone, confirmOk)
  {
    hide Recovered, StepsLeft;
    RecoveredUnfolds(s, swapNone, confirmOk);
    DropSettles(RecoveryStep(s, swapNone, confirmOk), swapNone, confirmOk);
  }

  lemma {:induction false} ChecksSettle(s: System, swapNone: bool, confirmOk: bool)
    requires s.recovery.ToCheckSwap?
    ensures Recovered(s, swapNone, confirmOk) == Settled(s, swapNone, confirmOk)
  {
    hide Recovered, StepsLeft, Settled;
    RecoveredUnfolds(s, swapNone, confirmOk);
    var s1 := RecoveryStep(s, swapNone, confirmOk);
    if s1.recovery.ToCheckConfirmed? {
      RecoveredUnfolds(s1, swapNone, confirmOk);
      var s2 := RecoveryStep(s1, swapNone, confirmOk);
      if s2.recovery.ToConfirm? {
        RecoveredUnfolds(s2, swapNone, confirmOk);
      }
    }
    var last := Checked(s, swapNone, confirmOk);
    assert Recovered(s, swapNone, confirmOk) == Recovered(last, swapNone, confirmOk);
    PublishSettles(last, swapNone, confirmOk);
    SameOutcome(s, swapNone, confirmOk);
  }

  /** The outcome of the three checks. */
  function Checked(s: System, swapNone: bool, confirmOk: bool): (r: System)
    requires s.recovery.ToCheckSwap?
    ensures r.recovery.ToPublish?
  {
    if swapNone && !s.mcuboot.confirmed && confirmOk then
      s.(mcuboot := s.mcuboot.(confirmed := true), recovery := ToPublish(s.recovery.u, Success))
    else s.(recovery := ToPublish(s.recovery.u, Failure))
  }

  lemma {:induction false} SameOutcome(s: System, swapNone: bool, confirmOk: bool)
    requires s.recovery.ToCheckSwap?
    ensures Settled(Checked(s, swapNone, confirmOk), swapNone, confirmOk) == Settled(s, swapNone, confirmOk)
  {
  }

  lemma {:induction false} RecoveredUnfolds(s: System, swapNone: bool, confirmOk: bool)
    requires !s.recovery.Ready?
    ensures var next := RecoveryStep(s, swapNone, confirmOk);
            && (next.recovery.Ready? <==> s.recovery.ToReset?)
            && Recovered(s, swapNone, confirmOk) == if s.recovery.ToReset? then next else Recovered(next, swapNone, confirmOk)
  {
  }

  /** The whole recovery in one go. */
  function InOneGo(s: System, swapNone: bool, confirmOk: bool): System {
    var r := s.(data := NO_DATA, recovery := Ready);
    match s.settings.request
    case None => WithState(r, Idle)
    case Some(u) =>
      var v := Verdict(s, swapNone, confirmOk);
      var r := if v == Success then r.(mcuboot := s.mcuboot.(confirmed := true)) else r;
      WithState(WithoutRequest(Noted(r, Published(u, v))), Idle)
  }

  lemma {:induction false} RecoveryInOneGo(s: System, swapNone: bool, confirmOk: bool)
    requires s.recovery == ToLoad
    ensures Recovered(s, swapNone, confirmOk) == InOneGo(s, swapNone, confirmOk)
  {
    hide Recovered, Settled, InOneGo, NO_DATA;
    RecoveredUnfolds(s, swapNone, confirmOk);
    var s1 := RecoveryStep(s, swapNone, confirmOk);
    if s1.recovery.ToCheckSwap? { ChecksSettle(s1, swapNone, confirmOk); }
    else if s1.recovery.ToPublish? { PublishSettles(s1, swapNone, confirmOk); }
    else { DropSettles(s1, swapNone, confirmOk); }
    SettledInOneGo(s, swapNone, confirmOk);
  }

  lemma {:induction false} SettledInOneGo(s: System, swapNone: bool, confirmOk: bool)
    requires s.recovery == ToLoad
    ensures Settled(RecoveryStep(s, swapNone, confirmOk), swapNone, confirmOk) == InOneGo(s, swapNone, confirmOk)
  {
    hide NO_DATA;
  }

  /**
   An uninterrupted recovery settles a stored request: it publishes Success exactly when state REBOOT
   was stored, no swap is pending, the running image is not yet confirmed and can be confirmed, and
   Failure otherwise; then the request is gone and the state is IDLE. Without a stored request it
   publishes nothing.
   */
  lemma {:induction false} RecoverySettles(s: System, swapNone: bool, confirmOk: bool)
    requires s.recovery == ToLoad
    ensures var r := Recovered(s, swapNone, confirmOk);
            && r.recovery == Ready && r.settings == Settings(None, Idle)
            && match s.settings.request
               case None => r.history == s.history && r.mcuboot == s.mcuboot
               case Some(u) =>
                 var good := s.settings.state == Reboot && swapNone && !s.mcuboot.confirmed && confirmOk;
                 && r.history == s.history + [Published(u, if good then Success else Failure)] + [RequestDeleted(u)]
                 && r.mcuboot == if good then s.mcuboot.(confirmed := true) else s.mcuboot
  {
    hide Recovered, NO_DATA;
    RecoveryInOneGo(s, swapNone, confirmOk);
  }

  /**
   A restart between confirming the new image and publishing Success costs the Success: the next
   recovery finds the image confirmed and publishes Failure for an update that is running.
   */
  lemma {:induction false} LateRestartReportsFailure(s: System, actions: seq<Action>, u: Uuid, after: Mcuboot, swapNone: bool, confirmOk: bool)
    requires Factory(s) && CanRun(s, actions) && Run(s, actions).recovery == ToPublish(u, Success)
    requires Enabled(Run(s, actions), Restart(after))
    ensures after.confirmed
    ensures Published(u, Failure) in Recovered(Step(Run(s, actions), Restart(after)), swapNone, confirmOk).history
  {
    hide Run, Factory, CanRun, Stage, Reported, Recovered;
    ReachableInv(s, actions);
    var r := Step(Run(s, actions), Restart(after));
    RecoverySettles(r, swapNone, confirmOk);
    assert Recovered(r, swapNone, confirmOk).history[|r.history|] == Published(u, Failure);
  }

  // ---------------------------------------------------------------------------------------------
  // The language of events
  // ---------------------------------------------------------------------------------------------

  /**
   The events of one update, laid out: whether it was acknowledged; the percentages of each download
   attempt; whether the last attempt is without an Error; how much of Deploying, Deployed, Rebooting
   came; the events after that.
   */
  datatype Story = Story(acknowledged: bool, attempts: seq<seq<nat>>, lastOpen: bool, deployment: nat, ends: seq<Event>)

  predicate Proper(t: Story) {
    && (!t.acknowledged ==> t == Story(false, [], false, 0, []))
    && |t.attempts| <= MAX_OTA_RETRY
    && (forall i :: 0 <= i < |t.attempts| ==> t.attempts[i] != [])
    && (t.lastOpen ==> t.attempts != [])
    && t.deployment <= 3 && (t.deployment > 0 ==> t.lastOpen)
    && (forall i :: 0 <= i < |t.ends| ==> t.ends[i] in {Success, Failure})
    && multiset(t.ends)[Success] <= 1
  }

  function Downloads(percents: seq<nat>): seq<Event> {
    seq(|percents|, i requires 0 <= i < |percents| => Downloading(percents[i]))
  }

  function AttemptEvents(attempts: seq<seq<nat>>, lastOpen: bool): seq<Event> {
    if attempts == [] then []
    else
      AttemptEvents(attempts[..|attempts| - 1], false) + Downloads(attempts[|attempts| - 1])
      + if lastOpen then [] else [Error]
  }

  function DeploymentEvents(n: nat): seq<Event> {
    match n
    case 0 => []
    case 1 => [Deploying]
    case 2 => [Deploying, Deployed]
    case _ => [Deploying, Deployed, Rebooting]
  }

  function Told(t: Story): seq<Event> {
    (if t.acknowledged then [Acknowledged] else []) + AttemptEvents(t.attempts, t.lastOpen)
    + DeploymentEvents(t.deployment) + t.ends
  }

  /** The story so far matches the phase the automaton is in. */
  predicate Matches(t: Story, p: Phase) {
    match p
    case Unheard => !t.acknowledged
    case Accepted => t == Story(true, [], false, 0, [])
    case Fetching(n) => |t.attempts| == n && t.lastOpen && t.deployment == 0 && t.ends == []
    case Failed(n) => |t.attempts| == n && !t.lastOpen && t.deployment == 0 && t.ends == [] && t.acknowledged
    case InDeployment => t.deployment == 1 && t.ends == []
    case InPlace => t.deployment == 2 && t.ends == []
    case Restarting => t.deployment == 3 && t.ends == []
    case Ended(done) => t.acknowledged && (done <==> Success in t.ends)
    case Broken => false
  }

  lemma {:induction false} AppendEnd(t: Story, e: Event)
    requires Proper(t) && t.acknowledged && e in {Success, Failure} && (e == Success ==> Success !in t.ends)
    ensures var t' := t.(ends := t.ends + [e]);
            Proper(t') && Told(t') == Told(t) + [e] && (Success in t'.ends <==> Success in t.ends || e == Success)
  {
    hide AttemptEvents, DeploymentEvents;
    assert multiset(t.ends + [e]) == multiset(t.ends) + multiset{e};
    var front := (if t.acknowledged then [Acknowledged] else []) + AttemptEvents(t.attempts, t.lastOpen)
                 + DeploymentEvents(t.deployment);
    Associative(front, t.ends, [e]);
    assert (t.ends + [e])[|t.ends|] == e;
    assert forall x :: x in t.ends ==> x in t.ends + [e];
  }

  lemma {:induction false} AppendDeployment(t: Story, e: Event)
    requires Proper(t) && t.lastOpen && t.ends == [] && t.deployment < 3
    requires e == match t.deployment case 0 => Deploying case 1 => Deployed case _ => Rebooting
    ensures var t' := t.(deployment := t.deployment + 1); Proper(t') && Told(t') == Told(t) + [e]
  {
    hide AttemptEvents;
    var front := (if t.acknowledged then [Acknowledged] else []) + AttemptEvents(t.attempts, t.lastOpen);
    assert DeploymentEvents(t.deployment + 1) == DeploymentEvents(t.deployment) + [e];
    Associative(front, DeploymentEvents(t.deployment), [e]);
  }

  lemma {:induction false} AppendError(t: Story)
    requires Proper(t) && t.acknowledged && t.lastOpen && t.deployment == 0 && t.ends == []
    ensures var t' := t.(lastOpen := false); Proper(t') && Told(t') == Told(t) + [Error]
  {
    var attempts := t.attempts;
    var front := AttemptEvents(attempts[..|attempts| - 1], false) + Downloads(attempts[|attempts| - 1]);
    assert AttemptEvents(attempts, true) == front + [] == front;
    Associative([Acknowledged], front, [Error]);
  }

  lemma {:induction false} AppendDownload(t: Story, percent: nat)
    requires Proper(t) && t.acknowledged && t.lastOpen && t.deployment == 0 && t.ends == []
    ensures var n := |t.attempts| - 1;
            var t' := t.(attempts := t.attempts[n := t.attempts[n] + [percent]]);
            Proper(t') && Told(t') == Told(t) + [Downloading(percent)]
  {
    var n := |t.attempts| - 1;
    var more := t.attempts[n := t.attempts[n] + [percent]];
    assert more[..n] == t.attempts[..n] && more[n] == t.attempts[n] + [percent];
    var front := AttemptEvents(t.attempts[..n], false);
    assert Downloads(more[n]) == Downloads(t.attempts[n]) + [Downloading(percent)];
    assert AttemptEvents(t.attempts, true) == front + Downloads(t.attempts[n]);
    assert AttemptEvents(more, true) == front + Downloads(more[n]);
    assert AttemptEvents(more, true) == AttemptEvents(t.attempts, true) + [Downloading(percent)];
    Associative([Acknowledged], AttemptEvents(t.attempts, true), [Downloading(percent)]);
  }

  lemma {:induction false} AppendAttempt(t: Story, percent: nat)
    requires Proper(t) && t.acknowledged && !t.lastOpen && t.deployment == 0 && t.ends == [] && |t.attempts| < MAX_OTA_RETRY
    ensures var t' := t.(attempts := t.attempts + [[percent]], lastOpen := true);
            Proper(t') && Told(t') == Told(t) + [Downloading(percent)]
  {
    var more := t.attempts + [[percent]];
    assert more[..|t.attempts|] == t.attempts && more[|t.attempts|] == [percent];
    assert Downloads([percent]) == [Downloading(percent)];
    assert AttemptEvents(more, true) == AttemptEvents(t.attempts, false) + [Downloading(percent)];
    Associative([Acknowledged], AttemptEvents(t.attempts, false), [Downloading(percent)]);
  }

  /** One more event the automaton takes is one more event of the story. */
  lemma {:induction false} StoryGoesOn(t: Story, p: Phase, e: Event) returns (t': Story)
    requires Proper(t) && Matches(t, p) && After(p, e) != Broken
    ensures Proper(t') && Matches(t', After(p, e)) && Told(t') == Told(t) + [e]
  {
    hide Told, AttemptEvents, DeploymentEvents;
    match e
    case Acknowledged =>
      t' := Story(true, [], false, 0, []);
      StoryBegins();
    case Downloading(percent) =>
      if p.Fetching? {
        AppendDownload(t, percent);
        t' := t.(attempts := t.attempts[|t.attempts| - 1 := t.attempts[|t.attempts| - 1] + [percent]]);
      } else {
        AppendAttempt(t, percent);
        t' := t.(attempts := t.attempts + [[percent]], lastOpen := true);
      }
    case Error =>
      AppendError(t);
      t' := t.(lastOpen := false);
    case Deploying =>
      AppendDeployment(t, e);
      t' := t.(deployment := t.deployment + 1);
    case Deployed =>
      AppendDeployment(t, e);
      t' := t.(deployment := t.deployment + 1);
    case Rebooting =>
      AppendDeployment(t, e);
      t' := t.(deployment := t.deployment + 1);
    case _ =>
      AppendEnd(t, e);
      t' := t.(ends := t.ends + [e]);
  }

  lemma {:induction false} StoryBegins()
    ensures Told(Story(false, [], false, 0, [])) == []
    ensures Told(Story(true, [], false, 0, [])) == [Acknowledged]
    ensures Proper(Story(false, [], false, 0, [])) && Proper(Story(true, [], false, 0, []))
  {
  }

  lemma {:induction false} BrokenStaysBroken(e: Event)
    ensures After(Broken, e) == Broken
  {
  }

  lemma {:induction false} ReadableIsAStory(events: seq<Event>) returns (t: Story)
    requires Reading(events) != Broken
    ensures Proper(t) && Matches(t, Reading(events)) && Told(t) == events
    decreases |events|
  {
    hide Told, After, Proper;
    if events == [] {
      StoryBegins();
      t := Story(false, [], false, 0, []);
    } else {
      var front, last := events[..|events| - 1], events[|events| - 1];
      BrokenStaysBroken(last);
      var t0 := ReadableIsAStory(front);
      t := StoryGoesOn(t0, Reading(front), last);
      assert events == front + [last];
    }
  }

  /**
   The event language: what the worker and the recovery publish for one update, over any run and any
   restarts, is Acknowledged, then at most five download attempts each ended by an Error except
   possibly the last, then a beginning of Deploying, Deployed, Rebooting, then only Success and
   Failure, with Success at most once.
   */
  lemma {:induction false} EventLanguage(s: System, actions: seq<Action>, u: Uuid) returns (t: Story)
    requires Factory(s) && CanRun(s, actions)
    ensures Proper(t) && Events(Run(s, actions).history, u) == Told(t)
  {
    hide Run, Factory, CanRun, Stage, Reported, Proper, Told;
    ReachableInv(s, actions);
    NotBroken(Run(s, actions).history, Run(s, actions).seen, u);
    t := ReadableIsAStory(Events(Run(s, actions).history, u));
  }
}
