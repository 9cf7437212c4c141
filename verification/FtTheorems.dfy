/** What every run of the file transfer service keeps. */
module FtTheorems {
  import opened CLib
  import opened FtService

  // ---------------------------------------------------------------------------------------------
  // The life of one message, read off the history
  // ---------------------------------------------------------------------------------------------

  datatype Life =
    | Fresh | Waiting | Held | Answered | Refused
    | Over(queued: bool, answered: bool)
    | Bad

  /**
   A queued message is taken once, then answered once and destroyed, or destroyed without an answer,
   and that only during a shutdown. A message that is not queued is answered once if it has an
   identifier, never if it has none, and destroyed.
   */
  function After(l: Life, r: Record): Life {
    match (l, r)
    case (Fresh, Queued(_)) => Waiting
    case (Fresh, Responded(m)) => if m.id != 0 then Refused else Bad
    case (Fresh, Destroyed(m, _)) => if m.id == 0 then Over(false, false) else Bad
    case (Refused, Destroyed(_, _)) => Over(false, true)
    case (Waiting, Taken(_)) => Held
    case (Held, Responded(_)) => Answered
    case (Held, Destroyed(_, running)) => if running then Bad else Over(true, false)
    case (Answered, Destroyed(_, _)) => Over(true, true)
    case (_, _) => Bad
  }

  function LifeOf(h: History, m: Msg): Life {
    if h == [] then Fresh
    else Lived(LifeOf(h[..|h| - 1], m), h[|h| - 1], m)
  }

  function Lived(l: Life, r: Record, m: Msg): Life {
    if r.m == m then After(l, r) else l
  }

  lemma {:induction false} OneMore(h: History, r: Record, m: Msg)
    ensures LifeOf(h + [r], m) == Lived(LifeOf(h, m), r, m)
  {
    hide Lived;
    assert (h + [r])[..|h|] == h;
  }

  lemma {:induction false} LifeOfTaken(h: History, taken: Msg, m: Msg)
    ensures LifeOf(h + [Taken(taken)], m)
         == if taken != m then LifeOf(h, m) else if LifeOf(h, m) == Waiting then Held else Bad
  {
    OneMore(h, Taken(taken), m);
  }

  lemma {:induction false} LifeOfQueued(h: History, queued: Msg, m: Msg)
    ensures LifeOf(h + [Queued(queued)], m)
         == if queued != m then LifeOf(h, m) else if LifeOf(h, m) == Fresh then Waiting else Bad
  {
    OneMore(h, Queued(queued), m);
  }

  lemma {:induction false} LifeOfResponded(h: History, answered: Msg, m: Msg)
    ensures LifeOf(h + [Responded(answered)], m)
         == if answered != m then LifeOf(h, m)
            else if LifeOf(h, m) == Fresh && m.id != 0 then Refused
            else if LifeOf(h, m) == Held then Answered
            else Bad
  {
    OneMore(h, Responded(answered), m);
  }

  lemma {:induction false} LifeOfDestroyed(h: History, gone: Msg, running: bool, m: Msg)
    ensures LifeOf(h + [Destroyed(gone, running)], m)
         == if gone != m then LifeOf(h, m)
            else if LifeOf(h, m) == Fresh && m.id == 0 then Over(false, false)
            else if LifeOf(h, m) == Refused then Over(false, true)
            else if LifeOf(h, m) == Answered then Over(true, true)
            else if LifeOf(h, m) == Held && !running then Over(true, false)
            else Bad
  {
    OneMore(h, Destroyed(gone, running), m);
  }

  /** Messages in the order they were queued, and in the order they were taken out. */
  function QueuedIn(h: History): seq<Msg> {
    if h == [] then []
    else QueuedIn(h[..|h| - 1]) + if h[|h| - 1].Queued? then [h[|h| - 1].m] else []
  }

  function TakenIn(h: History): seq<Msg> {
    if h == [] then []
    else TakenIn(h[..|h| - 1]) + if h[|h| - 1].Taken? then [h[|h| - 1].m] else []
  }

  lemma {:induction false} OneMoreInOrder(h: History, r: Record)
    ensures QueuedIn(h + [r]) == QueuedIn(h) + if r.Queued? then [r.m] else []
    ensures TakenIn(h + [r]) == TakenIn(h) + if r.Taken? then [r.m] else []
  {
    assert (h + [r])[..|h|] == h;
  }

  // ---------------------------------------------------------------------------------------------
  // The invariant
  // ---------------------------------------------------------------------------------------------

  predicate HoldsSemaphore(t: Thread) { t.ToHandle? || t.ToDestroy? || t.ToGive? }

  predicate Exclusive(s: Service) {
    s.semaphore + (if HoldsSemaphore(s.thread) then 1 else 0) + (if s.updateHolds then 1 else 0) == 1
  }

  /** The thread runs as long as the run bit is set, and a stop waits for it. */
  predicate Controlled(s: Service) {
    && (s.running ==> s.stopper.NotStopping? && !s.thread.NoThread? && !s.thread.ToDiscard?)
    && (s.stopper.ToDrain? ==> s.thread.NoThread?)
    && (!s.running && s.stopper.NotStopping? ==> s.thread.NoThread?)
  }

  predicate ThreadHolds(t: Thread, m: Msg) {
    t == ToTestWaiting(m) || t == ToTakeSemaphore(m) || t == ToHandle(m) || t == ToDiscard(m)
  }

  predicate HandlerHas(e: Handler, m: Msg) { e == ToPut(m) || e == ToRefuse(m) || e == ToForget(m) }

  /** A message is where its history says, and nowhere else. */
  predicate Placed(s: Service, m: Msg) {
    var l := LifeOf(s.history, m);
    && l != Bad
    && (m in s.queue ==> l == Waiting)
    && (ThreadHolds(s.thread, m) <==> l == Held)
    && (s.thread == ToDestroy(m) <==> l == Answered)
    && (s.handler == ToPut(m) || s.handler == ToRefuse(m) ==> l == Fresh)
    && (s.handler == ToForget(m) ==> l == if m.id != 0 then Refused else Fresh)
    && (l == Refused ==> s.handler == ToForget(m))
    && (m !in s.seen ==> l == Fresh && !HandlerHas(s.handler, m))
    && (m in s.seen && l == Fresh ==> HandlerHas(s.handler, m))
    && (l.Over? && !l.queued ==> l.answered == (m.id != 0))
  }

  ghost predicate AllPlaced(s: Service) { forall m :: Placed(s, m) }

  predicate Distinct(queue: seq<Msg>) {
    forall i, j :: 0 <= i < j < |queue| ==> queue[i] != queue[j]
  }

  ghost predicate Inv(s: Service) {
    Exclusive(s) && Controlled(s) && AllPlaced(s) && Distinct(s.queue)
  }

  /** With timely puts nothing is left behind: first in, first out, and an empty queue once closed. */
  ghost predicate InOrder(s: Service) {
    && QueuedIn(s.history) == TakenIn(s.history) + s.queue
    && (Closed(s) ==> s.queue == [])
    && (forall m :: LifeOf(s.history, m) == Waiting ==> m in s.queue)
  }

  lemma {:induction false} CreatedInv()
    ensures Inv(CREATED) && InOrder(CREATED)
  {
  }

  // ---------------------------------------------------------------------------------------------
  // Every step keeps it
  // ---------------------------------------------------------------------------------------------

  lemma {:induction false} StepKeepsControl(s: Service, a: Action)
    requires Exclusive(s) && Controlled(s) && Enabled(s, a)
    ensures Exclusive(Step(s, a)) && Controlled(Step(s, a))
  {
  }

  lemma {:induction false} TailDistinct(queue: seq<Msg>)
    requires Distinct(queue) && queue != []
    ensures Distinct(queue[1..]) && queue[0] !in queue[1..]
    ensures forall m :: m in queue <==> m == queue[0] || m in queue[1..]
  {
    assert queue == [queue[0]] + queue[1..];
  }

  lemma {:induction false} LongerDistinct(queue: seq<Msg>, m: Msg)
    requires Distinct(queue) && m !in queue
    ensures Distinct(queue + [m])
    ensures forall x :: x in queue + [m] <==> x in queue || x == m
  {
    var longer := queue + [m];
    assert forall i :: 0 <= i < |queue| ==> longer[i] == queue[i];
  }

  /** A step of the thread, for one message. */
  lemma {:induction false} ThreadPlaces(s: Service, m: Msg)
    requires Controlled(s) && Enabled(s, RunThread) && Placed(s, m)
    requires s.queue != [] ==> forall x :: x in s.queue <==> x == s.queue[0] || x in s.queue[1..]
    requires s.queue != [] ==> s.queue[0] !in s.queue[1..]
    ensures Placed(Step(s, RunThread), m)
  {
    hide LifeOf;
    match s.thread
    case ToGet =>
      if s.queue != [] { LifeOfTaken(s.history, s.queue[0], m); }
    case ToHandle(held) => ThreadAnswers(s, held, m);
    case ToDestroy(held) => ThreadAnswers(s, held, m);
    case ToDiscard(held) => ThreadAnswers(s, held, m);
    case _ =>
  }

  lemma {:induction false} ThreadAnswers(s: Service, held: Msg, m: Msg)
    requires Controlled(s) && s.thread in {ToHandle(held), ToDestroy(held), ToDiscard(held)} && Placed(s, m)
    ensures Placed(Step(s, RunThread), m)
  {
    hide LifeOf;
    LifeOfResponded(s.history, held, m);
    LifeOfDestroyed(s.history, held, s.running, m);
  }

  lemma {:induction false} ThreadKeeps(s: Service)
    requires Inv(s) && Enabled(s, RunThread)
    ensures AllPlaced(Step(s, RunThread)) && Distinct(Step(s, RunThread).queue)
  {
    hide LifeOf, Exclusive, Distinct, Placed, Controlled;
    if s.queue != [] { TailDistinct(s.queue); }
    forall m ensures Placed(Step(s, RunThread), m) {
      ThreadPlaces(s, m);
    }
  }

  /** A step of the handler, for one message. */
  lemma {:induction false} HandlerQueues(s: Service, m: Msg)
    requires s.handler.ToPut? && Placed(s, m)
    requires forall x :: x in s.queue + [s.handler.m] <==> x in s.queue || x == s.handler.m
    ensures Placed(Step(s, RunHandler), m)
  {
    hide LifeOf;
    LifeOfQueued(s.history, s.handler.m, m);
  }

  lemma {:induction false} HandlerRefuses(s: Service, m: Msg)
    requires s.handler.ToRefuse? && Placed(s, m)
    ensures Placed(Step(s, RunHandler), m)
  {
    hide LifeOf;
    LifeOfResponded(s.history, s.handler.m, m);
  }

  lemma {:induction false} HandlerForgets(s: Service, m: Msg)
    requires s.handler.ToForget? && Placed(s, m)
    ensures Placed(Step(s, RunHandler), m)
  {
    hide LifeOf;
    LifeOfDestroyed(s.history, s.handler.m, s.running, m);
  }

  lemma {:induction false} HandlerPlaces(s: Service, m: Msg)
    requires Enabled(s, RunHandler) && Placed(s, m)
    requires forall x :: x in s.queue + [s.handler.m] <==> x in s.queue || x == s.handler.m
    ensures Placed(Step(s, RunHandler), m)
  {
    hide Placed, Step;
    match s.handler
    case ToPut(_) => HandlerQueues(s, m);
    case ToRefuse(_) => HandlerRefuses(s, m);
    case ToForget(_) => HandlerForgets(s, m);
  }

  lemma {:induction false} HandlerKeeps(s: Service)
    requires Inv(s) && Enabled(s, RunHandler)
    ensures AllPlaced(Step(s, RunHandler)) && Distinct(Step(s, RunHandler).queue)
  {
    hide LifeOf, Exclusive, Distinct, Controlled;
    var m := s.handler.m;
    assert s.handler.ToPut? ==> m !in s.queue by { assert Placed(s, m); }
    hide Placed;
    if m !in s.queue { LongerDistinct(s.queue, m); }
    assert forall x :: x in s.queue + [m] <==> x in s.queue || x == m;
    forall m ensures Placed(Step(s, RunHandler), m) {
      HandlerPlaces(s, m);
    }
  }

  lemma {:induction false} StopperKeeps(s: Service)
    requires Inv(s) && Enabled(s, RunStopper)
    ensures AllPlaced(Step(s, RunStopper)) && Distinct(Step(s, RunStopper).queue)
  {
    hide LifeOf, Exclusive, Distinct;
    var t := Step(s, RunStopper);
    if s.queue != [] { TailDistinct(s.queue); }
    forall m ensures Placed(t, m) {
      assert Placed(s, m);
      if t.history != s.history {
        var r0, r1 := Taken(s.queue[0]), Destroyed(s.queue[0], s.running);
        OneMore(s.history, r0, m);
        OneMore(s.history + [r0], r1, m);
      }
    }
  }

  lemma {:induction false} OtherKeeps(s: Service, a: Action)
    requires Inv(s) && Enabled(s, a) && !a.RunThread? && !a.RunHandler? && !a.RunStopper?
    ensures AllPlaced(Step(s, a)) && Distinct(Step(s, a).queue)
  {
    hide LifeOf, Exclusive;
    forall m ensures Placed(Step(s, a), m) {
      assert Placed(s, m);
    }
  }

  lemma {:induction false} StepKeeps(s: Service, a: Action)
    requires Inv(s) && Enabled(s, a)
    ensures Inv(Step(s, a))
  {
    hide Step, Enabled, AllPlaced, Distinct, Exclusive, Controlled;
    StepKeepsControl(s, a);
    match a
    case RunThread => ThreadKeeps(s);
    case RunHandler => HandlerKeeps(s);
    case RunStopper => StopperKeeps(s);
    case _ => OtherKeeps(s, a);
  }

  lemma {:induction false} FirstComesOut(taken: seq<Msg>, queue: seq<Msg>)
    requires queue != []
    ensures taken + queue == (taken + [queue[0]]) + queue[1..]
    ensures forall m :: m in queue ==> m == queue[0] || m in queue[1..]
  {
    assert queue == [queue[0]] + queue[1..];
  }

  /** What the order needs to know of one more record. */
  lemma {:induction false} OrderAfter(h: History, r: Record)
    ensures QueuedIn(h + [r]) == QueuedIn(h) + if r.Queued? then [r.m] else []
    ensures TakenIn(h + [r]) == TakenIn(h) + if r.Taken? then [r.m] else []
    ensures r.Taken? ==> forall m :: LifeOf(h + [r], m) == Waiting ==> LifeOf(h, m) == Waiting && m != r.m
    ensures !r.Queued? ==> forall m :: LifeOf(h + [r], m) == Waiting ==> LifeOf(h, m) == Waiting
    ensures r.Queued? ==> forall m :: LifeOf(h + [r], m) == Waiting ==> LifeOf(h, m) == Waiting || m == r.m
  {
    hide LifeOf, QueuedIn, TakenIn;
    OneMoreInOrder(h, r);
    forall m | LifeOf(h + [r], m) == Waiting
      ensures (LifeOf(h, m) == Waiting && (r.Taken? ==> m != r.m)) || (r.Queued? && m == r.m)
    {
      OneMore(h, r, m);
    }
  }

  lemma {:induction false} ThreadTakesInOrder(s: Service)
    requires InOrder(s) && Controlled(s) && s.thread.ToGet?
    ensures InOrder(Step(s, RunThread))
  {
    hide LifeOf, QueuedIn, TakenIn;
    if s.queue != [] {
      FirstComesOut(TakenIn(s.history), s.queue);
      OrderAfter(s.history, Taken(s.queue[0]));
    }
  }

  lemma {:induction false} ThreadKeepsOrder(s: Service)
    requires InOrder(s) && Controlled(s) && Enabled(s, RunThread)
    ensures InOrder(Step(s, RunThread))
  {
    hide LifeOf, QueuedIn, TakenIn, Given;
    var t := Step(s, RunThread);
    if s.thread.ToGet? {
      ThreadTakesInOrder(s);
    } else {
      assert t.queue == s.queue && (Closed(t) ==> Closed(s) || s.queue == []);
      if t.history != s.history {
        OrderAfter(s.history, t.history[|s.history|]);
      }
    }
  }

  lemma {:induction false} HandlerKeepsOrder(s: Service)
    requires InOrder(s) && Enabled(s, RunHandler) && !LatePut(s, RunHandler)
    ensures InOrder(Step(s, RunHandler))
  {
    hide LifeOf, QueuedIn, TakenIn;
    match s.handler
    case ToPut(m) =>
      OrderAfter(s.history, Queued(m));
      Associative(TakenIn(s.history), s.queue, [m]);
    case ToRefuse(m) => OrderAfter(s.history, Responded(m));
    case ToForget(m) => OrderAfter(s.history, Destroyed(m, s.running));
  }

  lemma {:induction false} StopperKeepsOrder(s: Service)
    requires InOrder(s) && Enabled(s, RunStopper)
    ensures InOrder(Step(s, RunStopper))
  {
    hide LifeOf, QueuedIn, TakenIn;
    if s.stopper.ToDrain? && s.queue != [] {
      FirstComesOut(TakenIn(s.history), s.queue);
      OrderAfter(s.history, Taken(s.queue[0]));
      OrderAfter(s.history + [Taken(s.queue[0])], Destroyed(s.queue[0], s.running));
    }
  }

  lemma {:induction false} StepKeepsOrder(s: Service, a: Action)
    requires Inv(s) && InOrder(s) && Enabled(s, a) && !LatePut(s, a)
    ensures InOrder(Step(s, a))
  {
    match a
    case RunThread =>
      hide *;
      ThreadKeepsOrder(s);
    case RunHandler =>
      hide *;
      HandlerKeepsOrder(s);
    case RunStopper =>
      hide *;
      StopperKeepsOrder(s);
    case _ =>
      hide LifeOf, QueuedIn, TakenIn, AllPlaced, Distinct;
  }

  lemma {:induction false} RunKeeps(s: Service, actions: seq<Action>)
    requires Inv(s) && CanRun(s, actions)
    ensures Inv(Run(s, actions))
    ensures InOrder(s) && Timely(s, actions) ==> InOrder(Run(s, actions))
    decreases |actions|
  {
    hide Inv, InOrder, Step, Enabled, LatePut;
    if actions != [] {
      StepKeeps(s, actions[0]);
      if InOrder(s) && !LatePut(s, actions[0]) { StepKeepsOrder(s, actions[0]); }
      RunKeeps(Step(s, actions[0]), actions[1..]);
    }
  }

  // ---------------------------------------------------------------------------------------------
  // The promises
  // ---------------------------------------------------------------------------------------------

  /** In every run: transfers and updates exclude each other. */
  lemma {:induction false} TransfersExcludeUpdates(actions: seq<Action>)
    requires CanRun(CREATED, actions)
    ensures var s := Run(CREATED, actions);
            && s.semaphore <= 1
            && !(HoldsSemaphore(s.thread) && s.updateHolds)
            && (s.semaphore == 0 <==> HoldsSemaphore(s.thread) || s.updateHolds)
  {
    hide Run, CanRun, Timely, InOrder, AllPlaced, Distinct;
    CreatedInv();
    RunKeeps(CREATED, actions);
  }

  /** In every run, every message lives by the rules of `After`. */
  lemma {:induction false} MessagesLiveByTheRules(actions: seq<Action>, m: Msg)
    requires CanRun(CREATED, actions)
    ensures LifeOf(Run(CREATED, actions).history, m) != Bad
  {
    hide Run, CanRun, Timely, InOrder, Distinct, LifeOf;
    CreatedInv();
    RunKeeps(CREATED, actions);
    assert Placed(Run(CREATED, actions), m);
  }

  /**
   With timely puts, messages leave the queue in the order they entered it, and once the service is
   closed and no event is being handled, every message that ever arrived has been destroyed: after
   one answer if it was handled, without one if a shutdown discarded it.
   */
  lemma {:induction false} MessagesAreConserved(actions: seq<Action>, m: Msg)
    requires CanRun(CREATED, actions) && Timely(CREATED, actions)
    ensures var s := Run(CREATED, actions);
            && QueuedIn(s.history) == TakenIn(s.history) + s.queue
            && (Closed(s) && s.handler.NoEvent? ==>
                  && s.queue == [] && QueuedIn(s.history) == TakenIn(s.history)
                  && LifeOf(s.history, m) in {Fresh, Over(true, true), Over(true, false), Over(false, m.id != 0)}
                  && (m in s.seen ==> LifeOf(s.history, m) != Fresh))
  {
    hide Run, CanRun, Timely, Distinct, LifeOf, QueuedIn, TakenIn;
    CreatedInv();
    RunKeeps(CREATED, actions);
    var s := Run(CREATED, actions);
    assert Placed(s, m);
    if Closed(s) { assert s.queue == [] && TakenIn(s.history) + [] == TakenIn(s.history); }
  }

  // ---------------------------------------------------------------------------------------------
  // When a message is lost
  // ---------------------------------------------------------------------------------------------

  /** Still waiting by its history, and in the queue only as long as nobody serves the queue. */
  predicate Lost(s: Service, m: Msg) {
    LifeOf(s.history, m) == Waiting && (m in s.queue ==> Closed(s))
  }

  lemma {:induction false} LostStaysLost(s: Service, actions: seq<Action>, m: Msg)
    requires Inv(s) && CanRun(s, actions) && Lost(s, m)
    ensures Lost(Run(s, actions), m)
    decreases |actions|
  {
    hide AllPlaced, Exclusive, Controlled, Distinct, Step, Enabled, Lost;
    if actions != [] {
      StepKeeps(s, actions[0]);
      LostOneStep(s, actions[0], m);
      LostStaysLost(Step(s, actions[0]), actions[1..], m);
    }
  }

  /** A lost message is touched by no step: every record is about another one. */
  ghost predicate Untouched(s: Service, t: Service, m: Msg) {
    && s.history <= t.history && |t.history| <= |s.history| + 2
    && (forall i :: |s.history| <= i < |t.history| ==> t.history[i].m != m)
    && (m in t.queue ==> Closed(t))
  }

  lemma {:induction false} LostIsUntouched(s: Service, a: Action, m: Msg)
    requires Placed(s, m) && Controlled(s) && Enabled(s, a) && Lost(s, m)
    ensures Untouched(s, Step(s, a), m)
  {
    hide LifeOf, Given;
    match a
    case RunThread => ThreadLeaves(s, m);
    case RunHandler =>
    case RunStopper =>
    case _ =>
  }

  lemma {:induction false} ThreadLeaves(s: Service, m: Msg)
    requires Placed(s, m) && Controlled(s) && Enabled(s, RunThread) && Lost(s, m)
    ensures Untouched(s, Step(s, RunThread), m)
  {
    hide LifeOf, Given;
  }

  lemma {:induction false} LostOneStep(s: Service, a: Action, m: Msg)
    requires AllPlaced(s) && Controlled(s) && Enabled(s, a) && Lost(s, m)
    ensures Lost(Step(s, a), m)
  {
    hide LifeOf, Placed, Step, Enabled, Controlled;
    LostIsUntouched(s, a, m);
    UntouchedLife(s.history, Step(s, a).history, m);
  }

  lemma {:induction false} UntouchedLife(h: History, k: History, m: Msg)
    requires h <= k && forall i :: |h| <= i < |k| ==> k[i].m != m
    ensures LifeOf(k, m) == LifeOf(h, m)
    decreases |k|
  {
    if |k| == |h| {
      assert h == k;
    } else {
      assert k[..|k| - 1][..|h|] == k[..|h|];
      UntouchedLife(h, k[..|k| - 1], m);
    }
  }

  /**
   A late put loses its message for good: whatever happens after it, the message is never handled,
   never answered and never destroyed.
   */
  lemma {:induction false} LatePutIsLost(s: Service, m: Msg, actions: seq<Action>)
    requires Inv(s) && s.handler == ToPut(m) && LatePut(s, RunHandler)
    requires CanRun(Step(s, RunHandler), actions)
    ensures LifeOf(Run(Step(s, RunHandler), actions).history, m) == Waiting
  {
    hide LifeOf, Exclusive, Distinct, Run, CanRun;
    StepKeeps(s, RunHandler);
    assert Placed(s, m);
    OneMore(s.history, Queued(m), m);
    LostStaysLost(Step(s, RunHandler), actions, m);
  }

  lemma {:induction false} UntimelyLoses(s: Service, actions: seq<Action>) returns (m: Msg)
    requires Inv(s) && CanRun(s, actions) && !Timely(s, actions)
    ensures LifeOf(Run(s, actions).history, m) == Waiting
    decreases |actions|
  {
    hide Step, Enabled, Inv, LifeOf;
    if LatePut(s, actions[0]) {
      m := s.handler.m;
      LatePutIsLost(s, m, actions[1..]);
    } else {
      StepKeeps(s, actions[0]);
      m := UntimelyLoses(Step(s, actions[0]), actions[1..]);
    }
  }

  /** Every message that arrived has been destroyed. */
  ghost predicate AllOver(s: Service) {
    forall m :: m in s.seen ==> LifeOf(s.history, m).Over?
  }

  /**
   Exactly: a run that ends with the service closed and no event being handled has destroyed every
   message that arrived if and only if none of its puts came late.
   */
  lemma {:induction false} DestroyedExactlyWhenTimely(actions: seq<Action>)
    requires CanRun(CREATED, actions)
    requires Closed(Run(CREATED, actions)) && Run(CREATED, actions).handler.NoEvent?
    ensures AllOver(Run(CREATED, actions)) <==> Timely(CREATED, actions)
  {
    hide Run, CanRun, Timely, LifeOf, Inv;
    var s := Run(CREATED, actions);
    CreatedInv();
    RunKeeps(CREATED, actions);
    if Timely(CREATED, actions) {
      forall m | m in s.seen ensures LifeOf(s.history, m).Over? {
        MessagesAreConserved(actions, m);
      }
    } else {
      var m := UntimelyLoses(CREATED, actions);
      WaitingWasSeen(s, m);
    }
  }

  lemma {:induction false} WaitingWasSeen(s: Service, m: Msg)
    requires Inv(s) && LifeOf(s.history, m) == Waiting
    ensures m in s.seen
  {
    hide LifeOf, Exclusive, Controlled, Distinct;
    assert Placed(s, m);
  }

  /** And such a state can be reached: the run bit is tested just before a stop, the put comes after it. */
  lemma {:induction false} LatePutCanHappen(m: Msg)
    ensures var actions := [Start, Receive(m, true), Stop, RunThread, RunStopper, RunStopper];
            && CanRun(CREATED, actions)
            && Run(CREATED, actions).handler == ToPut(m) && LatePut(Run(CREATED, actions), RunHandler)
  {
    var s1 := Step(CREATED, Start);
    var s2 := Step(s1, Receive(m, true));
    var s3 := Step(s2, Stop);
    var s4 := Step(s3, RunThread);
    var s5 := Step(s4, RunStopper);
    var s6 := Step(s5, RunStopper);
    Unfold(s5, RunStopper, []);
    Unfold(s4, RunStopper, [RunStopper]);
    Unfold(s3, RunThread, [RunStopper, RunStopper]);
    Unfold(s2, Stop, [RunThread, RunStopper, RunStopper]);
    Unfold(s1, Receive(m, true), [Stop, RunThread, RunStopper, RunStopper]);
    Unfold(CREATED, Start, [Receive(m, true), Stop, RunThread, RunStopper, RunStopper]);
  }

  lemma {:induction false} Unfold(s: Service, a: Action, actions: seq<Action>)
    requires Enabled(s, a) && CanRun(Step(s, a), actions)
    ensures CanRun(s, [a] + actions) && Run(s, [a] + actions) == Run(Step(s, a), actions)
  {
    hide Step, Enabled;
    assert ([a] + actions)[1..] == actions;
  }
}
