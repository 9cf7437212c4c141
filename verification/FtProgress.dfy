/** What the file transfer service gets done: messages are handled, arrivals are decided, stops come to an end. */
module FtProgress {
  import opened CLib
  import opened FtService
  import opened FtTheorems

  /** So many steps of one thread in a row. */
  function Times(a: Action, n: nat): (actions: seq<Action>)
    ensures |actions| == n
  {
    if n == 0 then [] else [a] + Times(a, n - 1)
  }

  lemma {:induction false} OneMoreStep(s: Service, a: Action, n: nat)
    requires Enabled(s, a) && CanRun(Step(s, a), Times(a, n))
    ensures CanRun(s, Times(a, n + 1)) && Run(s, Times(a, n + 1)) == Run(Step(s, a), Times(a, n))
  {
    hide Step, Enabled;
    Unfold(s, a, Times(a, n));
  }

  lemma {:induction false} NoStep(s: Service)
    ensures CanRun(s, []) && Run(s, []) == s
  {
  }

  lemma {:induction false} RunsOn(s: Service, xs: seq<Action>, ys: seq<Action>)
    requires CanRun(s, xs) && CanRun(Run(s, xs), ys)
    ensures CanRun(s, xs + ys) && Run(s, xs + ys) == Run(Run(s, xs), ys)
    decreases |xs|
  {
    hide Step, Enabled;
    if xs == [] {
      assert xs + ys == ys;
    } else {
      RunsOn(Step(s, xs[0]), xs[1..], ys);
      assert xs + ys == [xs[0]] + (xs[1..] + ys);
      Unfold(s, xs[0], xs[1..] + ys);
    }
  }

  lemma {:induction false} TimesAdd(a: Action, m: nat, n: nat)
    ensures Times(a, m) + Times(a, n) == Times(a, m + n)
  {
    if m == 0 {
      assert [] + Times(a, n) == Times(a, n);
    } else {
      TimesAdd(a, m - 1, n);
      assert Times(a, m) + Times(a, n) == [a] + (Times(a, m - 1) + Times(a, n));
    }
  }

  // ---------------------------------------------------------------------------------------------
  // Messages are handled
  // ---------------------------------------------------------------------------------------------

  /** The thread is about to look for a message, and nobody holds the semaphore. */
  predicate AtRest(s: Service) {
    s.running && s.thread == ToTestRunning && s.semaphore == 1
  }

  /** What handling a message leaves in the history. */
  function Handling(m: Msg): History { [Taken(m), Responded(m), Destroyed(m, true)] }

  /** The service with its first message handled. */
  function Served(s: Service): Service
    requires s.queue != []
  {
    s.(queue := s.queue[1..], history := s.history + Handling(s.queue[0]))
  }

  /** Take, test, take the semaphore, handle, destroy, give: seven steps of the thread handle one message. */
  lemma {:induction false} SevenSteps(s: Service)
    requires AtRest(s) && s.queue != []
    ensures CanRun(s, Times(RunThread, 7)) && Run(s, Times(RunThread, 7)) == Served(s)
  {
    var m := s.queue[0];
    hide Times, CanRun, Run;
    var s1 := Step(s, RunThread);
    var s2 := Step(s1, RunThread);
    var s3 := Step(s2, RunThread);
    var s4 := Step(s3, RunThread);
    assert s4 == s.(thread := ToHandle(m), semaphore := 0, queue := s.queue[1..], history := s.history + [Taken(m)]);
    var s5 := Step(s4, RunThread);
    var s6 := Step(s5, RunThread);
    var s7 := Step(s6, RunThread);
    assert s7.history == s.history + Handling(m);
    NoStep(s7);
    assert Times(RunThread, 0) == [] by { TimesNone(); }
    OneMoreStep(s6, RunThread, 0);
    OneMoreStep(s5, RunThread, 1);
    OneMoreStep(s4, RunThread, 2);
    OneMoreStep(s3, RunThread, 3);
    OneMoreStep(s2, RunThread, 4);
    OneMoreStep(s1, RunThread, 5);
    OneMoreStep(s, RunThread, 6);
  }

  lemma {:induction false} TimesNone()
    ensures Times(RunThread, 0) == [] == Times(RunStopper, 0)
  {
  }

  lemma {:induction false} HandledLife(h: History, m: Msg, x: Msg)
    requires LifeOf(h, m) == Waiting
    ensures LifeOf(h + Handling(m), x) == if x == m then Over(true, true) else LifeOf(h, x)
  {
    hide LifeOf;
    assert h + Handling(m) == h + [Taken(m)] + [Responded(m)] + [Destroyed(m, true)];
    OneMore(h, Taken(m), x);
    OneMore(h + [Taken(m)], Responded(m), x);
    OneMore(h + [Taken(m)] + [Responded(m)], Destroyed(m, true), x);
  }

  /**
   In every reachable state of a running service whose thread is about to look for a message, with the
   semaphore free: the next seven steps of the thread answer the first message of the queue and destroy
   it, and leave the service as before with one message less.
   */
  lemma {:induction false} FirstMessageIsHandled(actions: seq<Action>)
    requires CanRun(CREATED, actions)
    requires AtRest(Run(CREATED, actions)) && Run(CREATED, actions).queue != []
    ensures var s := Run(CREATED, actions);
            && CanRun(s, Times(RunThread, 7))
            && var t := Run(s, Times(RunThread, 7));
               && AtRest(t) && t.queue == s.queue[1..]
               && LifeOf(t.history, s.queue[0]) == Over(true, true)
               && forall m :: m != s.queue[0] ==> LifeOf(t.history, m) == LifeOf(s.history, m)
  {
    hide CanRun, Run, Times, Timely, InOrder, LifeOf, Handling, Exclusive, Controlled, Distinct;
    var s := Run(CREATED, actions);
    CreatedInv();
    RunKeeps(CREATED, actions);
    SevenSteps(s);
    assert Placed(s, s.queue[0]) && s.queue[0] in s.queue;
    forall m ensures m != s.queue[0] ==> LifeOf(Served(s).history, m) == LifeOf(s.history, m) {
      HandledLife(s.history, s.queue[0], m);
    }
    HandledLife(s.history, s.queue[0], s.queue[0]);
  }

  /** What handling a queue of messages leaves in the history, one after the other. */
  function HandlingAll(queue: seq<Msg>): History {
    if queue == [] then [] else Handling(queue[0]) + HandlingAll(queue[1..])
  }

  /** A queue of messages is answered in its order, in seven steps of the thread for each. */
  lemma {:induction false} QueueIsHandled(s: Service)
    requires AtRest(s)
    ensures CanRun(s, Times(RunThread, 7 * |s.queue|))
    ensures Run(s, Times(RunThread, 7 * |s.queue|)) == s.(queue := [], history := s.history + HandlingAll(s.queue))
    decreases |s.queue|
  {
    hide CanRun, Run, Times, Handling, Step, Enabled;
    if s.queue == [] {
      TimesNone();
      NoStep(s);
      assert s.history + [] == s.history;
    } else {
      SevenSteps(s);
      var t := Served(s);
      QueueIsHandled(t);
      RunsOn(s, Times(RunThread, 7), Times(RunThread, 7 * |t.queue|));
      TimesAdd(RunThread, 7, 7 * |t.queue|);
      Associative(s.history, Handling(s.queue[0]), HandlingAll(t.queue));
    }
  }

  /** While an update holds the semaphore, a message that was taken out waits, for as long as it takes. */
  lemma {:induction false} MessageWaits(s: Service, m: Msg, n: nat)
    requires s.running && s.thread == ToTakeSemaphore(m) && s.semaphore == 0
    ensures CanRun(s, Times(RunThread, 2 * n)) && Run(s, Times(RunThread, 2 * n)) == s
  {
    hide CanRun, Run, Times;
    if n == 0 {
      TimesNone();
      NoStep(s);
    } else {
      MessageWaits(s, m, n - 1);
      var s1 := Step(s, RunThread);
      assert Step(s1, RunThread) == s;
      OneMoreStep(s1, RunThread, 2 * n - 2);
      OneMoreStep(s, RunThread, 2 * n - 1);
    }
  }

  /** Then, once the update gives it, four steps of the thread answer and destroy the message. */
  lemma {:induction false} WaitingMessageIsHandled(s: Service, m: Msg)
    requires Inv(s) && s.running && s.thread == ToTakeSemaphore(m) && s.updateHolds
    ensures Enabled(s, UpdateGives)
    ensures var given := Step(s, UpdateGives);
            && CanRun(given, Times(RunThread, 4))
            && var t := Run(given, Times(RunThread, 4));
               AtRest(t) && t.queue == s.queue && LifeOf(t.history, m) == Over(true, true)
  {
    hide CanRun, Run, Times, LifeOf, Distinct;
    assert Placed(s, m);
    var s0 := Step(s, UpdateGives);
    var s1 := Step(s0, RunThread);
    var s2 := Step(s1, RunThread);
    var s3 := Step(s2, RunThread);
    var s4 := Step(s3, RunThread);
    assert s4.history == s.history + [Responded(m)] + [Destroyed(m, true)];
    OneMore(s.history, Responded(m), m);
    OneMore(s.history + [Responded(m)], Destroyed(m, true), m);
    TimesNone();
    NoStep(s4);
    OneMoreStep(s3, RunThread, 0);
    OneMoreStep(s2, RunThread, 1);
    OneMoreStep(s1, RunThread, 2);
    OneMoreStep(s0, RunThread, 3);
  }

  // ---------------------------------------------------------------------------------------------
  // Arrivals
  // ---------------------------------------------------------------------------------------------

  /** A message is queued if it could be read, the service runs, and fewer than ten are waiting. */
  predicate WillBeQueued(s: Service, parsed: bool) { parsed && s.running && |s.queue| < 10 }

  /** How long the handler of an arriving message takes, by itself. */
  function HandlerSteps(s: Service, parsed: bool): nat {
    if WillBeQueued(s, parsed) then 1 else if parsed && s.running then 3 else 2
  }

  /**
   An arriving message is queued behind the others, or refused: then it is answered if it has an
   identifier, destroyed, and the queue is left alone.
   */
  lemma {:induction false} ArrivalIsDecided(s: Service, m: Msg, parsed: bool)
    requires Inv(s) && Enabled(s, Receive(m, parsed))
    ensures var n := HandlerSteps(s, parsed);
            var arrived := Step(s, Receive(m, parsed));
            && CanRun(arrived, Times(RunHandler, n))
            && var t := Run(arrived, Times(RunHandler, n));
               && t.handler.NoEvent? && m in t.seen
               && t.thread == s.thread && t.running == s.running && t.semaphore == s.semaphore
               && t.queue == (if WillBeQueued(s, parsed) then s.queue + [m] else s.queue)
               && LifeOf(t.history, m) == if WillBeQueued(s, parsed) then Waiting else Over(false, m.id != 0)
  {
    hide CanRun, Run, Times, LifeOf, Distinct, Exclusive, Controlled;
    assert Placed(s, m);
    var s0 := Step(s, Receive(m, parsed));
    var s1 := Step(s0, RunHandler);
    assert Times(RunHandler, 0) == [] by { hide *; NoTimes(RunHandler); }
    if WillBeQueued(s, parsed) {
      OneMore(s.history, Queued(m), m);
      NoStep(s1);
      OneMoreStep(s0, RunHandler, 0);
    } else if parsed && s.running {
      var s2 := RefusalIsCarriedOut(s1, m);
      OneMoreStep(s0, RunHandler, 2);
    } else {
      var s2 := RefusalIsCarriedOut(s0, m);
    }
  }

  lemma {:induction false} NoTimes(a: Action)
    ensures Times(a, 0) == []
  {
  }

  lemma {:induction false} RefusalIsCarriedOut(s: Service, m: Msg) returns (t: Service)
    requires s.handler == ToRefuse(m) && LifeOf(s.history, m) == Fresh
    ensures CanRun(s, Times(RunHandler, 2)) && t == Run(s, Times(RunHandler, 2))
    ensures t == s.(handler := NoEvent, history := t.history) && LifeOf(t.history, m) == Over(false, m.id != 0)
  {
    hide CanRun, Run, Times, LifeOf;
    var s1 := Step(s, RunHandler);
    t := Step(s1, RunHandler);
    if m.id != 0 { OneMore(s.history, Responded(m), m); }
    OneMore(s1.history, Destroyed(m, s.running), m);
    NoTimes(RunHandler);
    NoStep(t);
    OneMoreStep(s1, RunHandler, 0);
    OneMoreStep(s, RunHandler, 1);
  }

  // ---------------------------------------------------------------------------------------------
  // Start and stop
  // ---------------------------------------------------------------------------------------------

  /** After a start, from any closed state, the thread is about to look at an empty queue. */
  lemma {:induction false} StartBegins(actions: seq<Action>)
    requires CanRun(CREATED, actions) && Closed(Run(CREATED, actions))
    ensures var s := Run(CREATED, actions);
            && Enabled(s, Start)
            && Step(s, Start) == s.(running := true, thread := ToTestRunning, queue := [])
            && (!s.updateHolds ==> AtRest(Step(s, Start)))
  {
    hide CanRun, Run, Timely, InOrder, AllPlaced, Distinct;
    CreatedInv();
    RunKeeps(CREATED, actions);
  }

  /** A start while the service runs, and a stop while it does not, change nothing. */
  lemma {:induction false} RepeatedCallsDoNothing(s: Service)
    requires s.stopper.NotStopping?
    ensures s.running ==> Step(s, Start) == s
    ensures !s.running ==> Step(s, Stop) == s
  {
  }

  /** Steps the thread takes to its end once the run bit is cleared. */
  function StepsToExit(s: Service): nat {
    match s.thread
    case NoThread => 0
    case ToTestRunning => 1
    case ToGet => if s.queue == [] then 2 else 3
    case ToTestWaiting(_) => 2
    case ToTakeSemaphore(_) => if s.semaphore > 0 then 5 else 3
    case ToHandle(_) => 4
    case ToDestroy(_) => 3
    case ToGive => 2
    case ToDiscard(_) => 1
  }

  lemma {:induction false} ThreadExits(s: Service)
    requires !s.running
    ensures StepsToExit(s) <= 5
    ensures CanRun(s, Times(RunThread, StepsToExit(s)))
    ensures var t := Run(s, Times(RunThread, StepsToExit(s)));
            && t.thread.NoThread? && !t.running && t.stopper == s.stopper && t.handler == s.handler && t.seen == s.seen
            && |t.queue| <= |s.queue|
    decreases StepsToExit(s)
  {
    hide CanRun, Run, Times;
    if s.thread.NoThread? {
      NoTimes(RunThread);
      NoStep(s);
    } else {
      var next := Step(s, RunThread);
      assert StepsToExit(next) == StepsToExit(s) - 1;
      ThreadExits(next);
      OneMoreStep(s, RunThread, StepsToExit(next));
    }
  }

  /** With the thread gone, the rest of the stop discards what is left. */
  lemma {:induction false} StopperDrains(s: Service)
    requires s.stopper.ToDrain? && !s.running
    ensures CanRun(s, Times(RunStopper, |s.queue| + 1))
    ensures var t := Run(s, Times(RunStopper, |s.queue| + 1)); Closed(t) && t.queue == [] && t.handler == s.handler
    decreases |s.queue|
  {
    hide CanRun, Run, Times;
    var next := Step(s, RunStopper);
    if s.queue == [] {
      NoTimes(RunStopper);
      NoStep(next);
      OneMoreStep(s, RunStopper, 0);
    } else {
      StopperDrains(next);
      OneMoreStep(s, RunStopper, |next.queue| + 1);
    }
  }

  /**
   Every stop comes to an end by itself: from any reachable state of a running service, after the call at
   most five steps of the thread and two more than messages are waiting of the stop close the service,
   with an empty queue.
   */
  lemma {:induction false} StopCompletes(actions: seq<Action>) returns (n: nat, k: nat)
    requires CanRun(CREATED, actions) && Run(CREATED, actions).running
    ensures var s := Run(CREATED, actions);
            && n <= 5 && k <= |s.queue| + 2 && Enabled(s, Stop)
            && var stopping := Step(s, Stop);
               && CanRun(stopping, Times(RunThread, n) + Times(RunStopper, k))
               && var t := Run(stopping, Times(RunThread, n) + Times(RunStopper, k));
                  Closed(t) && t.queue == []
  {
    hide CanRun, Run, Times, Timely, InOrder, AllPlaced, Distinct;
    CreatedInv();
    RunKeeps(CREATED, actions);
    var s0 := Step(Run(CREATED, actions), Stop);
    n := StepsToExit(s0);
    ThreadExits(s0);
    var s1 := Run(s0, Times(RunThread, n));
    var s2 := Step(s1, RunStopper);
    StopperDrains(s2);
    k := |s2.queue| + 2;
    OneMoreStep(s1, RunStopper, |s2.queue| + 1);
    RunsOn(s0, Times(RunThread, n), Times(RunStopper, k));
  }

  /** A stop lets the message being handled finish, and discards the one that is still waiting. */
  lemma {:induction false} StopAnswersWhatIsHandled(s: Service, m: Msg)
    requires Inv(s) && !s.running && s.thread in {ToHandle(m), ToTestWaiting(m)}
    ensures CanRun(s, Times(RunThread, StepsToExit(s)))
    ensures LifeOf(Run(s, Times(RunThread, StepsToExit(s))).history, m) == Over(true, s.thread == ToHandle(m))
  {
    hide CanRun, Run, Times, LifeOf, Exclusive, Controlled, Distinct;
    assert Placed(s, m);
    NoTimes(RunThread);
    var s1 := Step(s, RunThread);
    var s2 := Step(s1, RunThread);
    if s.thread == ToHandle(m) {
      var s3 := Step(s2, RunThread);
      var s4 := Step(s3, RunThread);
      OneMore(s.history, Responded(m), m);
      OneMore(s1.history, Destroyed(m, false), m);
      NoStep(s4);
      OneMoreStep(s3, RunThread, 0);
      OneMoreStep(s2, RunThread, 1);
      OneMoreStep(s1, RunThread, 2);
      OneMoreStep(s, RunThread, 3);
    } else {
      OneMore(s.history, Destroyed(m, false), m);
      NoStep(s2);
      OneMoreStep(s1, RunThread, 0);
      OneMoreStep(s, RunThread, 1);
    }
  }
}
