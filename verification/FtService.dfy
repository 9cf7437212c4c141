/**
 The file transfer service: the message queue, the event handler that fills it, the thread that
 empties it under the semaphore shared with updates, and start and stop, as a state machine.
 */
module FtService {
  import opened CLib

  const QUEUE_SIZE := 10

  /** A request message; no two are the same. An all-zero identifier gets no answer when refused. */
  datatype Msg = Msg(serial: nat, id: nat)

  datatype Record =
    | Queued(m: Msg)
    | Taken(m: Msg)
    | Responded(m: Msg)
    | Destroyed(m: Msg, running: bool)

  type History = seq<Record>

  /** Where `thread_entry_point` is. */
  datatype Thread =
    | NoThread | ToTestRunning | ToGet
    | ToTestWaiting(m: Msg) | ToTakeSemaphore(m: Msg) | ToHandle(m: Msg) | ToDestroy(m: Msg) | ToGive
    | ToDiscard(m: Msg)

  /** Where `edgehog_ft_stop` is. */
  datatype Stopper = NotStopping | ToJoin | ToDrain

  /** Where `edgehog_ft_process_event` is with its message: about to queue, answer or destroy it. */
  datatype Handler = NoEvent | ToPut(m: Msg) | ToRefuse(m: Msg) | ToForget(m: Msg)

  datatype Service = Service(
    running: bool, thread: Thread, stopper: Stopper, handler: Handler, queue: seq<Msg>,
    semaphore: nat, updateHolds: bool, seen: set<Msg>, history: History)

  datatype Action =
    | Start | Stop | RunStopper
    | Receive(m: Msg, parsed: bool) | RunHandler
    | RunThread
    | UpdateTakes | UpdateGives

  /**
   Start and stop are not called while another stop is under way; a handler deals with one message at
   a time, and no message arrives twice.
   */
  predicate Enabled(s: Service, a: Action) {
    match a
    case Start => s.stopper.NotStopping?
    case Stop => s.stopper.NotStopping?
    case RunStopper => s.stopper.ToDrain? || (s.stopper.ToJoin? && s.thread.NoThread?)
    case Receive(m, _) => s.handler.NoEvent? && m !in s.seen
    case RunHandler => !s.handler.NoEvent?
    case RunThread => !s.thread.NoThread?
    case UpdateTakes => s.semaphore > 0 && !s.updateHolds
    case UpdateGives => s.updateHolds
  }

  function Step(s: Service, a: Action): Service
    requires Enabled(s, a)
  {
    match a
    case Start => StartStep(s)
    case Stop => if s.running then s.(running := false, stopper := ToJoin) else s
    case RunStopper => StopperStep(s)
    case Receive(m, parsed) =>
      s.(seen := s.seen + {m}, handler := if parsed && s.running then ToPut(m) else ToRefuse(m))
    case RunHandler => HandlerStep(s)
    case RunThread => ThreadStep(s)
    case UpdateTakes => s.(semaphore := s.semaphore - 1, updateHolds := true)
    case UpdateGives => s.(semaphore := Given(s.semaphore), updateHolds := false)
  }

  function Noted(s: Service, r: Record): Service { s.(history := s.history + [r]) }

  /** `k_sem_give` on a semaphore with limit one. */
  function Given(count: nat): nat { if count < 1 then count + 1 else count }

  /** `edgehog_ft_start`: refused while running; the queue is set up afresh. */
  function StartStep(s: Service): Service {
    if s.running then s else s.(running := true, queue := [], thread := ToTestRunning)
  }

  /** `edgehog_ft_stop` after the run bit is cleared: join, then destroy what is left in the queue. */
  function StopperStep(s: Service): Service
    requires !s.stopper.NotStopping?
  {
    if s.stopper.ToJoin? then s.(stopper := ToDrain)
    else if s.queue == [] then s.(stopper := NotStopping)
    else
      var m := s.queue[0];
      Noted(Noted(s.(queue := s.queue[1..]), Taken(m)), Destroyed(m, s.running))
  }

  /** `edgehog_ft_process_event` once the message is parsed and the run bit tested. */
  function HandlerStep(s: Service): Service
    requires !s.handler.NoEvent?
  {
    match s.handler
    case ToPut(m) =>
      if |s.queue| < QUEUE_SIZE then Noted(s.(queue := s.queue + [m], handler := NoEvent), Queued(m))
      else s.(handler := ToRefuse(m))
    case ToRefuse(m) =>
      var s := s.(handler := ToForget(m));
      if m.id != 0 then Noted(s, Responded(m)) else s
    case ToForget(m) => Noted(s.(handler := NoEvent), Destroyed(m, s.running))
  }

  /** `thread_entry_point`. Waiting for a message and for the semaphore both time out. */
  function ThreadStep(s: Service): Service
    requires !s.thread.NoThread?
  {
    match s.thread
    case ToTestRunning => s.(thread := if s.running then ToGet else NoThread)
    case ToGet =>
      if s.queue == [] then s.(thread := ToTestRunning)
      else Noted(s.(queue := s.queue[1..], thread := ToTestWaiting(s.queue[0])), Taken(s.queue[0]))
    case ToTestWaiting(m) => s.(thread := if s.running then ToTakeSemaphore(m) else ToDiscard(m))
    case ToTakeSemaphore(m) =>
      if s.semaphore > 0 then s.(semaphore := s.semaphore - 1, thread := ToHandle(m))
      else s.(thread := ToTestWaiting(m))
    case ToHandle(m) => Noted(s.(thread := ToDestroy(m)), Responded(m))
    case ToDestroy(m) => Noted(s.(thread := ToGive), Destroyed(m, s.running))
    case ToGive => s.(semaphore := Given(s.semaphore), thread := ToTestRunning)
    case ToDiscard(m) => Noted(s.(thread := NoThread), Destroyed(m, s.running))
  }

  // ---------------------------------------------------------------------------------------------
  // Runs
  // ---------------------------------------------------------------------------------------------

  const CREATED := Service(false, NoThread, NotStopping, NoEvent, [], 1, false, {}, [])

  predicate CanRun(s: Service, actions: seq<Action>)
    decreases |actions|
  {
    actions == [] || (Enabled(s, actions[0]) && CanRun(Step(s, actions[0]), actions[1..]))
  }

  function Run(s: Service, actions: seq<Action>): Service
    requires CanRun(s, actions)
    decreases |actions|
  {
    if actions == [] then s else Run(Step(s, actions[0]), actions[1..])
  }

  /** The service is fully stopped: nobody will take anything from the queue. */
  predicate Closed(s: Service) {
    !s.running && s.stopper.NotStopping?
  }

  /** A message is queued after the queue has been closed: the handler tested the run bit too early. */
  predicate LatePut(s: Service, a: Action) {
    a.RunHandler? && s.handler.ToPut? && |s.queue| < QUEUE_SIZE && Closed(s)
  }

  /** No put comes after the stop that closed the queue. */
  predicate Timely(s: Service, actions: seq<Action>)
    requires CanRun(s, actions)
    decreases |actions|
  {
    actions == [] || (!LatePut(s, actions[0]) && Timely(Step(s, actions[0]), actions[1..]))
  }
}
