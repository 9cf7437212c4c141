/**
 The update code as it runs: `edgehog_ota_init`, the event handlers and the worker thread, changing
 the thread record and the persisted settings step by step. What it does is a run of the protocol.
 */
module OtaDevice {
  import opened CLib
  import opened Ota
  import opened OtaSafety
  import opened OtaTheorems

  // ---------------------------------------------------------------------------------------------
  // Runs, one action at a time
  // ---------------------------------------------------------------------------------------------

  /** The protocol can go from one state to the other without a restart of the device. */
  ghost predicate Leads(s: System, t: System) {
    exists actions :: CanRun(s, actions) && Run(s, actions) == t
  }

  lemma {:induction false} LeadsToItself(s: System)
    ensures Leads(s, s)
  {
    assert CanRun(s, []) && Run(s, []) == s;
  }

  lemma {:induction false} RunOneMore(s: System, actions: seq<Action>, a: Action)
    requires CanRun(s, actions) && Enabled(Run(s, actions), a)
    ensures CanRun(s, actions + [a]) && Run(s, actions + [a]) == Step(Run(s, actions), a)
    decreases |actions|
  {
    hide Step, Enabled;
    if actions == [] {
      assert [] + [a] == [a] && [a][1..] == [];
      RunNothing(Step(s, a));
    } else {
      assert (actions + [a])[1..] == actions[1..] + [a];
      RunOneMore(Step(s, actions[0]), actions[1..], a);
    }
  }

  lemma {:induction false} RunNothing(s: System)
    ensures CanRun(s, []) && Run(s, []) == s
  {
  }

  lemma {:induction false} LeadsFurther(s: System, t: System, a: Action)
    requires Leads(s, t) && Enabled(t, a)
    ensures Leads(s, Step(t, a))
  {
    hide Step, Enabled;
    var actions :| CanRun(s, actions) && Run(s, actions) == t;
    RunOneMore(s, actions, a);
  }

  // ---------------------------------------------------------------------------------------------
  // The outside world
  // ---------------------------------------------------------------------------------------------

  /** One payload of a download: how much its write adds to the flash, or that it fails. */
  datatype Portion = Portion(flashed: Option<nat>, size: nat)

  /** An HTTP exchange: what is received, and how it ends. */
  datatype Exchange = Exchange(payloads: seq<Portion>, ok: bool)

  /** Answers of everything the worker calls, and what other threads do, by the time of asking. */
  datatype Outside = Outside(succeeds: nat -> bool, exchange: nat -> Exchange, cancels: nat -> bool)

  predicate SizedPayloads(payloads: seq<Portion>) {
    forall i :: 0 <= i < |payloads| ==> payloads[i].size > 0
  }

  ghost predicate Sized(outside: Outside) {
    forall t: nat :: SizedPayloads(outside.exchange(t).payloads)
  }

  /** The bytes that payloads add to the flash. */
  function Flashed(portions: seq<Portion>): nat {
    if portions == [] then 0
    else (if portions[0].flashed.Some? then portions[0].flashed.value else 0) + Flashed(portions[1..])
  }

  lemma {:induction false} FlashedOneMore(portions: seq<Portion>, i: nat)
    requires i < |portions| && portions[i].flashed.Some?
    ensures Flashed(portions[..i + 1]) == Flashed(portions[..i]) + portions[i].flashed.value
  {
    if i == 0 {
      assert portions[..1][1..] == [];
    } else {
      FlashedOneMore(portions[1..], i - 1);
      assert portions[..i + 1][1..] == portions[1..][..i] && portions[..i][1..] == portions[1..][..i - 1];
    }
  }

  /** The exchange succeeds and every payload is written. */
  predicate Complete(e: Exchange) {
    e.ok && forall i :: 0 <= i < |e.payloads| ==> e.payloads[i].flashed.Some?
  }

  /** The whole image comes in one exchange. */
  predicate Delivers(e: Exchange) {
    Complete(e) && e.payloads != [] && Flashed(e.payloads) == e.payloads[|e.payloads| - 1].size
  }

  ghost predicate NeverCancels(outside: Outside) { forall t: nat :: !outside.cancels(t) }

  /** Everything succeeds, and nobody cancels. */
  ghost predicate Favourable(outside: Outside) {
    && NeverCancels(outside)
    && (forall t: nat :: outside.succeeds(t)) && (forall t: nat :: Delivers(outside.exchange(t)))
  }

  datatype Result = Done | Canceled | OtherError

  function Plainly(ok: bool): Action { RunWorker(Outcome(ok, None)) }

  // ---------------------------------------------------------------------------------------------
  // The worker's plain steps
  // ---------------------------------------------------------------------------------------------

  /** Points at which something outside succeeds or fails, and nothing else changes. */
  function Onward(w: Worker, ok: bool): Option<Worker> {
    match w
    case ToInitSettings => Some(if ok then ToSaveInProgress else ToReportFailure(false))
    case ToPrepareFlash => Some(if ok then ToSaveRequest else ToReportFailure(true))
    case ToReadHeader => Some(if ok then ToRequestUpgrade else ToReportFailure(false))
    case _ => None
  }

  /** Points at which a state is saved. */
  function Saving(w: Worker): Option<(OtaState, Worker)> {
    match w
    case ToSaveInProgress => Some((InProgress, ToPrepareFlash))
    case ToSaveIdleFirst => Some((Idle, ToClearRunBit))
    case ToSaveIdle => Some((Idle, ToGiveSemaphore))
    case _ => None
  }

  lemma {:induction false} PlainSteps(s: System, ok: bool)
    requires s.recovery.Ready? && !s.worker.NoWorker? && !s.worker.ToReboot? && !s.worker.ToTakeSemaphore?
    ensures Enabled(s, Plainly(ok))
    ensures Onward(s.worker, ok).Some? ==> Step(s, Plainly(ok)) == s.(worker := Onward(s.worker, ok).value)
    ensures Saving(s.worker).Some? ==>
              Step(s, Plainly(ok)) == WithState(s.(worker := Saving(s.worker).value.1), Saving(s.worker).value.0)
    ensures Announcement(s.worker).Some? ==>
              Step(s, Plainly(ok)) == Announced(s, Announcement(s.worker).value.0, Announcement(s.worker).value.1)
  {
    hide RecoveryStep, UpdateStep, CancelStep, Payload, AttemptOver, WithoutRequest, Noted, WithState, Announced;
  }

  /** The worker's other steps. */
  function Special(s: System, ok: bool): System {
    match s.worker
    case ToTakeSemaphore => if s.semaphore > 0 then s.(semaphore := s.semaphore - 1, worker := ToAcknowledge) else s
    case ToSaveRequest =>
      if !ok then s.(worker := ToReportFailure(true))
      else
        Noted(s.(settings := s.settings.(request := Some(s.data.request)), worker := ToAnnounceAttempt(0)),
              RequestSaved(s.data.request))
    case ToSaveReboot => Noted(WithState(s.(worker := ToReadHeader), Reboot), RebootSaved(s.data.request, s.mcuboot))
    case ToRequestUpgrade =>
      if ok then
        Noted(s.(mcuboot := s.mcuboot.(pending := true), worker := ToAnnounceDeployed), UpgradeRequested(s.data.request))
      else s.(worker := ToReportFailure(false))
    case ToClearRunBit => s.(data := s.data.(running := false), worker := ToDeleteRequest)
    case ToDeleteRequest => WithoutRequest(s.(worker := ToSaveIdle))
    case ToGiveSemaphore => s.(semaphore := Given(s.semaphore), worker := NoWorker)
    case _ => s
  }

  predicate IsSpecial(w: Worker) {
    || w in {ToTakeSemaphore, ToSaveRequest, ToSaveReboot, ToRequestUpgrade}
    || w in {ToClearRunBit, ToDeleteRequest, ToGiveSemaphore}
  }

  lemma {:induction false} SpecialSteps(s: System, ok: bool)
    requires s.recovery.Ready? && IsSpecial(s.worker) && (s.worker.ToTakeSemaphore? ==> s.semaphore > 0)
    ensures Enabled(s, Plainly(ok)) && Step(s, Plainly(ok)) == Special(s, ok)
  {
    hide RecoveryStep, UpdateStep, CancelStep, AttemptOver, WithoutRequest, Noted, WithState, Announced;
  }

  /** Apart from downloads there are no other points. */
  lemma {:induction false} OtherPoints(w: Worker, ok: bool)
    requires !w.NoWorker? && !w.ToReboot? && !w.Attempting? && !IsSpecial(w)
    ensures Onward(w, ok).Some? || Saving(w).Some? || Announcement(w).Some?
  {
  }

  /** The protocol goes on by a special step of the worker. */
  lemma {:induction false} LeadsSpecially(start: System, s: System, ok: bool)
    requires s.recovery.Ready? && IsSpecial(s.worker) && (s.worker.ToTakeSemaphore? ==> s.semaphore > 0)
    requires Leads(start, s)
    ensures Leads(start, Special(s, ok))
  {
    hide Leads, Step, Enabled, Special;
    SpecialSteps(s, ok);
    LeadsFurther(start, s, Plainly(ok));
  }

  // ---------------------------------------------------------------------------------------------
  // The device
  // ---------------------------------------------------------------------------------------------

  class Device {
    const outside: Outside
    var time: nat

    var request: Uuid
    var downloadSize: nat
    var imageSize: nat
    var lastPercent: nat
    var running: bool
    var semaphore: nat
    var settings: Settings
    var mcuboot: Mcuboot
    var history: History

    ghost var recovery: Recovery
    ghost var worker: Worker
    ghost var transferHolds: bool
    ghost var seen: set<Uuid>

    ghost function Value(): System
      reads this
    {
      System(recovery, worker, ThreadData(request, downloadSize, imageSize, lastPercent, running),
             semaphore, transferHolds, settings, mcuboot, seen, history)
    }

    /** The device is up, and the worker is at this point. */
    ghost predicate WorkerAt(w: Worker)
      reads this
    {
      recovery.Ready? && worker == w && Sized(outside)
    }

    /** The worker is at this point of a run that began in `start`. */
    ghost predicate On(start: System, w: Worker)
      reads this
    {
      WorkerAt(w) && Leads(start, Value())
    }

    constructor (outside: Outside, stored: Settings, mcuboot: Mcuboot)
      requires Sized(outside)
      ensures recovery == ToLoad && worker == NoWorker && settings == stored && history == []
      ensures this.outside == outside && this.mcuboot == mcuboot
    {
      this.outside, this.mcuboot := outside, mcuboot;
      settings, time, semaphore, history := stored, 0, 1, [];
      request, downloadSize, imageSize, lastPercent, running := "", 0, 0, 0, false;
      recovery, worker, transferHolds, seen := ToLoad, NoWorker, false, {};
    }

    method PubOtaEvent(event: Event)
      modifies this`history
      ensures history == old(history) + [Published(request, event)]
    {
      history := history + [Published(request, event)];
    }

    /** `edgehog_settings_delete` of the request. */
    method DeleteRequest()
      modifies this`settings, this`history
      ensures settings == old(settings).(request := None)
      ensures history == if old(settings).request.None? then old(history)
                         else old(history) + [RequestDeleted(old(settings).request.value)]
    {
      if settings.request.Some? {
        history := history + [RequestDeleted(settings.request.value)];
      }
      settings := settings.(request := None);
    }

    /** The checks of `edgehog_ota_init`, and what it publishes for the stored request. */
    method JudgeUpdate(u: Uuid, swapNone: bool, confirmOk: bool)
      modifies this`history, this`mcuboot
      ensures var v := Verdict(old(Value()), swapNone, confirmOk);
              && history == old(history) + [Published(u, v)]
              && mcuboot == if v == Success then old(mcuboot).(confirmed := true) else old(mcuboot)
    {
      if settings.state != Reboot {
        history := history + [Published(u, Failure)];
        return;
      }
      if !swapNone {
        history := history + [Published(u, Failure)];
        return;
      }
      if mcuboot.confirmed {
        history := history + [Published(u, Failure)];
        return;
      }
      if !confirmOk {
        history := history + [Published(u, Failure)];
        return;
      }
      mcuboot := mcuboot.(confirmed := true);
      history := history + [Published(u, Success)];
    }

    /** `edgehog_ota_init`, run to its end: exactly what the recovery steps of the protocol do. */
    method EdgehogOtaInit(swapNone: bool, confirmOk: bool)
      requires recovery == ToLoad
      modifies this
      ensures Value() == Recovered(old(Value()), swapNone, confirmOk)
    {
      hide Recovered, Verdict, InOneGo;
      RecoveryInOneGo(Value(), swapNone, confirmOk);
      InOneGoInParts(Value(), swapNone, confirmOk);
      if settings.request.Some? {
        JudgeUpdate(settings.request.value, swapNone, confirmOk);
      }
      FinishInit();
    }

    /** The end of `edgehog_ota_init`, with the thread record zeroed. */
    method FinishInit()
      modifies this`request, this`downloadSize, this`imageSize, this`lastPercent, this`running
      modifies this`settings, this`history, this`recovery
      ensures ThreadData(request, downloadSize, imageSize, lastPercent, running) == NO_DATA
      ensures settings == Settings(None, Idle) && recovery == Ready
      ensures history == if old(settings).request.None? then old(history)
                         else old(history) + [RequestDeleted(old(settings).request.value)]
    {
      request, downloadSize, imageSize, lastPercent, running := "", 0, 0, 0, false;
      DeleteRequest();
      settings := settings.(state := Idle);
      recovery := Ready;
    }

    /** `edgehog_ota_event_update`. */
    method EventUpdate(u: Uuid, created: bool)
      requires Enabled(Value(), Update(u, created))
      modifies this
      ensures Value() == Step(old(Value()), Update(u, created))
    {
      hide Step, Enabled;
      UpdateInParts(Value(), u, created);
      seen := seen + {u};
      if running {
        history := history + [Refused(u)];
        return;
      }
      request, downloadSize, imageSize, lastPercent, running := u, 0, 0, 0, true;
      if !created {
        history := history + [Refused(u)];
        return;
      }
      worker := ToTakeSemaphore;
    }

    /** `edgehog_ota_event_cancel`. */
    method EventCancel(u: Uuid, settingsOk: bool)
      requires Enabled(Value(), Cancel(u, settingsOk))
      modifies this`seen, this`history, this`running
      ensures Value() == Step(old(Value()), Cancel(u, settingsOk))
    {
      hide WorkerStep, RecoveryStep, UpdateStep;
      if !running || !settingsOk || settings.request.None? {
        seen := seen + {u};
        history := history + [Refused(u)];
        return;
      }
      running := false;
    }

    // -------------------------------------------------------------------------------------------
    // The worker
    // -------------------------------------------------------------------------------------------

    /** Ask the outside whether a call succeeds. */
    method Ask() returns (ok: bool)
      modifies this`time
      ensures ok == outside.succeeds(old(time)) && time == old(time) + 1
    {
      ok := outside.succeeds(time);
      time := time + 1;
    }

    /** Other threads may cancel the update at any time. */
    method OtherThreads(ghost start: System, ghost w: Worker)
      requires On(start, w)
      modifies this`time, this`running
      ensures On(start, w)
      ensures running == (old(running) && !(outside.cancels(old(time)) && settings.request.Some?))
      ensures NeverCancels(outside) ==> running == old(running)
    {
      hide Leads, WorkerStep, RecoveryStep, UpdateStep;
      if outside.cancels(time) && running && settings.request.Some? {
        LeadsFurther(start, Value(), Cancel("", true));
        running := false;
      }
      time := time + 1;
    }

    /** `http_download_payload_cbk`. */
    method HttpDownloadPayloadCbk(ghost start: System, ghost n: nat, p: Portion) returns (ok: bool)
      requires On(start, Attempting(n)) && p.size > 0
      modifies this`downloadSize, this`imageSize, this`lastPercent, this`history
      ensures On(start, Attempting(n))
      ensures ok <==> running && p.flashed.Some?
      ensures ok ==> imageSize == p.size && downloadSize == old(downloadSize) + p.flashed.value
      ensures old(history) <= history && Errors(history, request) == Errors(old(history), request)
    {
      hide Errors, Leads, RoundedPercent, RecoveryStep, UpdateStep, CancelStep, AttemptOver, Announced, WithoutRequest;
      ghost var written := if p.flashed.Some? then Some(downloadSize + p.flashed.value) else None;
      LeadsFurther(start, Value(), RunWorker(Outcome(true, Some(Chunk(written, p.size)))));
      if !running { return false; }
      if p.flashed.None? { return false; }
      imageSize := p.size;
      downloadSize := downloadSize + p.flashed.value;
      var rounded := RoundedPercent(downloadSize, p.size);
      if rounded != lastPercent {
        ErrorsOneMore(history, Published(request, Downloading(rounded)), request);
        PubOtaEvent(Downloading(rounded));
        lastPercent := rounded % 256;
      }
      ok := true;
    }

    /**
     `edgehog_http_get`: payloads until one is refused or the response ends. As long as the run bit stays
     set, it succeeds exactly when the exchange does and every payload is written.
     */
    method HttpGet(ghost start: System, ghost n: nat) returns (ok: bool)
      requires On(start, Attempting(n)) && Sized(outside)
      modifies this`time, this`running, this`downloadSize, this`imageSize, this`lastPercent, this`history
      ensures On(start, Attempting(n))
      ensures old(history) <= history && Errors(history, request) == Errors(old(history), request)
      ensures running ==> old(running)
      ensures NeverCancels(outside) ==> running == old(running)
      ensures ok ==> Complete(outside.exchange(old(time)))
      ensures running && Complete(outside.exchange(old(time))) ==> ok
      ensures ok ==> downloadSize == old(downloadSize) + Flashed(outside.exchange(old(time)).payloads)
      ensures ok ==> var ps := outside.exchange(old(time)).payloads; ps != [] ==> imageSize == ps[|ps| - 1].size
    {
      hide On, Errors, Flashed, NeverCancels;
      var exchange := outside.exchange(time);
      assert SizedPayloads(exchange.payloads);
      assert Flashed([]) == 0 by { NothingFlashed(); }
      assert exchange.payloads[..0] == [];
      var i := 0;
      while i < |exchange.payloads|
        invariant On(start, Attempting(n)) && i <= |exchange.payloads|
        invariant old(history) <= history && Errors(history, request) == Errors(old(history), request)
        invariant running ==> old(running)
        invariant NeverCancels(outside) ==> running == old(running)
        invariant forall j :: 0 <= j < i ==> exchange.payloads[j].flashed.Some?
        invariant downloadSize == old(downloadSize) + Flashed(exchange.payloads[..i])
        invariant i > 0 ==> imageSize == exchange.payloads[i - 1].size
      {
        OtherThreads(start, Attempting(n));
        var taken := HttpDownloadPayloadCbk(start, n, exchange.payloads[i]);
        if !taken { return false; }
        FlashedOneMore(exchange.payloads, i);
        i := i + 1;
      }
      assert exchange.payloads[..i] == exchange.payloads;
      OtherThreads(start, Attempting(n));
      ok := exchange.ok;
    }

    /**
     `perform_ota_attempt`. It succeeds only with the run bit still set and all bytes of a non-empty
     image in flash, and says so in the history.
     */
    method PerformOtaAttempt(ghost start: System, ghost n: nat) returns (r: Result)
      requires On(start, Attempting(n)) && Sized(outside)
      modifies this`time, this`running, this`downloadSize, this`imageSize, this`lastPercent, this`history, this`worker
      ensures r == Canceled <==> !running
      ensures r == Done ==> downloadSize == imageSize > 0
      ensures On(start, match r case Done => ToAnnounceDeploying case Canceled => ToReportFailure(true)
                                case OtherError => ToReportError(n))
      ensures old(history) <= history && Errors(history, request) == Errors(old(history), request)
      ensures running ==> old(running)
      ensures NeverCancels(outside) ==> running == old(running)
      ensures running ==> (r == Done <==> Complete(outside.exchange(old(time))) && downloadSize == imageSize > 0)
      ensures running && Complete(outside.exchange(old(time))) ==>
                var ps := outside.exchange(old(time)).payloads;
                downloadSize == old(downloadSize) + Flashed(ps) && (ps != [] ==> imageSize == ps[|ps| - 1].size)
    {
      hide Flashed, NeverCancels, Complete, Errors, Leads, RecoveryStep, UpdateStep, CancelStep, Announced, WithoutRequest;
      var httpOk := HttpGet(start, n);
      LeadsFurther(start, Value(), Plainly(httpOk));
      ErrorsOneMore(history, AttemptEnded(request, downloadSize, imageSize, running, httpOk), request);
      history := history + [AttemptEnded(request, downloadSize, imageSize, running, httpOk)];
      if !running {
        worker := ToReportFailure(true);
        return Canceled;
      }
      if !httpOk {
        worker := ToReportError(n);
        return OtherError;
      }
      if downloadSize <= 0 || downloadSize != imageSize {
        worker := ToReportError(n);
        return OtherError;
      }
      worker := ToAnnounceDeploying;
      r := Done;
    }

    /** Do something outside and go on accordingly. */
    method Proceed(ghost start: System, ghost w: Worker) returns (ok: bool)
      requires On(start, w) && Onward(w, true).Some?
      modifies this`time, this`worker
      ensures Onward(w, ok).Some? && On(start, Onward(w, ok).value)
      ensures ok == outside.succeeds(old(time)) && time == old(time) + 1
    {
      hide Leads, Step, Enabled;
      ok := Ask();
      PlainSteps(Value(), ok);
      LeadsFurther(start, Value(), Plainly(ok));
      worker := Onward(worker, ok).value;
    }

    /** Publish the event that is due. */
    method Announce(ghost start: System, ghost w: Worker, event: Event)
      requires On(start, w) && Announcement(w).Some? && event == Announcement(w).value.0
      modifies this`history, this`worker
      ensures On(start, Announcement(w).value.1)
      ensures history == old(history) + [Published(request, event)]
    {
      hide Leads, Step, Enabled;
      PlainSteps(Value(), true);
      LeadsFurther(start, Value(), Plainly(true));
      PubOtaEvent(event);
      worker := Announcement(worker).value.1;
    }

    /** `edgehog_settings_save` of the state that is due. */
    method SaveState(ghost start: System, ghost w: Worker, state: OtaState)
      requires On(start, w) && Saving(w).Some? && state == Saving(w).value.0
      modifies this`settings, this`worker
      ensures On(start, Saving(w).value.1)
      ensures settings == old(settings).(state := state)
    {
      hide Leads, Step, Enabled;
      PlainSteps(Value(), true);
      LeadsFurther(start, Value(), Plainly(true));
      settings := settings.(state := state);
      worker := Saving(worker).value.1;
    }

    /** `edgehog_settings_save` of the request. */
    method SaveRequest(ghost start: System) returns (ok: bool)
      requires On(start, ToSaveRequest)
      modifies this`time, this`settings, this`history, this`worker
      ensures On(start, if ok then ToAnnounceAttempt(0) else ToReportFailure(true))
      ensures settings == if ok then old(settings).(request := Some(request)) else old(settings)
      ensures history == if ok then old(history) + [RequestSaved(request)] else old(history)
      ensures ok == outside.succeeds(old(time)) && time == old(time) + 1
    {
      hide Leads;
      ok := Ask();
      LeadsSpecially(start, Value(), ok);
      if !ok {
        worker := ToReportFailure(true);
        return;
      }
      settings := settings.(request := Some(request));
      history := history + [RequestSaved(request)];
      worker := ToAnnounceAttempt(0);
    }

    /** One round of the loop of `perform_ota`. */
    method TryOnce(ghost start: System, n: nat) returns (r: Result)
      requires On(start, ToAnnounceAttempt(n)) && Sized(outside)
      modifies this`time, this`running, this`downloadSize, this`imageSize, this`lastPercent, this`history, this`worker
      ensures On(start, match r case Done => ToAnnounceDeploying case Canceled => ToReportFailure(true)
                                case OtherError => if n + 1 < MAX_OTA_RETRY then ToAnnounceAttempt(n + 1) else ToReportFailure(true))
      ensures old(history) <= history
      ensures Errors(history, request) == Errors(old(history), request) + if r == OtherError then 1 else 0
      ensures NeverCancels(outside) ==> running == old(running)
      ensures NeverCancels(outside) && old(running) ==> r != Canceled
      ensures r == Done ==> Complete(outside.exchange(old(time))) && downloadSize == imageSize > 0
      ensures old(downloadSize) == 0 && Delivers(outside.exchange(old(time))) ==> r != OtherError
    {
      hide On, Errors, NeverCancels;
      ErrorsOneMore(history, Published(request, Downloading(0)), request);
      Announce(start, ToAnnounceAttempt(n), Downloading(0));
      r := PerformOtaAttempt(start, n);
      if r != OtherError { return; }
      OtherThreads(start, ToReportError(n));
      ErrorsOneMore(history, Published(request, Error), request);
      Announce(start, ToReportError(n), Error);
    }

    /**
     `perform_ota`: prepare the flash, store the request, and try five times, unless an attempt is good or
     finds the run bit cleared. Every attempt that is neither has been reported as an Error.
     */
    method PerformOta(ghost start: System) returns (r: Result)
      requires On(start, ToPrepareFlash) && Sized(outside)
      modifies this`time, this`running, this`downloadSize, this`imageSize, this`lastPercent
      modifies this`history, this`worker, this`settings
      ensures On(start, if r == Done then ToAnnounceDeploying else ToReportFailure(true))
      ensures old(history) <= history
      ensures r == OtherError ==>
                Errors(history, request) - Errors(old(history), request)
                == if RequestSaved(request) in history[|old(history)|..] then 5 else 0
      ensures r != OtherError ==> Errors(history, request) - Errors(old(history), request) < 5
      ensures NeverCancels(outside) && old(running) ==> r != Canceled
      ensures r == Done ==> outside.succeeds(old(time)) && outside.succeeds(old(time) + 1)
      ensures r == Done ==> exists t: nat :: Complete(outside.exchange(t))
      ensures Favourable(outside) && old(running) && old(downloadSize) == 0 ==> r == Done
    {
      hide On, Errors, Complete, Delivers, NeverCancels;
      var prepared := Proceed(start, ToPrepareFlash);
      if !prepared { return OtherError; }
      var saved := SaveRequest(start);
      if !saved { return OtherError; }
      r := OtherError;
      ghost var before := history;
      ErrorsOneMore(old(history), RequestSaved(request), request);
      var updateAttempts := 0;
      while updateAttempts < MAX_OTA_RETRY
        invariant updateAttempts <= MAX_OTA_RETRY && r == OtherError
        invariant On(start, if updateAttempts < MAX_OTA_RETRY then ToAnnounceAttempt(updateAttempts) else ToReportFailure(true))
        invariant before <= history
        invariant NeverCancels(outside) ==> running == old(running)
        invariant updateAttempts == 0 ==> downloadSize == old(downloadSize)
        invariant Favourable(outside) && old(running) && old(downloadSize) == 0 ==> updateAttempts == 0
        invariant Errors(history, request) == Errors(before, request) + updateAttempts
      {
        assert Favourable(outside) ==> Delivers(outside.exchange(time));
        ghost var at := time;
        r := TryOnce(start, updateAttempts);
        assert r == Done ==> Complete(outside.exchange(at));
        if r == Done || r == Canceled { break; }
        updateAttempts := updateAttempts + 1;
      }
      assert history[|old(history)|..][0] == RequestSaved(request);
    }

    method ClearRunBit(ghost start: System)
      requires On(start, ToClearRunBit)
      modifies this`running, this`worker
      ensures On(start, ToDeleteRequest) && !running
    {
      hide Leads;
      LeadsSpecially(start, Value(), true);
      running := false;
      worker := ToDeleteRequest;
    }

    method DropRequest(ghost start: System)
      requires On(start, ToDeleteRequest)
      modifies this`settings, this`history, this`worker
      ensures On(start, ToSaveIdle) && settings.request == None
    {
      hide Leads;
      LeadsSpecially(start, Value(), true);
      DeleteRequest();
      worker := ToSaveIdle;
    }

    method TakeSemaphore(ghost start: System)
      requires On(start, ToTakeSemaphore) && semaphore > 0
      modifies this`semaphore, this`worker
      ensures On(start, ToAcknowledge)
    {
      hide Leads;
      LeadsSpecially(start, Value(), true);
      semaphore := semaphore - 1;
      worker := ToAcknowledge;
    }

    method GiveSemaphore(ghost start: System)
      requires On(start, ToGiveSemaphore)
      modifies this`semaphore, this`worker
      ensures On(start, NoWorker)
    {
      hide Leads;
      LeadsSpecially(start, Value(), true);
      semaphore := Given(semaphore);
      worker := NoWorker;
    }

    /** The end of `ota_thread_entry_point`. */
    method SelfDestruct(ghost start: System)
      requires On(start, ToClearRunBit)
      modifies this`running, this`settings, this`history, this`semaphore, this`worker
      ensures On(start, NoWorker) && !running && settings == Settings(None, Idle)
    {
      hide On;
      ClearRunBit(start);
      DropRequest(start);
      SaveState(start, ToSaveIdle, Idle);
      GiveSemaphore(start);
    }

    /** Save state REBOOT. */
    method SaveReboot(ghost start: System)
      requires On(start, ToSaveReboot)
      modifies this`settings, this`history, this`worker
      ensures On(start, ToReadHeader) && settings == old(settings).(state := Reboot)
    {
      hide Leads;
      LeadsSpecially(start, Value(), true);
      settings := settings.(state := Reboot);
      history := history + [RebootSaved(request, mcuboot)];
      worker := ToReadHeader;
    }

    /** `boot_request_upgrade`. */
    method RequestUpgrade(ghost start: System) returns (ok: bool)
      requires On(start, ToRequestUpgrade)
      modifies this`time, this`mcuboot, this`history, this`worker
      ensures On(start, if ok then ToAnnounceDeployed else ToReportFailure(false))
      ensures mcuboot == if ok then old(mcuboot).(pending := true) else old(mcuboot)
      ensures ok == outside.succeeds(old(time))
    {
      hide Leads;
      ok := Ask();
      LeadsSpecially(start, Value(), ok);
      if ok {
        mcuboot := mcuboot.(pending := true);
        history := history + [UpgradeRequested(request)];
      }
      worker := if ok then ToAnnounceDeployed else ToReportFailure(false);
    }

    /** From Deploying to the reboot, or to a failure. */
    method Deploy(ghost start: System) returns (rebooting: bool)
      requires On(start, ToAnnounceDeploying)
      modifies this
      ensures On(start, if rebooting then ToReboot else ToClearRunBit)
      ensures rebooting <==> outside.succeeds(old(time)) && outside.succeeds(old(time) + 1)
    {
      hide On;
      Announce(start, ToAnnounceDeploying, Deploying);
      SaveReboot(start);
      var read := Proceed(start, ToReadHeader);
      if !read {
        Announce(start, ToReportFailure(false), Failure);
        return false;
      }
      var requested := RequestUpgrade(start);
      if !requested {
        Announce(start, ToReportFailure(false), Failure);
        return false;
      }
      Announce(start, ToAnnounceDeployed, Deployed);
      Announce(start, ToAnnounceReboot, Rebooting);
      rebooting := true;
    }

    /** The download, and what becomes of it. */
    method PerformAndFinish(ghost start: System)
      requires On(start, ToPrepareFlash) && Sized(outside)
      modifies this
      ensures On(start, ToReboot) || (On(start, NoWorker) && !running && settings == Settings(None, Idle))
      ensures Favourable(outside) && old(running) && old(downloadSize) == 0 ==> On(start, ToReboot)
      ensures (forall t: nat :: !Complete(outside.exchange(t))) ==> On(start, NoWorker)
    {
      hide On, NeverCancels, Complete, Delivers;
      var r := PerformOta(start);
      if r == Done {
        var rebooting := Deploy(start);
        if rebooting { return; }
      } else {
        Announce(start, ToReportFailure(true), Failure);
        SaveState(start, ToSaveIdleFirst, Idle);
      }
      SelfDestruct(start);
    }

    /**
     `ota_thread_entry_point`: whatever the outside answers and whenever it is cancelled, it is a run
     of the protocol, which ends waiting for the reboot, or with the worker gone and nothing stored. If
     everything succeeds, the image comes in one exchange and nobody cancels, it is the former; if no
     exchange is ever complete, the latter.
     */
    method OtaThreadEntryPoint(ghost start: System)
      requires On(start, ToTakeSemaphore) && semaphore > 0 && Sized(outside)
      modifies this
      ensures On(start, ToReboot) || (On(start, NoWorker) && !running && settings == Settings(None, Idle))
      ensures Favourable(outside) && old(running) && old(downloadSize) == 0 ==> On(start, ToReboot)
      ensures (forall t: nat :: !Complete(outside.exchange(t))) ==> On(start, NoWorker)
    {
      hide On, NeverCancels, Complete, Delivers;
      TakeSemaphore(start);
      Announce(start, ToAcknowledge, Acknowledged);
      var ready := Proceed(start, ToInitSettings);
      if !ready {
        Announce(start, ToReportFailure(false), Failure);
        SelfDestruct(start);
        return;
      }
      SaveState(start, ToSaveInProgress, InProgress);
      PerformAndFinish(start);
    }
  }

  lemma {:induction false} NothingFlashed()
    ensures Flashed([]) == 0
  {
  }

  lemma {:induction false} UpdateInParts(s: System, u: Uuid, created: bool)
    requires Enabled(s, Update(u, created))
    ensures var r := Step(s, Update(u, created));
            && r.recovery == s.recovery && r.semaphore == s.semaphore && r.transferHolds == s.transferHolds
            && r.settings == s.settings && r.mcuboot == s.mcuboot && r.seen == s.seen + {u}
            && r.worker == (if s.data.running || !created then s.worker else ToTakeSemaphore)
            && r.data == (if s.data.running then s.data else ThreadData(u, 0, 0, 0, true))
            && r.history == if s.data.running || !created then s.history + [Refused(u)] else s.history
  {
    hide WorkerStep, RecoveryStep, CancelStep;
  }

  lemma {:induction false} InOneGoInParts(s: System, swapNone: bool, confirmOk: bool)
    ensures var r := InOneGo(s, swapNone, confirmOk);
            && r.recovery == Ready && r.worker == s.worker && r.data == NO_DATA && r.semaphore == s.semaphore
            && r.transferHolds == s.transferHolds && r.settings == Settings(None, Idle) && r.seen == s.seen
            && r.mcuboot == (if s.settings.request.Some? && Verdict(s, swapNone, confirmOk) == Success
                             then s.mcuboot.(confirmed := true) else s.mcuboot)
            && r.history == if s.settings.request.None? then s.history
                            else s.history + [Published(s.settings.request.value, Verdict(s, swapNone, confirmOk))]
                                 + [RequestDeleted(s.settings.request.value)]
  {
    hide Verdict;
  }
}
