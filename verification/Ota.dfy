/**
 The over-the-air update protocol as a state machine: the event handlers, the worker thread, the
 recovery at boot, the persisted settings and the boot loader's flags, with a restart possible
 between any two steps. What it published and stored is kept in a history.
 */
module Ota {
  import opened CLib

  type Uuid = string

  const MAX_OTA_RETRY := 5
  const OTA_PROGRESS_PERC := 100
  const OTA_PROGRESS_PERC_ROUNDING_STEP := 10

  // ---------------------------------------------------------------------------------------------
  // State
  // ---------------------------------------------------------------------------------------------

  datatype Event =
    | Acknowledged | Downloading(percent: nat) | Error | Deploying | Deployed | Rebooting | Success | Failure

  /** What is worth remembering: `Published` is for the worker and the recovery, `Refused` for handlers. */
  datatype Record =
    | Published(u: Uuid, event: Event)
    | Refused(u: Uuid)
    | AttemptEnded(u: Uuid, written: nat, size: nat, running: bool, httpOk: bool)
    | RebootSaved(u: Uuid, boot: Mcuboot)
    | UpgradeRequested(u: Uuid)
    | RequestSaved(u: Uuid)
    | RequestDeleted(u: Uuid)

  type History = seq<Record>

  datatype OtaState = NoState | Idle | InProgress | Reboot
  datatype Settings = Settings(request: Option<Uuid>, state: OtaState)

  /** The boot loader: an upgrade has been requested; the running image is confirmed. */
  datatype Mcuboot = Mcuboot(pending: bool, confirmed: bool)

  /** Where `edgehog_ota_init` is. */
  datatype Recovery =
    | ToLoad | ToCheckSwap(u: Uuid) | ToCheckConfirmed(u: Uuid) | ToConfirm(u: Uuid)
    | ToPublish(u: Uuid, event: Event) | ToDrop | ToReset | Ready

  /** Where the worker is; attempts are counted from zero. */
  datatype Worker =
    | NoWorker | ToTakeSemaphore | ToAcknowledge | ToInitSettings | ToSaveInProgress
    | ToPrepareFlash | ToSaveRequest
    | ToAnnounceAttempt(n: nat) | Attempting(n: nat) | ToReportError(n: nat)
    | ToAnnounceDeploying | ToSaveReboot | ToReadHeader | ToRequestUpgrade
    | ToAnnounceDeployed | ToAnnounceReboot | ToReboot
    | ToReportFailure(performed: bool) | ToSaveIdleFirst
    | ToClearRunBit | ToDeleteRequest | ToSaveIdle | ToGiveSemaphore

  /** The record the handlers and the worker share. */
  datatype ThreadData = ThreadData(request: Uuid, downloadSize: nat, imageSize: nat, lastPercent: nat, running: bool)

  datatype System = System(
    recovery: Recovery, worker: Worker, data: ThreadData, semaphore: nat, transferHolds: bool,
    settings: Settings, mcuboot: Mcuboot, seen: set<Uuid>, history: History)

  // ---------------------------------------------------------------------------------------------
  // Steps
  // ---------------------------------------------------------------------------------------------

  /** What the outside world contributes to a step of the worker. */
  datatype Outcome = Outcome(ok: bool, chunk: Option<Chunk>)

  /** A payload callback: bytes in flash after its write, or a failed write; the response size. */
  datatype Chunk = Chunk(written: Option<nat>, size: nat)

  datatype Action =
    | RunRecovery(swapNone: bool, confirmOk: bool)
    | Update(u: Uuid, created: bool)
    | Cancel(u: Uuid, settingsOk: bool)
    | RunWorker(outcome: Outcome)
    | TransferTakes
    | TransferGives
    | Restart(after: Mcuboot)

  const NO_DATA := ThreadData("", 0, 0, 0, false)

  /**
   What can happen when. Handlers run after the recovery; an update is not accepted while an old
   worker is alive with its run bit cleared, and identifiers are not reused. A swap type of "none"
   means no pending upgrade. Across a restart only a pending upgrade can make a confirmed image
   unconfirmed, and pending upgrades do not appear by themselves.
   */
  predicate Enabled(s: System, a: Action) {
    match a
    case RunRecovery(swapNone, _) => !s.recovery.Ready? && (swapNone ==> !s.mcuboot.pending)
    case Update(u, _) => s.recovery.Ready? && u !in s.seen && (!s.data.running ==> s.worker.NoWorker?)
    case Cancel(_, _) => s.recovery.Ready?
    case RunWorker(o) =>
      && s.recovery.Ready? && !s.worker.NoWorker? && !s.worker.ToReboot?
      && (s.worker.ToTakeSemaphore? ==> s.semaphore > 0)
      && (o.chunk.Some? ==> o.chunk.value.size > 0)
      && (o.chunk.Some? && o.chunk.value.written.Some? ==> o.chunk.value.written.value >= s.data.downloadSize)
    case TransferTakes => s.recovery.Ready? && !s.transferHolds && s.semaphore > 0
    case TransferGives => s.transferHolds
    case Restart(after) => !s.mcuboot.pending ==> !after.pending && (s.mcuboot.confirmed ==> after.confirmed)
  }

  function Step(s: System, a: Action): System
    requires Enabled(s, a)
  {
    match a
    case RunRecovery(swapNone, confirmOk) => RecoveryStep(s, swapNone, confirmOk)
    case Update(u, created) => UpdateStep(s, u, created)
    case Cancel(u, settingsOk) => CancelStep(s, u, settingsOk)
    case RunWorker(outcome) => WorkerStep(s, outcome)
    case TransferTakes => s.(semaphore := s.semaphore - 1, transferHolds := true)
    case TransferGives => s.(semaphore := Given(s.semaphore), transferHolds := false)
    case Restart(after) =>
      System(ToLoad, NoWorker, NO_DATA, 1, false, s.settings, after, s.seen, s.history)
  }

  /** `k_sem_give` on a semaphore with limit one. */
  function Given(count: nat): nat { if count < 1 then count + 1 else count }

  function Noted(s: System, r: Record): System { s.(history := s.history + [r]) }

  function WithState(s: System, state: OtaState): System { s.(settings := s.settings.(state := state)) }

  /** `edgehog_settings_delete` of the request. */
  function WithoutRequest(s: System): System {
    match s.settings.request
    case None => s
    case Some(u) => Noted(s.(settings := s.settings.(request := None)), RequestDeleted(u))
  }

  /** `edgehog_ota_init`. */
  function RecoveryStep(s: System, swapNone: bool, confirmOk: bool): System
    requires !s.recovery.Ready?
  {
    match s.recovery
    case ToLoad =>
      s.(data := NO_DATA,
         recovery :=
           match s.settings.request
           case None => ToDrop
           case Some(u) => if s.settings.state != Reboot then ToPublish(u, Failure) else ToCheckSwap(u))
    case ToCheckSwap(u) => s.(recovery := if swapNone then ToCheckConfirmed(u) else ToPublish(u, Failure))
    case ToCheckConfirmed(u) => s.(recovery := if s.mcuboot.confirmed then ToPublish(u, Failure) else ToConfirm(u))
    case ToConfirm(u) =>
      if confirmOk then s.(mcuboot := s.mcuboot.(confirmed := true), recovery := ToPublish(u, Success))
      else s.(recovery := ToPublish(u, Failure))
    case ToPublish(u, event) => Noted(s.(recovery := ToDrop), Published(u, event))
    case ToDrop => WithoutRequest(s.(recovery := ToReset))
    case ToReset => WithState(s.(recovery := Ready), Idle)
  }

  /** `edgehog_ota_event_update`. A worker that cannot be created leaves the run bit set. */
  function UpdateStep(s: System, u: Uuid, created: bool): System {
    var s := s.(seen := s.seen + {u});
    if s.data.running then Noted(s, Refused(u))
    else
      var s := s.(data := ThreadData(u, 0, 0, 0, true));
      if created then s.(worker := ToTakeSemaphore) else Noted(s, Refused(u))
  }

  /** `edgehog_ota_event_cancel`: whatever identifier it names, it stops the running update. */
  function CancelStep(s: System, u: Uuid, settingsOk: bool): System {
    if !s.data.running || !settingsOk || s.settings.request.None? then Noted(s.(seen := s.seen + {u}), Refused(u))
    else s.(data := s.data.(running := false))
  }

  function Announced(s: System, event: Event, next: Worker): System {
    Noted(s.(worker := next), Published(s.data.request, event))
  }

  /** `ota_thread_entry_point`, with `perform_ota` inlined. */
  function WorkerStep(s: System, o: Outcome): System
    requires !s.worker.NoWorker? && !s.worker.ToReboot?
    requires s.worker.ToTakeSemaphore? ==> s.semaphore > 0
    requires o.chunk.Some? ==> o.chunk.value.size > 0
  {
    match s.worker
    case ToTakeSemaphore => s.(semaphore := s.semaphore - 1, worker := ToAcknowledge)
    case ToAcknowledge => Announced(s, Acknowledged, ToInitSettings)
    case ToInitSettings => s.(worker := if o.ok then ToSaveInProgress else ToReportFailure(false))
    case ToSaveInProgress => WithState(s.(worker := ToPrepareFlash), InProgress)
    case ToPrepareFlash => s.(worker := if o.ok then ToSaveRequest else ToReportFailure(true))
    case ToSaveRequest =>
      if !o.ok then s.(worker := ToReportFailure(true))
      else
        Noted(s.(settings := s.settings.(request := Some(s.data.request)), worker := ToAnnounceAttempt(0)),
              RequestSaved(s.data.request))
    case ToAnnounceAttempt(n) => Announced(s, Downloading(0), Attempting(n))
    case Attempting(n) => if o.chunk.Some? then Payload(s, o.chunk.value) else AttemptOver(s, n, o.ok)
    case ToReportError(n) =>
      Announced(s, Error, if n + 1 < MAX_OTA_RETRY then ToAnnounceAttempt(n + 1) else ToReportFailure(true))
    case ToAnnounceDeploying => Announced(s, Deploying, ToSaveReboot)
    case ToSaveReboot => Noted(WithState(s.(worker := ToReadHeader), Reboot), RebootSaved(s.data.request, s.mcuboot))
    case ToReadHeader => s.(worker := if o.ok then ToRequestUpgrade else ToReportFailure(false))
    case ToRequestUpgrade =>
      if o.ok then
        Noted(s.(mcuboot := s.mcuboot.(pending := true), worker := ToAnnounceDeployed), UpgradeRequested(s.data.request))
      else s.(worker := ToReportFailure(false))
    case ToAnnounceDeployed => Announced(s, Deployed, ToAnnounceReboot)
    case ToAnnounceReboot => Announced(s, Rebooting, ToReboot)
    case ToReportFailure(performed) => Announced(s, Failure, if performed then ToSaveIdleFirst else ToClearRunBit)
    case ToSaveIdleFirst => WithState(s.(worker := ToClearRunBit), Idle)
    case ToClearRunBit => s.(data := s.data.(running := false), worker := ToDeleteRequest)
    case ToDeleteRequest => WithoutRequest(s.(worker := ToSaveIdle))
    case ToSaveIdle => WithState(s.(worker := ToGiveSemaphore), Idle)
    case ToGiveSemaphore => s.(semaphore := Given(s.semaphore), worker := NoWorker)
  }

  /** The download percentage, in `size_t` arithmetic, rounded down to a multiple of ten. */
  function RoundedPercent(written: nat, size: nat): nat
    requires size > 0
  {
    var percent := (OTA_PROGRESS_PERC * written) % SIZE_MODULUS / size;
    percent - percent % OTA_PROGRESS_PERC_ROUNDING_STEP
  }

  /** `http_download_payload_cbk`: nothing once cancelled or when the write fails. */
  function Payload(s: System, c: Chunk): System
    requires c.size > 0
  {
    if !s.data.running || c.written.None? then s
    else
      var rounded := RoundedPercent(c.written.value, c.size);
      var s := s.(data := s.data.(downloadSize := c.written.value, imageSize := c.size));
      if rounded == s.data.lastPercent then s
      else Noted(s.(data := s.data.(lastPercent := rounded % 256)), Published(s.data.request, Downloading(rounded)))
  }

  /** The end of `perform_ota_attempt`, once the request is over, and what `perform_ota` makes of it. */
  function AttemptOver(s: System, n: nat, httpOk: bool): System {
    var d := s.data;
    Noted(
      s.(worker :=
           if !d.running then ToReportFailure(true)
           else if !httpOk || d.downloadSize <= 0 || d.downloadSize != d.imageSize then ToReportError(n)
           else ToAnnounceDeploying),
      AttemptEnded(d.request, d.downloadSize, d.imageSize, d.running, httpOk))
  }

  // ---------------------------------------------------------------------------------------------
  // Runs
  // ---------------------------------------------------------------------------------------------

  /** A device that has never seen an update. */
  predicate Factory(s: System) {
    && s.recovery == ToLoad && s.worker == NoWorker && s.data == NO_DATA && s.semaphore == 1 && !s.transferHolds
    && s.settings.request == None && !s.mcuboot.pending && s.seen == {} && s.history == []
  }

  predicate CanRun(s: System, actions: seq<Action>)
    decreases |actions|
  {
    actions == [] || (Enabled(s, actions[0]) && CanRun(Step(s, actions[0]), actions[1..]))
  }

  /** The state after a run, restarts and all. */
  function Run(s: System, actions: seq<Action>): System
    requires CanRun(s, actions)
    decreases |actions|
  {
    if actions == [] then s else Run(Step(s, actions[0]), actions[1..])
  }
}
