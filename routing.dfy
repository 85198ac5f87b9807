/** How the XENHID function driver sorts the requests it receives: power
    requests (FdoDispatchPower and __FdoSetDevicePower), PnP requests
    (FdoDispatchPnp) and internal HID IOCTLs (FdoDispatchInternal). */
module Routing {
  import opened Kernel

  // ---------------------------------------------------------------- power

  /** IRP_MJ_POWER minor functions. */
  datatype PowerMinor = SetPower | QueryPower | WaitWake | PowerSequence | OtherPowerMinor(code: nat)

  /** The parts of a power IRP's stack location the driver reads. */
  datatype PowerRequest = PowerRequest(
    minor: PowerMinor,
    powerType: PowerStateType,
    action: PowerAction,
    deviceState: DevicePowerState)

  datatype PowerRoute =
    | PassDown   // IoSkipCurrentIrpStackLocation + IoCallDriver
    | ToWorker   // parked in DevicePowerIrp, worker woken, STATUS_PENDING

  /** The requests the power worker is built to handle: a SET_POWER for a
      device power state, with an action below PowerActionShutdown. */
  predicate WorkerRequest(req: PowerRequest) {
    req.minor == SetPower && req.powerType == DevicePowerStateType && req.action.BelowShutdown()
  }

  /** FdoDispatchPower: anything but SET_POWER goes down; so does a
      SET_POWER whose action is shutdown or beyond, and a system-state one;
      a device-state SET_POWER goes to the worker. */
  function RoutePower(req: PowerRequest): PowerRoute {
    if req.minor != SetPower then PassDown
    else if !req.action.BelowShutdown() then PassDown
    else if req.powerType == DevicePowerStateType then ToWorker
    else PassDown
  }

  /** The worker receives exactly the requests it is built to handle; in
      particular every request it receives satisfies the assertions in the
      worker loop (IRP_MN_SET_POWER) and in __FdoSetDevicePower (action below
      shutdown). */
  lemma RoutePowerToWorker(req: PowerRequest)
    ensures RoutePower(req) == ToWorker <==> WorkerRequest(req)
    ensures RoutePower(req) == ToWorker ==>
              req.minor == SetPower && req.action.Level() < ActionShutdown.Level()
  {
  }

  /** Shutdown, reset, power-off, warm eject and display-off requests are
      never parked, whatever their type. */
  lemma ShutdownActionsPassDown(req: PowerRequest)
    requires req.action.Level() >= ActionShutdown.Level()
    ensures RoutePower(req) == PassDown
  {
  }

  /** What __FdoSetDevicePower does with a device-state request. */
  datatype DevicePowerRoute =
    | PassThrough  // same state: passed down untouched
    | PowerUp      // __FdoSetDevicePowerUp
    | PowerDown    // __FdoSetDevicePowerDown

  /** __FdoSetDevicePower: equal states pass through, a lower requested state
      (towards D0) powers up, a higher one powers down. */
  function SetPowerRoute(requested: DevicePowerState, current: DevicePowerState): DevicePowerRoute {
    if requested == current then PassThrough
    else if requested.Level() < current.Level() then PowerUp
    else PowerDown
  }

  /** The route follows the ordering of device power states: pass-through
      exactly on equal states, and swapping the two states swaps power-up and
      power-down. */
  lemma SetPowerRouteOrdering(a: DevicePowerState, b: DevicePowerState)
    ensures SetPowerRoute(a, b) == PassThrough <==> a == b
    ensures SetPowerRoute(a, b) == PowerUp <==> SetPowerRoute(b, a) == PowerDown
    ensures SetPowerRoute(a, b) == PowerUp <==> a.Level() < b.Level()
  {
  }

  /** Between D0 and D3 (the only states the driver enters) a request for D0
      from D3 powers up, a request for D3 from D0 powers down, and the two
      assertions __FdoSetDevicePowerUp and __FdoSetDevicePowerDown make about
      the target state hold. */
  lemma SetPowerRouteBetweenD0AndD3(requested: DevicePowerState, current: DevicePowerState)
    requires requested in {D0, D3} && current in {D0, D3}
    ensures SetPowerRoute(requested, current) == PowerUp ==> requested == D0 && current == D3
    ensures SetPowerRoute(requested, current) == PowerDown ==> requested == D3 && current == D0
    ensures SetPowerRoute(requested, current) == PassThrough ==> requested == current
  {
  }

  // ---------------------------------------------------------------- PnP

  /** IRP_MJ_PNP minor functions the driver distinguishes. */
  datatype PnpMinor =
    | StartDevice | RemoveDevice | StopDevice
    | QueryStopDevice | CancelStopDevice | QueryRemoveDevice | SurpriseRemoval | CancelRemoveDevice
    | OtherPnp(code: nat)

  datatype PnpRoute =
    | Start                // FdoStartDevice
    | Remove               // FdoRemoveDevice
    | Stop                 // FdoStopDevice
    | SucceedAndPassDown   // IoStatus.Status = STATUS_SUCCESS, then passed down
    | PassDownUntouched    // passed down with its status as it came

  /** The query, cancel and surprise-removal requests the driver accepts. */
  predicate AcceptedQuery(minor: PnpMinor) {
    minor in {QueryStopDevice, CancelStopDevice, QueryRemoveDevice, SurpriseRemoval, CancelRemoveDevice}
  }

  /** FdoDispatchPnp. */
  function RoutePnp(minor: PnpMinor): PnpRoute {
    match minor
    case StartDevice => Start
    case RemoveDevice => Remove
    case StopDevice => Stop
    case QueryStopDevice => SucceedAndPassDown
    case CancelStopDevice => SucceedAndPassDown
    case QueryRemoveDevice => SucceedAndPassDown
    case SurpriseRemoval => SucceedAndPassDown
    case CancelRemoveDevice => SucceedAndPassDown
    case OtherPnp(_) => PassDownUntouched
  }

  /** Only start, stop and remove touch the device; the five accepted queries
      are marked successful and every other request is passed down as it
      came. */
  lemma RoutePnpClassifies(minor: PnpMinor)
    ensures RoutePnp(minor) == SucceedAndPassDown <==> AcceptedQuery(minor)
    ensures RoutePnp(minor) == PassDownUntouched <==> minor.OtherPnp?
    ensures RoutePnp(minor) in {Start, Stop, Remove} <==> minor in {StartDevice, StopDevice, RemoveDevice}
  {
  }

  // ---------------------------------------------------------------- internal IOCTLs

  /** IRP_MJ_INTERNAL_DEVICE_CONTROL codes from the HID class driver. */
  datatype Ioctl =
    | GetDeviceAttributes | GetDeviceDescriptor | GetReportDescriptor
    | GetString | GetIndexedString | GetFeature | SetFeature
    | GetInputReport | SetOutputReport | ReadReport | WriteReport
    | OtherIoctl(code: nat)

  /** The codes whose HID call returns a byte count. */
  predicate ReturnsCount(code: Ioctl) {
    code in {GetDeviceAttributes, GetDeviceDescriptor, GetReportDescriptor, GetString,
             GetIndexedString, GetFeature, GetInputReport}
  }

  /** The codes forwarded to one call on the HID interface. */
  predicate ForwardedToHid(code: Ioctl) {
    ReturnsCount(code) || code in {SetFeature, SetOutputReport, WriteReport}
  }

  /** What FdoDispatchInternal does with an IOCTL: the status it returns, the
      Information it sets (None: left as it was), whether it queued the
      request, and whether it completed it. */
  datatype InternalOutcome = InternalOutcome(status: Status, information: Option<nat>, queued: bool, completed: bool)

  /** FdoDispatchInternal, given what the HID interface call (if any) answers:
      its status and the count it returns. */
  function DispatchInternal(code: Ioctl, hidStatus: Status, returned: nat): InternalOutcome {
    var status :=
      if code == ReadReport then Pending
      else if ForwardedToHid(code) then hidStatus
      else NotSupported;
    var information := if ReturnsCount(code) && NtSuccess(hidStatus) then Some(returned) else None;
    InternalOutcome(status, information, code == ReadReport, status != Pending)
  }

  /** A read-report request is always queued and left pending; every other
      request is completed with the status returned, unless the HID call
      itself answered STATUS_PENDING, in which case the request is neither
      queued nor completed. Unknown codes fail with STATUS_NOT_SUPPORTED
      without any HID call; Information is set only after a successful call
      that returns a count. */
  lemma DispatchInternalOutcome(code: Ioctl, hidStatus: Status, returned: nat)
    ensures var r := DispatchInternal(code, hidStatus, returned);
            && (r.queued <==> code == ReadReport)
            && (r.queued ==> r.status == Pending && !r.completed)
            && (!r.queued ==> (r.completed <==> r.status != Pending))
            && (code.OtherIoctl? ==> r == InternalOutcome(NotSupported, None, false, true))
            && (r.information.Some? ==> ReturnsCount(code) && NtSuccess(r.status) && r.information.value == returned)
            && (ForwardedToHid(code) ==> r.status == hidStatus)
  {
  }

  /** A HID call that answers STATUS_PENDING leaves the request with nobody
      to complete it. */
  lemma PendingHidAnswerStrandsRequest(returned: nat)
    ensures var r := DispatchInternal(WriteReport, Pending, returned);
            !r.queued && !r.completed && r.status == Pending
  {
  }
}
