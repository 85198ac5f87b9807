/** The XENHID function device object (src/xenhid/fdo.c): its power
    transitions over the XENBUS store and suspend services and the XENHID
    HID interface, the distribution entry it publishes in the store, the
    dispatch of power, PnP and internal IOCTL requests, the single-slot
    mailbox of the device-power worker, and creation and teardown. */
module FunctionDriver {
  import opened Kernel
  import opened Services
  import Distribution
  import ReadQueue
  import Routing

  /** What the world answers during one operation: the lower driver's status
      for a forwarded request, the status of each acquire step of FdoD3ToD0,
      whether the store accepted the distribution write, the "drivers"
      directory listing, and whether the splitter's allocations succeed. */
  datatype Environment = Environment(
    lower: Status,
    storeAcquire: Status,
    suspendAcquire: Status,
    register: Status,
    hidAcquire: Status,
    hidEnable: Status,
    written: bool,
    directory: Distribution.Directory,
    allocOk: bool)

  /** The statuses FdoCreate's five fallible steps answer: ThreadCreate,
      IoCsqInitialize, and the three interface queries. */
  datatype CreateAnswers = CreateAnswers(
    thread: Status, csq: Status, suspendQuery: Status, storeQuery: Status, hidQuery: Status)

  /** A power IRP, identified, with its stack location. */
  datatype PowerIrp = PowerIrp(id: nat, request: Routing.PowerRequest)

  /** A power IRP is completed by the driver, or passed to the lower driver. */
  datatype PowerOutcome = CompletedHere(status: Status) | PassedDown(status: Status)

  /** One turn of the FdoDevicePower loop. */
  datatype WorkerStep =
    | Blocked                 // slot empty, event not signalled: still waiting
    | Exited                  // alerted: the loop breaks
    | Idle                    // woken with an empty slot: loop again
    | Handled(irp: nat, outcome: PowerOutcome)

  /** A log that keeps to the protocol, extended by calls that keep to it
      from where the log ends. */
  lemma ReplayExtends(log: seq<Call>, held: set<Resource>, more: seq<Call>, after: set<Resource>)
    requires Replay({}, log) == Some(held) && Replay(held, more) == Some(after)
    ensures Replay({}, log + more) == Some(after)
  {
    ReplayAppend({}, log, more);
  }

  // ---------------------------------------------------------------- FdoD3ToD0 as a function

  /** The five steps of a successful FdoD3ToD0, after a log holding nothing,
      hold every service. */
  lemma PowerUpHoldsAll(log: seq<Call>)
    requires Replay({}, log) == Some({})
    ensures log + AcquireSteps[..5] == log + AcquireSteps
    ensures Replay({}, log + AcquireSteps) == Some(AllHeld)
  {
    assert AcquireSteps[..5] == AcquireSteps;
    PowerCycleLeaksNothing();
    ReplayExtends(log, {}, AcquireSteps, AllHeld);
  }

  /** The steps before a failed step k and the ladder after them, after a
      log holding nothing, hold nothing. */
  lemma PowerUpFailureReleasesAll(log: seq<Call>, k: nat)
    requires Replay({}, log) == Some({}) && 1 <= k <= 5
    ensures log + AcquireSteps[..k - 1] + Rollback(AcquireSteps[..k - 1]) == log + FailedLadder(k)
    ensures Replay({}, log + FailedLadder(k)) == Some({})
  {
    FailedLadderLeaksNothing(k);
    ReplayExtends(log, {}, FailedLadder(k), {});
  }

  /** FdoD0ToD3's calls, written out, are the rollback of FdoD3ToD0's steps
      and release everything a log holding every service holds. */
  lemma PowerDownReleasesAll(log: seq<Call>)
    requires Replay({}, log) == Some(AllHeld)
    ensures log + [HidDisable] + [HidRelease] + [SuspendDeregister] + [SuspendRelease] + [StoreRelease] == log + D0ToD3Log(true)
    ensures Replay({}, log + D0ToD3Log(true)) == Some({})
  {
    RollbackOfSteps(1);
    var released := [HidDisable, HidRelease, SuspendDeregister, SuspendRelease, StoreRelease];
    assert log + [HidDisable] + [HidRelease] + [SuspendDeregister] + [SuspendRelease] + [StoreRelease] == log + released;
    PowerCycleLeaksNothing();
    ReplayExtends(log, AllHeld, Rollback(AcquireSteps), {});
  }

  /** The status of step i (1-based) of FdoD3ToD0. */
  function StepStatus(env: Environment, i: nat): Status
    requires 1 <= i <= 5
  {
    if i == 1 then env.storeAcquire
    else if i == 2 then env.suspendAcquire
    else if i == 3 then env.register
    else if i == 4 then env.hidAcquire
    else env.hidEnable
  }

  /** The first step that fails, 1-based; 6 when all five succeed. */
  function FirstFailure(env: Environment): (k: nat)
    ensures 1 <= k <= 6
    ensures forall i :: 1 <= i < k ==> NtSuccess(StepStatus(env, i))
    ensures k <= 5 ==> !NtSuccess(StepStatus(env, k))
  {
    if !NtSuccess(env.storeAcquire) then 1
    else if !NtSuccess(env.suspendAcquire) then 2
    else if !NtSuccess(env.register) then 3
    else if !NtSuccess(env.hidAcquire) then 4
    else if !NtSuccess(env.hidEnable) then 5
    else 6
  }

  /** The service calls FdoD3ToD0 makes. */
  function D3ToD0Log(wasEnabled: bool, env: Environment): seq<Call> {
    if wasEnabled then []
    else if FirstFailure(env) == 6 then AcquireSteps
    else FailedLadder(FirstFailure(env))
  }

  /** The status FdoD3ToD0 returns. */
  function D3ToD0Status(wasEnabled: bool, env: Environment): Status {
    if wasEnabled || FirstFailure(env) == 6 then Success else StepStatus(env, FirstFailure(env))
  }

  /** The store after FdoD3ToD0: the distribution entry is published once the
      suspend session is held, and cleared again when the registration or a
      later step fails. */
  function D3ToD0Store(store: Distribution.Store, id: Distribution.Identity, wasEnabled: bool, env: Environment): Distribution.Store
    requires Distribution.WellFormedDirectory(env.directory)
  {
    if wasEnabled || FirstFailure(env) <= 2 then store
    else
      var published := Distribution.SetResult(store, id, env.written).1;
      if FirstFailure(env) == 6 then published
      else Distribution.ClearResult(published, id.vendor, env.directory, env.allocOk)
  }

  /** The service calls FdoD0ToD3 makes. */
  function D0ToD3Log(wasEnabled: bool): seq<Call> {
    if wasEnabled then Rollback(AcquireSteps) else []
  }

  /** The store after FdoD0ToD3: matching entries are cleared when the
      device was enabled. */
  function D0ToD3Store(store: Distribution.Store, vendor: string, wasEnabled: bool, env: Environment): Distribution.Store
    requires Distribution.WellFormedDirectory(env.directory)
  {
    if wasEnabled then Distribution.ClearResult(store, vendor, env.directory, env.allocOk) else store
  }

  /** What handling a device power IRP does: how the IRP ends, the service
      calls made, and the store, power state and Enabled flag afterwards. */
  datatype PowerEffect = PowerEffect(
    outcome: PowerOutcome,
    log: seq<Call>,
    store: Distribution.Store,
    state: DevicePowerState,
    enabled: bool)

  /** __FdoSetDevicePowerUp: a failed forward completes the IRP with its
      status and changes nothing; otherwise FdoD3ToD0 runs and its status
      completes the IRP. */
  function PowerUpEffect(state: DevicePowerState, enabled: bool, store: Distribution.Store,
                         id: Distribution.Identity, env: Environment): PowerEffect
    requires Distribution.WellFormedDirectory(env.directory)
  {
    if !NtSuccess(env.lower) then PowerEffect(CompletedHere(env.lower), [], store, state, enabled)
    else
      var status := D3ToD0Status(enabled, env);
      PowerEffect(CompletedHere(status), D3ToD0Log(enabled, env), D3ToD0Store(store, id, enabled, env),
                  if NtSuccess(status) then D0 else state, NtSuccess(status))
  }

  /** __FdoSetDevicePowerDown: FdoD0ToD3 runs only from D0; the IRP is
      passed down either way. */
  function PowerDownEffect(state: DevicePowerState, enabled: bool, store: Distribution.Store,
                           id: Distribution.Identity, env: Environment): PowerEffect
    requires Distribution.WellFormedDirectory(env.directory)
  {
    if state == D0 then
      PowerEffect(PassedDown(env.lower), D0ToD3Log(enabled), D0ToD3Store(store, id.vendor, enabled, env), D3, false)
    else PowerEffect(PassedDown(env.lower), [], store, state, enabled)
  }

  /** __FdoSetDevicePower for a request to enter `target`. */
  function SetDevicePowerEffect(target: DevicePowerState, state: DevicePowerState, enabled: bool,
                                store: Distribution.Store, id: Distribution.Identity, env: Environment): PowerEffect
    requires Distribution.WellFormedDirectory(env.directory)
  {
    match Routing.SetPowerRoute(target, state)
    case PassThrough => PowerEffect(PassedDown(env.lower), [], store, state, enabled)
    case PowerUp => PowerUpEffect(state, enabled, store, id, env)
    case PowerDown => PowerDownEffect(state, enabled, store, id, env)
  }

  /** Handling a device power IRP between D0 and D3 keeps the resource
      protocol (every service held exactly while enabled, and enabled only in
      D0). The device reaches the requested state unless a power-up fails, in
      which case it stays where it was and the IRP is completed with the
      failure. Only a power-up is completed by the driver; every other IRP is
      passed down with the lower driver's status. */
  lemma SetDevicePowerKeepsProtocol(target: DevicePowerState, state: DevicePowerState, enabled: bool,
                                    store: Distribution.Store, id: Distribution.Identity, env: Environment,
                                    log: seq<Call>)
    requires Distribution.WellFormedDirectory(env.directory)
    requires target in {D0, D3} && state in {D0, D3} && (enabled ==> state == D0)
    requires Replay({}, log) == Some(if enabled then AllHeld else {})
    ensures var e := SetDevicePowerEffect(target, state, enabled, store, id, env);
            && Replay({}, log + e.log) == Some(if e.enabled then AllHeld else {})
            && (e.enabled ==> e.state == D0)
            && (e.state == target || (e.outcome.CompletedHere? && !NtSuccess(e.outcome.status) && e.state == state))
            && (e.outcome.CompletedHere? <==> target == D0 && state == D3)
            && (e.outcome.PassedDown? ==> e.outcome.status == env.lower)
  {
    Routing.SetPowerRouteBetweenD0AndD3(target, state);
    var route := Routing.SetPowerRoute(target, state);
    if route == Routing.PowerUp && NtSuccess(env.lower) {
      D3ToD0Outcome(false, env);
      if FirstFailure(env) == 6 {
        PowerUpHoldsAll(log);
      } else {
        PowerUpFailureReleasesAll(log, FirstFailure(env));
      }
    } else if route == Routing.PowerDown && enabled {
      PowerDownReleasesAll(log);
    } else {
      assert log + [] == log;
    }
  }

  /** FdoD3ToD0 either succeeds holding every service, or fails with the
      failing step's status having undone exactly the steps before it, in
      reverse order (HID release, then deregistration, then suspend release,
      then store release), so that nothing is left held. When the device was
      already enabled it calls nothing. */
  lemma D3ToD0Outcome(wasEnabled: bool, env: Environment)
    ensures NtSuccess(D3ToD0Status(wasEnabled, env)) <==> wasEnabled || FirstFailure(env) == 6
    ensures wasEnabled ==> D3ToD0Log(wasEnabled, env) == []
    ensures !wasEnabled ==>
              Replay({}, D3ToD0Log(wasEnabled, env)) ==
              Some(if FirstFailure(env) == 6 then AllHeld else {})
    ensures !wasEnabled && FirstFailure(env) <= 5 ==>
              var k := FirstFailure(env);
              && D3ToD0Status(wasEnabled, env) == StepStatus(env, k)
              && D3ToD0Log(wasEnabled, env) ==
                 AcquireSteps[..k - 1] + [HidDisable, HidRelease, SuspendDeregister, SuspendRelease, StoreRelease][6 - k..]
  {
    if !wasEnabled {
      var k := FirstFailure(env);
      if k == 6 {
        PowerCycleLeaksNothing();
      } else {
        FailedLadderLeaksNothing(k);
        RollbackOfSteps(k);
      }
    }
  }

  /** A power cycle that starts successfully and is then stopped leaves no
      service held. */
  lemma PowerCycleReleasesAll(env: Environment)
    requires FirstFailure(env) == 6
    ensures Replay({}, D3ToD0Log(false, env) + D0ToD3Log(true)) == Some({})
  {
    PowerCycleLeaksNothing();
    ReplayAppend({}, AcquireSteps, Rollback(AcquireSteps));
  }

  /** The store side of a power cycle: when FdoD3ToD0 publishes the entry
      under the first free key and the listing FdoD0ToD3 reads names that key,
      the entry is gone afterwards. */
  lemma PowerCycleRemovesEntry(store: Distribution.Store, id: Distribution.Identity, env: Environment, k: nat)
    requires Distribution.ValidIdentity(id) && FirstFailure(env) == 6 && env.written
    requires k <= Distribution.MaximumIndex && Distribution.AllReadable(store, 0, k)
    requires Distribution.Read(store, Distribution.Decimal(k)) == Distribution.ReadFailed(ObjectNameNotFound)
    requires Distribution.Decimal(k) !in store.readFaults && Distribution.Decimal(k) !in store.removeFaults
    requires env.directory.Listing? && env.allocOk && Distribution.WellFormedDirectory(env.directory)
    requires Distribution.Decimal(k) in Distribution.ListedNames(env.directory.buffer)
    ensures var published := D3ToD0Store(store, id, false, env);
            Distribution.Decimal(k) in published.drivers &&
            Distribution.Decimal(k) !in Distribution.ClearResult(published, id.vendor, env.directory, env.allocOk).drivers
  {
    var names := Distribution.ListedNames(env.directory.buffer);
    var published := Distribution.SetResult(store, id, true).1;
    assert D3ToD0Store(store, id, false, env) == published;
    Distribution.SetWritesFirstFreeKey(store, id, true, k);
    Distribution.SetThenClearRemoves(store, id, k, names);
    assert Distribution.ClearResult(published, id.vendor, env.directory, env.allocOk) ==
           Distribution.Cleared(published, id.vendor, names);
  }

  // ---------------------------------------------------------------- the device object

  class Fdo {
    /** DeviceObject and LowerDeviceObject are set. */
    var attached: bool
    /** DevicePowerThread is set. */
    var thread: bool
    /** The worker thread's alert flag and wake event. */
    var alerted: bool
    var wakeSignalled: bool
    /** DevicePowerIrp: the single-slot mailbox. */
    var devicePowerIrp: Option<PowerIrp>
    var devicePowerState: DevicePowerState
    var enabled: bool
    /** The three interfaces have been queried. */
    var hidInterface: bool
    var storeInterface: bool
    var suspendInterface: bool
    /** SuspendCallback is registered. */
    var suspendCallback: bool
    /** The IO_CSQ is initialised. */
    var queueReady: bool
    /** The pending reads (Fdo->Queue and Fdo->List). */
    const pending: ReadQueue.PendingReads
    /** VENDOR_NAME_STR and the version macros. */
    const identity: Distribution.Identity
    /** The store's "drivers" directory, as this driver sees it. */
    var store: Distribution.Store
    /** Every effective service call, in order. */
    ghost var calls: seq<Call>

    /** The services held are exactly those the log says; the suspend
      callback is registered exactly while enabled; the device is in D0 or
      D3; the mailbox holds only requests the worker can handle. */
    ghost predicate Valid()
      reads this, pending
    {
      && pending.Valid()
      && Distribution.ValidIdentity(identity)
      && Replay({}, calls) == Some(if enabled then AllHeld else {})
      && (suspendCallback <==> enabled)
      && devicePowerState in {D0, D3}
      && (devicePowerIrp.Some? ==> Routing.WorkerRequest(devicePowerIrp.value.request))
    }

    /** The calls made since `before`, the store, the power state and the
      Enabled flag are those of `e`. */
    ghost predicate Shows(e: PowerEffect, before: seq<Call>)
      reads this
    {
      calls == before + e.log && store == e.store && devicePowerState == e.state && enabled == e.enabled
    }

    /** Enabled only in D0. */
    predicate PowerConsistent()
      reads this
    {
      enabled ==> devicePowerState == D0
    }

    /** Every field of the device extension other than DevicePowerState is zero. */
    predicate ZeroedBesidesPowerState()
      reads this, pending
    {
      && !attached && !thread && devicePowerIrp.None?
      && !enabled && !hidInterface && !storeInterface && !suspendInterface
      && !suspendCallback && !queueReady && pending.list == []
    }

    /** Every field of the device extension is zero (IsZeroMemory);
      PowerDeviceUnspecified is the zero DEVICE_POWER_STATE. */
    predicate Zeroed()
      reads this, pending
    {
      ZeroedBesidesPowerState() && devicePowerState == Unspecified
    }

    /** The device extension as IoCreateDevice hands it over: zero-filled. */
    constructor (id: Distribution.Identity, store0: Distribution.Store)
      requires Distribution.ValidIdentity(id)
      ensures Zeroed() && pending.Valid() && identity == id && store == store0 && calls == []
      ensures fresh(pending)
    {
      attached := false;
      thread := false;
      alerted := false;
      wakeSignalled := false;
      devicePowerIrp := None;
      devicePowerState := Unspecified;
      enabled := false;
      hidInterface := false;
      storeInterface := false;
      suspendInterface := false;
      suspendCallback := false;
      queueReady := false;
      identity := id;
      store := store0;
      calls := [];
      pending := new ReadQueue.PendingReads();
    }

    // ------------------------------------------------------------ service calls

    /** An acquiring service call: logged when it succeeds. */
    method Acquire(c: Call, outcome: Status) returns (status: Status)
      modifies this
      ensures status == outcome
      ensures calls == old(calls) + (if NtSuccess(outcome) then [c] else [])
      ensures unchanged(this`enabled, this`devicePowerState, this`suspendCallback, this`store, this`devicePowerIrp, this`alerted, this`wakeSignalled)
    {
      if NtSuccess(outcome) {
        calls := calls + [c];
      }
      status := outcome;
    }

    /** A releasing service call, which cannot fail. */
    method Release(c: Call)
      modifies this
      ensures calls == old(calls) + [c]
      ensures unchanged(this`enabled, this`devicePowerState, this`suspendCallback, this`store, this`devicePowerIrp, this`alerted, this`wakeSignalled)
    {
      calls := calls + [c];
    }

    // ------------------------------------------------------------ the distribution entry

    /** FdoSetDistribution: publish the entry (its status ignored), then
      register the late suspend callback; when the registration fails, clear
      matching entries again and return its status. */
    method SetDistribution(env: Environment) returns (status: Status)
      requires Distribution.ValidIdentity(identity) && Distribution.WellFormedDirectory(env.directory)
      modifies this
      ensures status == (if NtSuccess(env.register) then Success else env.register)
      ensures calls == old(calls) + (if NtSuccess(env.register) then [SuspendRegister] else [])
      ensures suspendCallback == (NtSuccess(env.register) || old(suspendCallback))
      ensures var published := Distribution.SetResult(old(store), identity, env.written).1;
              store == if NtSuccess(env.register) then published
                       else Distribution.ClearResult(published, identity.vendor, env.directory, env.allocOk)
      ensures unchanged(this`enabled, this`devicePowerState, this`devicePowerIrp, this`alerted, this`wakeSignalled)
    {
      var ignored, published := Distribution.SetDistribution(store, identity, env.written);
      store := published;
      status := Acquire(SuspendRegister, env.register);
      if !NtSuccess(status) {
        store := Distribution.ClearDistribution(store, identity.vendor, env.directory, env.allocOk);
        return status;
      }
      suspendCallback := true;
      status := Success;
    }

    /** FdoClearDistribution: deregister the suspend callback, forget it, and
      remove the matching entries. */
    method ClearDistribution(env: Environment)
      requires Distribution.WellFormedDirectory(env.directory)
      modifies this
      ensures calls == old(calls) + [SuspendDeregister]
      ensures !suspendCallback
      ensures store == Distribution.ClearResult(old(store), identity.vendor, env.directory, env.allocOk)
      ensures unchanged(this`enabled, this`devicePowerState, this`devicePowerIrp, this`alerted, this`wakeSignalled)
    {
      Release(SuspendDeregister);
      suspendCallback := false;
      store := Distribution.ClearDistribution(store, identity.vendor, env.directory, env.allocOk);
    }

    /** FdoSuspendCallback: after a resume, publish the entry again; the
      status of __FdoSetDistribution is ignored. */
    method OnSuspendCallback(env: Environment)
      requires Distribution.ValidIdentity(identity)
      modifies this
      ensures store == Distribution.SetResult(old(store), identity, env.written).1
      ensures calls == old(calls) && enabled == old(enabled) && suspendCallback == old(suspendCallback)
      ensures devicePowerState == old(devicePowerState) && devicePowerIrp == old(devicePowerIrp)
    {
      var ignored, published := Distribution.SetDistribution(store, identity, env.written);
      store := published;
    }

    // ------------------------------------------------------------ power transitions

    /** The acquiring half of FdoD3ToD0: run the steps in order and stop at
      the first that fails; `reached` counts the steps that succeeded. */
    method AcquireAll(env: Environment) returns (reached: nat, status: Status)
      requires Distribution.ValidIdentity(identity) && Distribution.WellFormedDirectory(env.directory)
      requires !suspendCallback
      modifies this
      ensures reached == FirstFailure(env) - 1
      ensures status == if reached == 5 then Success else StepStatus(env, reached + 1)
      ensures calls == old(calls) + AcquireSteps[..reached]
      ensures suspendCallback == (reached >= 3)
      ensures store == if reached < 2 then old(store)
                       else
                         var published := Distribution.SetResult(old(store), identity, env.written).1;
                         if reached == 2 then Distribution.ClearResult(published, identity.vendor, env.directory, env.allocOk)
                         else published
      ensures unchanged(this`enabled, this`devicePowerState, this`devicePowerIrp, this`alerted, this`wakeSignalled)
    {
      reached := 0;
      status := Acquire(StoreAcquire, env.storeAcquire);
      if !NtSuccess(status) {
        return;
      }
      reached := 1;
      status := Acquire(SuspendAcquire, env.suspendAcquire);
      if !NtSuccess(status) {
        return;
      }
      reached := 2;
      status := SetDistribution(env);
      if !NtSuccess(status) {
        return;
      }
      reached := 3;
      status := Acquire(HidAcquire, env.hidAcquire);
      if !NtSuccess(status) {
        return;
      }
      reached := 4;
      status := Acquire(HidEnable, env.hidEnable);
      if !NtSuccess(status) {
        return;
      }
      reached := 5;
      status := Success;
    }

    /** The goto ladder of FdoD3ToD0: entered at the label of the failed
      step, it undoes the steps that succeeded, last first. */
    method Unwind(reached: nat, env: Environment)
      requires reached <= 4 && Distribution.WellFormedDirectory(env.directory)
      requires suspendCallback == (reached >= 3)
      modifies this
      ensures calls == old(calls) + Rollback(AcquireSteps[..reached])
      ensures !suspendCallback
      ensures store == if reached >= 3 then Distribution.ClearResult(old(store), identity.vendor, env.directory, env.allocOk)
                       else old(store)
      ensures unchanged(this`enabled, this`devicePowerState, this`devicePowerIrp, this`alerted, this`wakeSignalled)
    {
      RollbackOfSteps(reached + 1);
      if reached >= 1 {
        if reached >= 2 {
          if reached >= 3 {
            if reached >= 4 {
              Release(HidRelease);
            }
            ClearDistribution(env);
          }
          Release(SuspendRelease);
        }
        Release(StoreRelease);
      }
    }

    /** FdoD3ToD0: acquire the five steps in order; on a failure, fall
      through the ladder undoing the steps that succeeded, last first. */
    method D3ToD0(env: Environment) returns (status: Status)
      requires Valid() && devicePowerState == D3 && Distribution.WellFormedDirectory(env.directory)
      modifies this
      ensures Valid() && PowerConsistent()
      ensures status == D3ToD0Status(old(enabled), env)
      ensures calls == old(calls) + D3ToD0Log(old(enabled), env)
      ensures store == D3ToD0Store(old(store), identity, old(enabled), env)
      ensures NtSuccess(status) ==> enabled && devicePowerState == D0 && suspendCallback
      ensures !NtSuccess(status) ==> !enabled && devicePowerState == D3 && !suspendCallback
      ensures unchanged(this`devicePowerIrp, this`alerted, this`wakeSignalled)
    {
      if enabled {
        devicePowerState := D0;
        return Success;
      }
      ghost var before := calls;
      var reached;
      reached, status := AcquireAll(env);
      if NtSuccess(status) {
        enabled := true;
        devicePowerState := D0;
        PowerUpHoldsAll(before);
        return Success;
      }
      Unwind(reached, env);
      PowerUpFailureReleasesAll(before, reached + 1);
    }

    /** FdoD0ToD3: always ends in D3; when enabled, undoes every step of
      FdoD3ToD0 in reverse order and clears the distribution entry. */
    method D0ToD3(env: Environment)
      requires Valid() && Distribution.WellFormedDirectory(env.directory)
      modifies this
      ensures Valid() && PowerConsistent()
      ensures devicePowerState == D3 && !enabled && !suspendCallback
      ensures calls == old(calls) + D0ToD3Log(old(enabled))
      ensures store == D0ToD3Store(old(store), identity.vendor, old(enabled), env)
      ensures unchanged(this`devicePowerIrp, this`alerted, this`wakeSignalled)
    {
      devicePowerState := D3;
      if !enabled {
        return;
      }
      ghost var before := calls;
      Release(HidDisable);
      Release(HidRelease);
      ClearDistribution(env);
      Release(SuspendRelease);
      Release(StoreRelease);
      enabled := false;
      PowerDownReleasesAll(before);
      assert calls == before + D0ToD3Log(true);
    }

    // ------------------------------------------------------------ PnP

    /** FdoStartDevice: forward the start request; once the lower driver has
      started, power up. */
    method StartDevice(env: Environment) returns (status: Status)
      requires Valid() && PowerConsistent() && devicePowerState == D3 && Distribution.WellFormedDirectory(env.directory)
      modifies this
      ensures Valid() && PowerConsistent()
      ensures var e := PowerUpEffect(old(devicePowerState), old(enabled), old(store), identity, env);
              && Shows(e, old(calls))
              && status == (if NtSuccess(e.outcome.status) then env.lower else e.outcome.status)
      ensures NtSuccess(status) <==> NtSuccess(env.lower) && NtSuccess(D3ToD0Status(old(enabled), env))
      ensures NtSuccess(status) ==> devicePowerState == D0 && enabled
      ensures !NtSuccess(status) ==> devicePowerState == D3 && !enabled
      ensures unchanged(this`devicePowerIrp, this`alerted, this`wakeSignalled)
    {
      if !NtSuccess(env.lower) {
        return env.lower;
      }
      status := D3ToD0(env);
      if !NtSuccess(status) {
        return status;
      }
      status := env.lower;
    }

    /** FdoStopDevice: power down, mark the request successful and pass it on. */
    method StopDevice(env: Environment) returns (status: Status)
      requires Valid() && Distribution.WellFormedDirectory(env.directory)
      modifies this
      ensures Valid() && PowerConsistent() && devicePowerState == D3 && !enabled
      ensures calls == old(calls) + D0ToD3Log(old(enabled))
      ensures store == D0ToD3Store(old(store), identity.vendor, old(enabled), env)
      ensures status == env.lower
      ensures unchanged(this`devicePowerIrp, this`alerted, this`wakeSignalled)
    {
      D0ToD3(env);
      status := env.lower;
    }

    /** FdoRemoveDevice: power down, pass the request on, then tear down. */
    method RemoveDevice(env: Environment) returns (status: Status)
      requires Valid() && Distribution.WellFormedDirectory(env.directory)
      modifies this, pending
      ensures Zeroed() && status == env.lower
      ensures calls == old(calls) + D0ToD3Log(old(enabled)) && Replay({}, calls) == Some({})
      ensures store == D0ToD3Store(old(store), identity.vendor, old(enabled), env)
      ensures pending.outcomes == old(pending.outcomes)
    {
      D0ToD3(env);
      status := env.lower;
      Destroy();
    }

    /** FdoDispatchPnp. */
    method DispatchPnp(minor: Routing.PnpMinor, env: Environment) returns (status: Status)
      requires Valid() && PowerConsistent() && Distribution.WellFormedDirectory(env.directory)
      requires minor == Routing.StartDevice ==> devicePowerState == D3
      modifies this, pending
      ensures minor != Routing.RemoveDevice ==> Valid() && PowerConsistent()
      ensures minor == Routing.RemoveDevice ==> Zeroed()
      ensures Routing.RoutePnp(minor) in {Routing.SucceedAndPassDown, Routing.PassDownUntouched} ==>
                status == env.lower && calls == old(calls) && store == old(store) &&
                enabled == old(enabled) && devicePowerState == old(devicePowerState)
      ensures minor == Routing.StartDevice ==>
                var e := PowerUpEffect(old(devicePowerState), old(enabled), old(store), identity, env);
                && Shows(e, old(calls))
                && status == (if NtSuccess(e.outcome.status) then env.lower else e.outcome.status)
      ensures minor in {Routing.StopDevice, Routing.RemoveDevice} ==>
                && status == env.lower && !enabled
                && calls == old(calls) + D0ToD3Log(old(enabled))
                && store == D0ToD3Store(old(store), identity.vendor, old(enabled), env)
      ensures minor == Routing.StopDevice ==> devicePowerState == D3
    {
      match minor
      case StartDevice => status := StartDevice(env);
      case RemoveDevice => status := RemoveDevice(env);
      case StopDevice => status := StopDevice(env);
      case _ => status := env.lower;
    }

    // ------------------------------------------------------------ device power

    /** __FdoSetDevicePowerUp: forward the request; once the lower driver has
      powered up, run FdoD3ToD0 and complete the request with its status. */
    method SetDevicePowerUp(env: Environment) returns (outcome: PowerOutcome)
      requires Valid() && PowerConsistent() && devicePowerState == D3 && Distribution.WellFormedDirectory(env.directory)
      modifies this
      ensures Valid() && PowerConsistent()
      ensures var e := PowerUpEffect(old(devicePowerState), old(enabled), old(store), identity, env);
              outcome == e.outcome && Shows(e, old(calls))
      ensures !NtSuccess(env.lower) ==> outcome == CompletedHere(env.lower) && store == old(store)
      ensures outcome.CompletedHere? && (NtSuccess(outcome.status) <==> devicePowerState == D0)
      ensures unchanged(this`devicePowerIrp, this`alerted, this`wakeSignalled)
    {
      if !NtSuccess(env.lower) {
        return CompletedHere(env.lower);
      }
      var status := D3ToD0(env);
      return CompletedHere(status);
    }

    /** __FdoSetDevicePowerDown: run FdoD0ToD3 if in D0, then pass the
      request on. */
    method SetDevicePowerDown(env: Environment) returns (outcome: PowerOutcome)
      requires Valid() && PowerConsistent() && Distribution.WellFormedDirectory(env.directory)
      modifies this
      ensures Valid() && PowerConsistent()
      ensures var e := PowerDownEffect(old(devicePowerState), old(enabled), old(store), identity, env);
              outcome == e.outcome && Shows(e, old(calls))
      ensures outcome == PassedDown(env.lower)
      ensures old(devicePowerState) == D0 ==> devicePowerState == D3 && !enabled
      ensures unchanged(this`devicePowerIrp, this`alerted, this`wakeSignalled)
    {
      if devicePowerState == D0 {
        D0ToD3(env);
      }
      return PassedDown(env.lower);
    }

    /** __FdoSetDevicePower: pass through on an equal state, power up towards
      D0, power down towards D3. */
    method SetDevicePower(irp: PowerIrp, env: Environment) returns (outcome: PowerOutcome)
      requires Valid() && PowerConsistent() && Distribution.WellFormedDirectory(env.directory)
      requires Routing.WorkerRequest(irp.request) && irp.request.deviceState in {D0, D3}
      modifies this
      ensures Valid() && PowerConsistent()
      ensures var e := SetDevicePowerEffect(irp.request.deviceState, old(devicePowerState), old(enabled), old(store), identity, env);
              outcome == e.outcome && Shows(e, old(calls))
      ensures var route := Routing.SetPowerRoute(irp.request.deviceState, old(devicePowerState));
              && (route == Routing.PassThrough ==>
                    outcome == PassedDown(env.lower) && calls == old(calls) && devicePowerState == old(devicePowerState))
              && (route == Routing.PowerUp ==>
                    old(devicePowerState) == D3 && outcome.CompletedHere? &&
                    (NtSuccess(outcome.status) <==> devicePowerState == D0))
              && (route == Routing.PowerDown ==>
                    old(devicePowerState) == D0 && outcome == PassedDown(env.lower) &&
                    devicePowerState == D3 && calls == old(calls) + D0ToD3Log(old(enabled)))
      ensures unchanged(this`devicePowerIrp, this`alerted, this`wakeSignalled)
    {
      Routing.SetPowerRouteBetweenD0AndD3(irp.request.deviceState, devicePowerState);
      var route := Routing.SetPowerRoute(irp.request.deviceState, devicePowerState);
      if route == Routing.PassThrough {
        outcome := PassedDown(env.lower);
      } else if route == Routing.PowerUp {
        outcome := SetDevicePowerUp(env);
      } else {
        outcome := SetDevicePowerDown(env);
      }
    }

    /** One turn of FdoDevicePower: wait while the slot is empty and the
      event unsignalled; stop when alerted; otherwise take the request out
      of the slot, empty the slot, and handle it. */
    method DevicePowerStep(env: Environment) returns (step: WorkerStep)
      requires Valid() && PowerConsistent() && Distribution.WellFormedDirectory(env.directory)
      requires devicePowerIrp.Some? ==> devicePowerIrp.value.request.deviceState in {D0, D3}
      modifies this
      ensures Valid() && PowerConsistent()
      ensures alerted == old(alerted) && wakeSignalled == (old(wakeSignalled) && old(devicePowerIrp).Some?)
      ensures old(devicePowerIrp).None? && !old(wakeSignalled) ==> step == Blocked
      ensures old(alerted) && (old(devicePowerIrp).Some? || old(wakeSignalled)) ==> step == Exited
      ensures !old(alerted) && old(devicePowerIrp).None? && old(wakeSignalled) ==> step == Idle
      ensures !step.Handled? ==>
                devicePowerIrp == old(devicePowerIrp) && calls == old(calls) && store == old(store) &&
                devicePowerState == old(devicePowerState) && enabled == old(enabled)
      ensures old(devicePowerIrp).Some? && !old(alerted) ==>
                var irp := old(devicePowerIrp).value;
                var e := SetDevicePowerEffect(irp.request.deviceState, old(devicePowerState), old(enabled), old(store), identity, env);
                && step == Handled(irp.id, e.outcome)
                && devicePowerIrp.None?
                && Shows(e, old(calls))
    {
      if devicePowerIrp.None? {
        if !wakeSignalled {
          return Blocked;
        }
        wakeSignalled := false;
      }
      if alerted {
        return Exited;
      }
      var irp := devicePowerIrp;
      if irp.None? {
        return Idle;
      }
      devicePowerIrp := None;
      var outcome := SetDevicePower(irp.value, env);
      return Handled(irp.value.id, outcome);
    }

    /** FdoDispatchPower: park a device-state SET_POWER below shutdown in the
      empty slot and wake the worker; pass everything else down. */
    method DispatchPower(irp: PowerIrp, env: Environment) returns (status: Status)
      requires Valid()
      requires Routing.RoutePower(irp.request) == Routing.ToWorker ==> devicePowerIrp.None?
      modifies this
      ensures Valid()
      ensures Routing.RoutePower(irp.request) == Routing.ToWorker ==>
                status == Pending && devicePowerIrp == Some(irp) && wakeSignalled
      ensures Routing.RoutePower(irp.request) == Routing.PassDown ==>
                status == env.lower && devicePowerIrp == old(devicePowerIrp) && wakeSignalled == old(wakeSignalled)
      ensures calls == old(calls) && store == old(store) && enabled == old(enabled) &&
              devicePowerState == old(devicePowerState)
    {
      Routing.RoutePowerToWorker(irp.request);
      if irp.request.minor != Routing.SetPower {
        return env.lower;
      }
      if !irp.request.action.BelowShutdown() {
        return env.lower;
      }
      if irp.request.powerType == DevicePowerStateType {
        devicePowerIrp := Some(irp);
        wakeSignalled := true;
        return Pending;
      }
      status := env.lower;
    }

    // ------------------------------------------------------------ reads

    /** FdoDispatchInternal: a read-report request joins the pending reads
      and the backend is asked for a report; every other code is answered
      from the HID interface (or refused). */
    method DispatchInternal(code: Routing.Ioctl, id: ReadQueue.ReqId, capacity: nat, hidStatus: Status, returned: nat)
      returns (result: Routing.InternalOutcome)
      requires Valid()
      requires code == Routing.ReadReport ==> id !in pending.list
      modifies pending
      ensures Valid()
      ensures result == Routing.DispatchInternal(code, hidStatus, returned)
      ensures pending.Model() == if code == Routing.ReadReport then ReadQueue.Enqueued(old(pending.Model()), id, capacity)
                               else old(pending.Model())
    {
      result := Routing.DispatchInternal(code, hidStatus, returned);
      if code == Routing.ReadReport {
        pending.InsertIrp(id, capacity);
      }
    }

    /** FdoHidCallback: complete the oldest pending read with the report. */
    method HidCallback(report: seq<byte>) returns (completed: bool)
      requires Valid()
      modifies pending
      ensures Valid()
      ensures (pending.Model(), completed) == ReadQueue.Delivered(old(pending.Model()), report)
    {
      completed := pending.HidCallback(report);
    }

    /** Cancellation of a pending read. */
    method CancelRead(id: ReadQueue.ReqId)
      requires Valid()
      modifies pending
      ensures Valid()
      ensures pending.Model() == ReadQueue.Cancelled(old(pending.Model()), id)
    {
      pending.CancelIrp(id);
    }

    // ------------------------------------------------------------ creation and teardown

    /** The status of step i (1-based) of FdoCreate. */
    static function CreateStepStatus(answers: CreateAnswers, i: nat): Status
      requires 1 <= i <= 5
    {
      if i == 1 then answers.thread
      else if i == 2 then answers.csq
      else if i == 3 then answers.suspendQuery
      else if i == 4 then answers.storeQuery
      else answers.hidQuery
    }

    /** The set-up half of FdoCreate: attach, enter D3, then run the five
      fallible steps in order and stop at the first that fails; `reached`
      counts the steps that succeeded. */
    method CreateSteps(answers: CreateAnswers) returns (reached: nat, status: Status)
      requires ZeroedBesidesPowerState()
      modifies this
      ensures reached <= 5 && (forall i :: 1 <= i <= reached ==> NtSuccess(CreateStepStatus(answers, i)))
      ensures reached < 5 ==> status == CreateStepStatus(answers, reached + 1) && !NtSuccess(status)
      ensures reached == 5 ==> status == Success
      ensures attached && devicePowerState == D3
      ensures thread == (reached >= 1) && queueReady == (reached >= 2) && suspendInterface == (reached >= 3)
      ensures storeInterface == (reached >= 4) && hidInterface == (reached >= 5)
      ensures unchanged(this`enabled, this`suspendCallback, this`devicePowerIrp, this`calls, this`store)
    {
      attached := true;
      devicePowerState := D3;
      reached := 0;
      status := answers.thread;
      if !NtSuccess(status) {
        return;
      }
      thread := true;
      alerted := false;
      wakeSignalled := false;
      reached := 1;
      status := answers.csq;
      if !NtSuccess(status) {
        return;
      }
      queueReady := true;
      reached := 2;
      status := answers.suspendQuery;
      if !NtSuccess(status) {
        return;
      }
      suspendInterface := true;
      reached := 3;
      status := answers.storeQuery;
      if !NtSuccess(status) {
        return;
      }
      storeInterface := true;
      reached := 4;
      status := answers.hidQuery;
      if !NtSuccess(status) {
        return;
      }
      hidInterface := true;
      reached := 5;
      status := Success;
    }

    /** The goto ladder of FdoCreate: zero what the steps that succeeded set
      up, last first; the thread is alerted, joined and forgotten. The
      power state is not touched. */
    method CreateUnwind(reached: nat)
      requires reached <= 4
      requires thread == (reached >= 1) && queueReady == (reached >= 2) && suspendInterface == (reached >= 3)
      requires storeInterface == (reached >= 4) && !hidInterface
      modifies this
      ensures !attached && !thread && !queueReady && !suspendInterface && !storeInterface && !hidInterface
      ensures unchanged(this`enabled, this`suspendCallback, this`devicePowerIrp, this`calls, this`store,
                        this`devicePowerState)
    {
      if reached >= 4 {
        storeInterface := false;
      }
      if reached >= 3 {
        suspendInterface := false;
      }
      if reached >= 2 {
        queueReady := false;
      }
      if reached >= 1 {
        alerted := true;
        thread := false;
      }
      attached := false;
    }

    /** FdoCreate as written: on failure the ladder undoes what was set up,
      but DevicePowerState, set to D3 first, is never reset, so the final
      IsZeroMemory assertion does not hold. */
    method CreateAsWritten(answers: CreateAnswers) returns (status: Status)
      requires Zeroed() && pending.Valid() && Distribution.ValidIdentity(identity) && calls == []
      modifies this
      ensures NtSuccess(status) <==> forall i :: 1 <= i <= 5 ==> NtSuccess(CreateStepStatus(answers, i))
      ensures NtSuccess(status) ==>
                && Valid() && PowerConsistent() && devicePowerState == D3 && !enabled
                && attached && thread && queueReady && suspendInterface && storeInterface && hidInterface
      ensures !NtSuccess(status) ==> ZeroedBesidesPowerState() && devicePowerState == D3 && !Zeroed()
      ensures calls == old(calls) && store == old(store)
    {
      var reached;
      reached, status := CreateSteps(answers);
      if reached == 5 {
        return;
      }
      CreateUnwind(reached);
    }

    /** FdoCreate with the power state reset on the failure path: on failure
      the extension is all zero again, as the final assertion demands. */
    method Create(answers: CreateAnswers) returns (status: Status)
      requires Zeroed() && pending.Valid() && Distribution.ValidIdentity(identity) && calls == []
      modifies this
      ensures NtSuccess(status) <==> forall i :: 1 <= i <= 5 ==> NtSuccess(CreateStepStatus(answers, i))
      ensures NtSuccess(status) ==>
                && Valid() && PowerConsistent() && devicePowerState == D3 && !enabled
                && attached && thread && queueReady && suspendInterface && storeInterface && hidInterface
      ensures !NtSuccess(status) ==> Zeroed()
      ensures calls == old(calls) && store == old(store)
    {
      status := CreateAsWritten(answers);
      if !NtSuccess(status) {
        devicePowerState := Unspecified;
      }
    }

    /** FdoDestroy: zero the interfaces, stop the worker, empty the slot, reset
      the power state, and zero the queue and list. Reads still in the list
      are dropped without being completed. */
    method Destroy()
      requires !enabled && !suspendCallback
      modifies this, pending
      ensures Zeroed() && alerted
      ensures pending.outcomes == old(pending.outcomes)
      ensures calls == old(calls) && store == old(store)
    {
      hidInterface := false;
      suspendInterface := false;
      storeInterface := false;
      alerted := true;
      thread := false;
      devicePowerIrp := None;
      devicePowerState := Unspecified;
      queueReady := false;
      pending.Reset();
      attached := false;
    }
  }
}
