/** Kernel vocabulary used by the XENHID function driver (src/xenhid/fdo.c):
    NTSTATUS values, the power enumerations of the Windows power manager, and
    the small wrapper types the model needs. */
module Kernel {

  newtype byte = x: int | 0 <= x < 256

  datatype Option<T> = None | Some(value: T)

  /** The NTSTATUS values the driver produces or tests for; every other status a
      service can return is `Failure(code)`. */
  datatype Status =
    | Success
    | Pending
    | Unsuccessful
    | ObjectNameNotFound
    | DeviceNotReady
    | NotSupported
    | Failure(code: nat)

  /** NT_SUCCESS: the severity bits say "success" (STATUS_PENDING included). */
  predicate NtSuccess(s: Status) {
    s.Success? || s.Pending?
  }

  /** DEVICE_POWER_STATE; the driver compares states with `<` and `>`. */
  datatype DevicePowerState = Unspecified | D0 | D1 | D2 | D3 {
    function Level(): nat {
      match this
      case Unspecified => 0
      case D0 => 1
      case D1 => 2
      case D2 => 3
      case D3 => 4
    }
  }

  /** POWER_ACTION, in declaration order; only the comparison with
      PowerActionShutdown matters to the driver. */
  datatype PowerAction =
    | ActionNone | ActionReserved | ActionSleep | ActionHibernate
    | ActionShutdown | ActionShutdownReset | ActionShutdownOff
    | ActionWarmEject | ActionDisplayOff
  {
    function Level(): nat {
      match this
      case ActionNone => 0
      case ActionReserved => 1
      case ActionSleep => 2
      case ActionHibernate => 3
      case ActionShutdown => 4
      case ActionShutdownReset => 5
      case ActionShutdownOff => 6
      case ActionWarmEject => 7
      case ActionDisplayOff => 8
    }

    predicate BelowShutdown() {
      Level() < ActionShutdown.Level()
    }
  }

  /** POWER_STATE_TYPE. */
  datatype PowerStateType = SystemPowerState | DevicePowerStateType
}
