/** The device registry as the input daemon sees it: devices, their
    controls in the active set, raw input events and the three registry
    maps (`joysticks`, `trackjoysticks`, `trackcontrollers`). */
module DeviceModel {
  import opened Common

  /** Axis throttle modes. Only "normal or not" matters to the daemon. */
  datatype Throttle =
    | NormalThrottle
    | NegativeThrottle
    | PositiveThrottle
    | NegativeHalfThrottle
    | PositiveHalfThrottle

  /** One axis of the active set: its throttle, dead zone, the value the
      axis reports as its release value, and its current raw value. */
  datatype AxisInfo = AxisInfo(
    throttle: Throttle,
    deadZone: int,
    releaseValue: int,
    currentValue: int)

  /** A connected device. `axes`, `buttons` and `hats` hold the controls of
      the active set (a missing key is a null control); `buttons` maps to the
      pressed state, `hats` to the current hat value. The raw counts size the
      per-device bit arrays; `numberAxes` is the device's reported axis count. */
  datatype Device = Device(
    id: int,
    isController: bool,
    axes: map<int, AxisInfo>,
    buttons: map<int, bool>,
    hats: map<int, int>,
    rawAxes: nat,
    rawHats: nat,
    rawButtons: nat,
    numberAxes: int)

  datatype Registry = Registry(
    joysticks: map<int, Device>,
    trackjoysticks: map<int, Device>,
    trackcontrollers: map<int, Device>)

  /** Raw backend events. `Unhandled` stands for every other event type the
      backend queue may hold. Controller axis numbers follow the backend's
      game-controller axis order, in which 4 and 5 are the triggers. */
  datatype Event =
    | JoyButton(which: int, button: int, down: bool)
    | JoyAxis(which: int, axis: int, value: int)
    | JoyHat(which: int, hat: int, value: int)
    | ControllerAxis(which: int, axis: int, value: int)
    | ControllerButton(which: int, button: int, down: bool)
    | DeviceAdded(which: int)
    | DeviceRemoved(which: int)
    | Quit
    | Unhandled(kind: int)

  const ControllerAxisTriggerLeft: int := 4
  const ControllerAxisTriggerRight: int := 5

  /** Raw value a controller trigger reports when released. */
  const GameControllerTriggerRelease: int := 16384

  predicate IsTrigger(axis: int) {
    axis == ControllerAxisTriggerLeft || axis == ControllerAxisTriggerRight
  }

  /** A sample on the dead-zone boundary counts as inside the dead zone. */
  predicate InDeadZone(a: AxisInfo, value: int) {
    (if value < 0 then -value else value) <= a.deadZone
  }

  predicate AxisActive(d: Device, i: int) {
    i in d.axes && !InDeadZone(d.axes[i], d.axes[i].currentValue)
  }

  predicate ButtonActive(d: Device, i: int) {
    i in d.buttons && d.buttons[i]
  }

  predicate HatActive(d: Device, i: int) {
    i in d.hats && d.hats[i] != 0
  }
}
