/**
 * The door controller: a two-state door driven by a servo.  The servo write is
 * an oracle (`writeOk`: the assignment to the servo did not raise); the GPIO
 * library's presence and the servo's construction are the controller's
 * configuration.
 */
module Iot {

  datatype DoorState = Opened | Closed

  /** The status string the controller reports. */
  function StatusText(s: DoorState): (t: string)
    ensures t == "opened" || t == "closed"
  {
    match s
    case Opened => "opened"
    case Closed => "closed"
  }

  /**
   * `gpio`: the GPIO and serial libraries imported (otherwise the controller
   * simulates); `servo`: a servo object was constructed.
   */
  datatype Controller = Controller(gpio: bool, servo: bool, state: DoorState)

  /** A servo is only ever constructed when the GPIO library is present. */
  predicate Valid(c: Controller)
  {
    c.servo ==> c.gpio
  }

  /** `DoorController()`: the door starts closed; the servo exists only if GPIO is present and its constructor succeeded. */
  function NewController(gpio: bool, servoBuilt: bool): (c: Controller)
    ensures Valid(c)
    ensures c.state == Closed
    ensures c.gpio == gpio
    ensures c.servo <==> gpio && servoBuilt
  {
    Controller(gpio, gpio && servoBuilt, Closed)
  }

  /** `set_servo_angle`: without a servo the movement is simulated and succeeds. */
  function SetServoAngle(c: Controller, writeOk: bool): bool
  {
    if !c.servo then true else writeOk
  }

  /** The controller after an operation, and the status string it returned. */
  datatype Actuation = Actuation(controller: Controller, reported: string)

  /** `open_door`: the door becomes opened exactly when the servo step succeeds. */
  function OpenDoor(c: Controller, writeOk: bool): (r: Actuation)
    ensures r.reported == StatusText(r.controller.state)
    ensures SetServoAngle(c, writeOk) ==> r.controller == c.(state := Opened)
    ensures !SetServoAngle(c, writeOk) ==> r.controller == c
  {
    var c' := if SetServoAngle(c, writeOk) then c.(state := Opened) else c;
    Actuation(c', StatusText(c'.state))
  }

  /** `close_door`: the door becomes closed exactly when the servo step succeeds. */
  function CloseDoor(c: Controller, writeOk: bool): (r: Actuation)
    ensures r.reported == StatusText(r.controller.state)
    ensures SetServoAngle(c, writeOk) ==> r.controller == c.(state := Closed)
    ensures !SetServoAngle(c, writeOk) ==> r.controller == c
  {
    var c' := if SetServoAngle(c, writeOk) then c.(state := Closed) else c;
    Actuation(c', StatusText(c'.state))
  }

  /**
   * `get_door_status`: with GPIO present, the stored status; in simulation a
   * random pick, here the oracle `coin`.
   */
  function GetDoorStatus(c: Controller, coin: bool): (s: string)
    ensures c.gpio ==> s == StatusText(c.state)
    ensures s == "opened" || s == "closed"
  {
    if !c.gpio then (if coin then "opened" else "closed") else StatusText(c.state)
  }

  /** Every operation keeps the controller valid and its configuration unchanged. */
  lemma OperationsPreserveValid(c: Controller, writeOk: bool)
    requires Valid(c)
    ensures Valid(OpenDoor(c, writeOk).controller) && Valid(CloseDoor(c, writeOk).controller)
    ensures OpenDoor(c, writeOk).controller.servo == c.servo && OpenDoor(c, writeOk).controller.gpio == c.gpio
    ensures CloseDoor(c, writeOk).controller.servo == c.servo && CloseDoor(c, writeOk).controller.gpio == c.gpio
  {
  }

  /** Closing a closed door reports "closed" and changes nothing, whatever the servo does. */
  lemma CloseIdempotent(c: Controller, writeOk: bool)
    requires c.state == Closed
    ensures CloseDoor(c, writeOk) == Actuation(c, "closed")
  {
  }

  /** Opening twice lands where one open with either servo step succeeding lands; in particular twice equals once. */
  lemma OpenTwice(c: Controller, first: bool, second: bool)
    ensures OpenDoor(OpenDoor(c, first).controller, second).controller == OpenDoor(c, first || second).controller
    ensures OpenDoor(OpenDoor(c, first).controller, first) == OpenDoor(c, first)
  {
  }

  /** Without a servo, open and close always reach their target. */
  lemma NoServoAlwaysMoves(c: Controller, writeOk: bool)
    requires !c.servo
    ensures OpenDoor(c, writeOk).reported == "opened"
    ensures CloseDoor(c, writeOk).reported == "closed"
  {
  }
}
