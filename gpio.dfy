/**
  The host-side GPIO simulator of src/host/hardware_gpio/gpio.c: 32 pins,
  each with a stored output value, an externally applied value, a pull
  setting and a direction, and a list of listeners that are called with
  the new level whenever an operation changes the level the pin reads.

  A listener's callback is opaque; the model records each call it would
  receive, in order, in `notified`.
*/
module Gpio {
  /** `gpios[32]`. */
  const PinCount: nat := 32

  type bit = x: int | 0 <= x < 2

  /** `GPIO_NO_PULL`, `GPIO_PULL_UP`, `GPIO_PULL_DOWN`. */
  datatype Pull = NoPull | Up | Down

  /** `GPIO_INPUT`, `GPIO_OUTPUT`. */
  datatype Direction = Input | Output

  /** What the outside world does to a pin (`gpio_drive_t`). */
  datatype ExternalDrive = Float | ExtPullUp | ExtPullDown | DriveLow | DriveHigh

  /** A registered callback with its `user` pointer. */
  datatype Listener = Listener(callback: nat, user: nat)

  /** `struct gpio_entry`: the listener list, newest first, and the bit fields. */
  datatype Pin = Pin(
    listeners: seq<Listener>,
    value: bit,
    externalValue: bit,
    externalDrive: bool,
    pull: Pull,
    direction: Direction)

  /** One call of a listener's callback: `callback(user, gpio, value)`. */
  datatype Notification = Notification(listener: Listener, gpio: nat, value: bit)

  /** The all-zero pin of a zero-initialised `gpios` array. */
  const ResetPin: Pin := Pin([], 0, 0, false, NoPull, Input)

  /**
    `evaluate_gpio_value`: an output reads its stored value; an input
    reads the external value while something drives it, and otherwise 1
    exactly when it is pulled up.
  */
  function Level(p: Pin): bit
  {
    if p.direction == Output then p.value
    else if p.externalDrive then p.externalValue
    else if p.pull == Up then 1
    else 0
  }

  /** The level as `gpio_get` reports it. */
  predicate High(p: Pin)
  {
    Level(p) != 0
  }

  /** The calls one notification round makes: every listener, in list order, with `value`. */
  function Calls(ls: seq<Listener>, gpio: nat, value: bit): (r: seq<Notification>)
    ensures |r| == |ls|
    ensures forall k :: 0 <= k < |ls| ==> r[k] == Notification(ls[k], gpio, value)
  {
    seq(|ls|, k requires 0 <= k < |ls| => Notification(ls[k], gpio, value))
  }

  /** `propagate_if_needed`: the calls made when pin `gpio` is now `p` and read `oldValue` before. */
  function Notifications(p: Pin, gpio: nat, oldValue: bit): seq<Notification>
  {
    if Level(p) != oldValue then Calls(p.listeners, gpio, Level(p)) else []
  }

  /** The pull `gpio_set_pulls` selects. */
  function PullFor(up: bool, down: bool): Pull
  {
    if up then Up else if down then Down else NoPull
  }

  /** What `gpio_set_external_drive` does to a pin. */
  function ApplyDrive(p: Pin, d: ExternalDrive): Pin
  {
    match d
    case Float => p.(externalDrive := false)
    case ExtPullUp => p.(externalDrive := true, externalValue := 1)
    case DriveHigh => p.(externalDrive := true, externalValue := 1)
    case ExtPullDown => p.(externalDrive := true, externalValue := 0)
    case DriveLow => p.(externalDrive := true, externalValue := 0)
  }

  /**
    The level rule: an output reads its stored bit; a driven input reads
    what drives it; an undriven input reads 1 under a pull-up and 0 under
    a pull-down or no pull at all.
  */
  lemma LevelRule(p: Pin)
    ensures p.direction == Output ==> (High(p) <==> p.value == 1)
    ensures p.direction == Input && p.externalDrive ==> (High(p) <==> p.externalValue == 1)
    ensures p.direction == Input && !p.externalDrive ==> (High(p) <==> p.pull == Up)
  {
  }

  /** Changing the pull of an output or of a driven input changes nothing anyone can read, so nobody is notified. */
  lemma PullIrrelevantWhenDriven(p: Pin, q: Pull, gpio: nat)
    requires p.direction == Output || p.externalDrive
    ensures Level(p.(pull := q)) == Level(p)
    ensures Notifications(p.(pull := q), gpio, Level(p)) == []
  {
  }

  /**
    `gpio_set_pulls`: up wins over down, neither selects no pull, and the
    result is always one of the three settings `gpio_pull_up`,
    `gpio_pull_down` and `gpio_disable_pulls` make.
  */
  lemma SetPullsPriority(up: bool, down: bool)
    ensures PullFor(up, down) == Up <==> up
    ensures PullFor(up, down) == Down <==> !up && down
    ensures PullFor(up, down) == NoPull <==> !up && !down
  {
  }

  /**
    Every external drive setting except FLOAT makes an undriven input
    read the value it applies, whatever the pull: the pull-up and
    drive-high settings read 1, the pull-down and drive-low ones 0.
  */
  lemma ExternalDriveWins(p: Pin, d: ExternalDrive)
    requires p.direction == Input && d != Float
    ensures High(ApplyDrive(p, d)) <==> d == ExtPullUp || d == DriveHigh
  {
  }

  /** `gpio_put` keeps the low bit of the value: an output then reads `value` modulo 2 (so -1 and 3 read high). */
  lemma PutKeepsLowBit(p: Pin, value: int)
    requires p.direction == Output
    ensures Level(p.(value := value % 2)) == value % 2
    ensures High(p.(value := -1 % 2)) && High(p.(value := 3 % 2)) && !High(p.(value := 2 % 2))
  {
  }

  /** A level that did not change notifies nobody; one that changed notifies every listener, newest first, with the new level. */
  lemma NotificationsOnChangeOnly(p: Pin, gpio: nat, oldValue: bit)
    ensures Level(p) == oldValue ==> Notifications(p, gpio, oldValue) == []
    ensures Level(p) != oldValue ==>
      && |Notifications(p, gpio, oldValue)| == |p.listeners|
      && forall k :: 0 <= k < |p.listeners| ==>
           Notifications(p, gpio, oldValue)[k] == Notification(p.listeners[k], gpio, Level(p))
  {
  }

  /** The 32 simulated pins and the listener calls made so far. */
  class GpioBank {
    const pins: array<Pin>
    var notified: seq<Notification>

    ghost predicate Valid()
    {
      pins.Length == PinCount
    }

    /** `gpios[32] = {0}`. */
    constructor ()
      ensures Valid() && fresh(pins) && notified == []
      ensures forall i :: 0 <= i < PinCount ==> pins[i] == ResetPin
    {
      pins := new Pin[PinCount](_ => ResetPin);
      notified := [];
    }

    /** `gpio_add_listener`: the new listener goes to the head of the pin's list. */
    method AddListener(gpio: nat, l: Listener)
      requires Valid() && gpio < PinCount
      modifies pins
      ensures pins[gpio] == old(pins[gpio]).(listeners := [l] + old(pins[gpio]).listeners)
      ensures forall i :: 0 <= i < PinCount && i != gpio ==> pins[i] == old(pins[i])
    {
      pins[gpio] := pins[gpio].(listeners := [l] + pins[gpio].listeners);
    }

    /** `propagate_if_needed`: walk the listener list when the level differs from `oldValue`. */
    method PropagateIfNeeded(gpio: nat, oldValue: bit)
      requires Valid() && gpio < PinCount
      modifies this`notified
      ensures notified == old(notified) + Notifications(pins[gpio], gpio, oldValue)
    {
      var newValue := Level(pins[gpio]);
      if newValue != oldValue {
        var ls := pins[gpio].listeners;
        var i := 0;
        while i < |ls|
          invariant 0 <= i <= |ls|
          invariant notified == old(notified) + Calls(ls[..i], gpio, newValue)
        {
          assert Calls(ls[..i + 1], gpio, newValue) == Calls(ls[..i], gpio, newValue) + [Notification(ls[i], gpio, newValue)];
          notified := notified + [Notification(ls[i], gpio, newValue)];
          i := i + 1;
        }
        assert ls[..i] == ls;
      }
    }

    /** Store `p` as pin `gpio`, then notify if its level changed. */
    method Update(gpio: nat, p: Pin)
      requires Valid() && gpio < PinCount
      modifies pins, this`notified
      ensures pins[gpio] == p
      ensures forall i :: 0 <= i < PinCount && i != gpio ==> pins[i] == old(pins[i])
      ensures notified == old(notified) + Notifications(p, gpio, Level(old(pins[gpio])))
    {
      var oldValue := Level(pins[gpio]);
      pins[gpio] := p;
      PropagateIfNeeded(gpio, oldValue);
    }

    /** `gpio_pull_up`. */
    method PullUp(gpio: nat)
      requires Valid() && gpio < PinCount
      modifies pins, this`notified
      ensures pins[gpio] == old(pins[gpio]).(pull := Up)
      ensures forall i :: 0 <= i < PinCount && i != gpio ==> pins[i] == old(pins[i])
      ensures notified == old(notified) + Notifications(pins[gpio], gpio, Level(old(pins[gpio])))
    {
      Update(gpio, pins[gpio].(pull := Up));
    }

    /** `gpio_pull_down`. */
    method PullDown(gpio: nat)
      requires Valid() && gpio < PinCount
      modifies pins, this`notified
      ensures pins[gpio] == old(pins[gpio]).(pull := Down)
      ensures forall i :: 0 <= i < PinCount && i != gpio ==> pins[i] == old(pins[i])
      ensures notified == old(notified) + Notifications(pins[gpio], gpio, Level(old(pins[gpio])))
    {
      Update(gpio, pins[gpio].(pull := Down));
    }

    /** `gpio_disable_pulls`. */
    method DisablePulls(gpio: nat)
      requires Valid() && gpio < PinCount
      modifies pins, this`notified
      ensures pins[gpio] == old(pins[gpio]).(pull := NoPull)
      ensures forall i :: 0 <= i < PinCount && i != gpio ==> pins[i] == old(pins[i])
      ensures notified == old(notified) + Notifications(pins[gpio], gpio, Level(old(pins[gpio])))
    {
      Update(gpio, pins[gpio].(pull := NoPull));
    }

    /** `gpio_set_pulls`. */
    method SetPulls(gpio: nat, up: bool, down: bool)
      requires Valid() && gpio < PinCount
      modifies pins, this`notified
      ensures pins[gpio] == old(pins[gpio]).(pull := PullFor(up, down))
      ensures forall i :: 0 <= i < PinCount && i != gpio ==> pins[i] == old(pins[i])
      ensures notified == old(notified) + Notifications(pins[gpio], gpio, Level(old(pins[gpio])))
    {
      Update(gpio, pins[gpio].(pull := PullFor(up, down)));
    }

    /** `gpio_put`: the 1-bit field keeps the low bit of `value`. */
    method Put(gpio: nat, value: int)
      requires Valid() && gpio < PinCount
      modifies pins, this`notified
      ensures pins[gpio] == old(pins[gpio]).(value := value % 2)
      ensures forall i :: 0 <= i < PinCount && i != gpio ==> pins[i] == old(pins[i])
      ensures notified == old(notified) + Notifications(pins[gpio], gpio, Level(old(pins[gpio])))
    {
      Update(gpio, pins[gpio].(value := value % 2));
    }

    /** `gpio_set_dir`. */
    method SetDir(gpio: nat, out: bool)
      requires Valid() && gpio < PinCount
      modifies pins, this`notified
      ensures pins[gpio] == old(pins[gpio]).(direction := if out then Output else Input)
      ensures forall i :: 0 <= i < PinCount && i != gpio ==> pins[i] == old(pins[i])
      ensures notified == old(notified) + Notifications(pins[gpio], gpio, Level(old(pins[gpio])))
    {
      Update(gpio, pins[gpio].(direction := if out then Output else Input));
    }

    /** `gpio_get`. */
    method Get(gpio: nat) returns (b: bool)
      requires Valid() && gpio < PinCount
      ensures b <==> High(pins[gpio])
    {
      b := Level(pins[gpio]) != 0;
    }

    /** `gpio_set_external_drive`: changes what an input reads but never notifies anyone. */
    method SetExternalDrive(gpio: nat, d: ExternalDrive)
      requires Valid() && gpio < PinCount
      modifies pins
      ensures pins[gpio] == ApplyDrive(old(pins[gpio]), d)
      ensures forall i :: 0 <= i < PinCount && i != gpio ==> pins[i] == old(pins[i])
    {
      pins[gpio] := ApplyDrive(pins[gpio], d);
    }
  }
}
