/** The dual-phase wheel of the robot controller: one TB6612FNG channel driven
    by a PWM pin and two inputs INA and INB, with the truth table
      INA  INB   effect
      LOW  LOW   brake
      LOW  HIGH  forward
      HIGH LOW   reverse
      HIGH HIGH  coast (not to be used)
    The starting duty of a speed level is `10*|speed|` plus a per-motor
    offset. This variant has no trim loop. Pin writes and the settle delay
    are returned as an event trace. */
module PhaseWheel {
  import opened Common
  import TickRing

  const MAX_FWD_SPEED: int := 20
  const MAX_REV_SPEED: int := -20
  const ADJ_DELAY: int := 200

  datatype Wheel = Wheel(
    ticks: TickRing.Sampler,   // _tickBuf, _tbix, _lastTickTime
    nextAdjTime: U32,          // initialised, never used by this variant
    speed: int,                // requested speed level, negative for reverse
    pwm: int,                  // current duty value
    initoff: int,              // additive duty offset for this motor
    name: string,
    debug: bool)

  datatype Step = Step(wheel: Wheel, events: seq<Event>)

  predicate Valid(w: Wheel) {
    && TickRing.Valid(w.ticks)
    && MAX_REV_SPEED <= w.speed <= MAX_FWD_SPEED
    && 0 <= w.pwm <= 255
  }

  /** The (INA, INB) levels `setSpeed` writes for a speed. */
  function Inputs(speed: int): (Level, Level) {
    (if speed >= 0 then LOW else HIGH, if speed <= 0 then LOW else HIGH)
  }

  /** The truth table: forward, reverse and brake are the only input states
      produced, each for exactly the matching sign of the speed. */
  lemma {:induction false} InputsFollowTruthTable(speed: int)
    ensures speed > 0 <==> Inputs(speed) == (LOW, HIGH)
    ensures speed < 0 <==> Inputs(speed) == (HIGH, LOW)
    ensures speed == 0 <==> Inputs(speed) == (LOW, LOW)
    ensures Inputs(speed) != (HIGH, HIGH)
  {
  }

  /** `setPWM`: stores the duty clamped to [0,255] and writes it out. */
  function SetPwm(w: Wheel, p: int): (r: Step)
    ensures 0 <= r.wheel.pwm <= 255
    ensures 0 <= p <= 255 ==> r.wheel.pwm == p
    ensures p < 0 ==> r.wheel.pwm == 0
    ensures p > 255 ==> r.wheel.pwm == 255
    ensures r.wheel == w.(pwm := r.wheel.pwm)
    ensures r.events == [AnalogWrite(PwmPin, r.wheel.pwm)]
  {
    var duty := if p < 0 then 0 else if p > 255 then 255 else p;
    Step(w.(pwm := duty), [AnalogWrite(PwmPin, duty)])
  }

  predicate Reverses(current: int, s: int) {
    (s > 0 && current < 0) || (s < 0 && current > 0)
  }

  /** `setSpeed`: on a reversal, duty 0 and a settle delay first; then the
      clamped speed, INA then INB, and the duty `10*|speed| + initoff`
      clamped to [0,255], also at speed 0. */
  function SetSpeed(w: Wheel, s: int): (r: Step)
    requires Valid(w)
    ensures Valid(r.wheel)
    ensures r.wheel.speed == Clamp(s, MAX_REV_SPEED, MAX_FWD_SPEED)
    ensures r.wheel.pwm == Clamp(10 * Abs(r.wheel.speed) + w.initoff, 0, 255)
    ensures r.wheel == w.(speed := r.wheel.speed, pwm := r.wheel.pwm)
    ensures var (ina, inb) := Inputs(r.wheel.speed);
            var pins := [DigitalWrite(InaPin, ina), DigitalWrite(InbPin, inb), AnalogWrite(PwmPin, r.wheel.pwm)];
            && (Reverses(w.speed, s) ==> r.events == [AnalogWrite(PwmPin, 0), Delay(ADJ_DELAY)] + pins)
            && (!Reverses(w.speed, s) ==> r.events == pins)
  {
    var stop := if Reverses(w.speed, s) then SetPwm(w, 0) else Step(w, []);
    var settle := if Reverses(w.speed, s) then [Delay(ADJ_DELAY)] else [];
    var speed := if s > MAX_FWD_SPEED then MAX_FWD_SPEED else if s < MAX_REV_SPEED then MAX_REV_SPEED else s;
    var ina := if speed >= 0 then LOW else HIGH;
    var inb := if speed <= 0 then LOW else HIGH;
    var start := SetPwm(stop.wheel.(speed := speed), 10 * Abs(speed) + w.initoff);
    Step(start.wheel, stop.events + settle + [DigitalWrite(InaPin, ina), DigitalWrite(InbPin, inb)] + start.events)
  }

  /** The constructor: empty tick buffer, then `setSpeed(0)` from speed 0,
      which brakes and applies the offset alone as duty. */
  function New(name: string, initoff: int, debug: bool): (r: Step)
    ensures Valid(r.wheel)
    ensures r.wheel.ticks == TickRing.Initial() && r.wheel.nextAdjTime == 0
    ensures r.wheel.speed == 0 && r.wheel.pwm == Clamp(initoff, 0, 255)
    ensures r.wheel.initoff == initoff && r.wheel.name == name && r.wheel.debug == debug
    ensures r.events == [DigitalWrite(InaPin, LOW), DigitalWrite(InbPin, LOW), AnalogWrite(PwmPin, r.wheel.pwm)]
  {
    SetSpeed(Wheel(TickRing.Initial(), 0, 0, 0, initoff, name, debug), 0)
  }

  /** The four-argument constructor: no offset, debug off. */
  function NewDefault(name: string): (r: Step)
    ensures r.wheel.initoff == 0 && r.wheel.pwm == 0 && !r.wheel.debug
  {
    New(name, 0, false)
  }

  /** The destructor: duty 0 and both inputs LOW (brake). */
  function Destroy(w: Wheel): seq<Event> {
    [AnalogWrite(PwmPin, 0), DigitalWrite(InaPin, LOW), DigitalWrite(InbPin, LOW)]
  }

  function Tick(w: Wheel, now: U32): (r: Wheel)
    requires Valid(w)
    ensures Valid(r)
    ensures r.ticks == TickRing.Tick(w.ticks, now)
    ensures r == w.(ticks := r.ticks)
  {
    w.(ticks := TickRing.Tick(w.ticks, now))
  }

  function AvgTickTime(w: Wheel): U16
    requires Valid(w)
  {
    TickRing.Average(w.ticks)
  }

  function SetLabel(w: Wheel, name: string): Wheel { w.(name := name) }
  function GetLabel(w: Wheel): string { w.name }
  function SetDebug(w: Wheel, debug: bool): Wheel { w.(debug := debug) }
  function GetDebug(w: Wheel): bool { w.debug }
  function SetInitOffset(w: Wheel, initoff: int): Wheel { w.(initoff := initoff) }
  function GetInitOffset(w: Wheel): int { w.initoff }

  /** Each getter returns what its setter stored, and each setter leaves the
      other two properties, and the motor state, alone. */
  lemma {:induction false} AccessorsRoundTrip(w: Wheel, name: string, debug: bool, initoff: int)
    ensures GetLabel(SetLabel(w, name)) == name
    ensures GetDebug(SetLabel(w, name)) == GetDebug(w) && GetInitOffset(SetLabel(w, name)) == GetInitOffset(w)
    ensures GetDebug(SetDebug(w, debug)) == debug
    ensures GetLabel(SetDebug(w, debug)) == GetLabel(w) && GetInitOffset(SetDebug(w, debug)) == GetInitOffset(w)
    ensures GetInitOffset(SetInitOffset(w, initoff)) == initoff
    ensures GetLabel(SetInitOffset(w, initoff)) == GetLabel(w) && GetDebug(SetInitOffset(w, initoff)) == GetDebug(w)
    ensures var ws := [SetLabel(w, name), SetDebug(w, debug), SetInitOffset(w, initoff)];
            forall i :: 0 <= i < |ws| ==>
              ws[i].ticks == w.ticks && ws[i].speed == w.speed && ws[i].pwm == w.pwm && ws[i].nextAdjTime == w.nextAdjTime
  {
  }

  /** A changed offset takes effect at the next `setSpeed`, not before. */
  lemma {:induction false} OffsetAppliesAtNextSetSpeed(w: Wheel, initoff: int, s: int)
    requires Valid(w)
    ensures SetInitOffset(w, initoff).pwm == w.pwm
    ensures SetSpeed(SetInitOffset(w, initoff), s).wheel.pwm
         == Clamp(10 * Abs(Clamp(s, MAX_REV_SPEED, MAX_FWD_SPEED)) + initoff, 0, 255)
  {
  }

  /** Replays a trace from the output state (duty, INA, INB) and holds when
      the inputs are HIGH/HIGH only while the duty output is 0. */
  predicate CoastOnlyUnpowered(events: seq<Event>, duty: int, ina: Level, inb: Level)
    decreases |events|
  {
    if |events| == 0 then true
    else match events[0]
      case AnalogWrite(_, d) => (ina == HIGH && inb == HIGH ==> d == 0) && CoastOnlyUnpowered(events[1..], d, ina, inb)
      case DigitalWrite(pin, l) =>
        var ina' := if pin == InaPin then l else ina;
        var inb' := if pin == InbPin then l else inb;
        (ina' == HIGH && inb' == HIGH ==> duty == 0) && CoastOnlyUnpowered(events[1..], duty, ina', inb')
      case Delay(_) => CoastOnlyUnpowered(events[1..], duty, ina, inb)
  }

  /** Writing INA before INB passes through HIGH/HIGH only on the way from
      forward to reverse, which is a reversal and so happens at duty 0: the
      driver is never powered with both inputs HIGH, and no call ends in
      that state. */
  lemma {:induction false} SetSpeedNeverCoastsPowered(w: Wheel, s: int)
    requires Valid(w)
    ensures CoastOnlyUnpowered(SetSpeed(w, s).events, w.pwm, Inputs(w.speed).0, Inputs(w.speed).1)
    ensures Inputs(SetSpeed(w, s).wheel.speed) != (HIGH, HIGH)
  {
    var r := SetSpeed(w, s);
    var (ina, inb) := Inputs(r.wheel.speed);
    var (ina0, inb0) := Inputs(w.speed);
    var last := [AnalogWrite(PwmPin, r.wheel.pwm)];
    assert CoastOnlyUnpowered(last[1..], r.wheel.pwm, ina, inb);
    var t2 := [DigitalWrite(InbPin, inb)] + last;
    assert t2[1..] == last;
    var pins := [DigitalWrite(InaPin, ina)] + t2;
    assert pins[1..] == t2;
    if Reverses(w.speed, s) {
      assert CoastOnlyUnpowered(pins, 0, ina0, inb0);
      var t3 := [Delay(ADJ_DELAY)] + pins;
      assert t3[1..] == pins;
      assert r.events == [AnalogWrite(PwmPin, 0)] + t3;
      assert r.events[1..] == t3;
    } else {
      assert r.events == pins;
    }
  }

  /** Replays a trace from the inputs (INA, INB) and holds when no write
      leaves both inputs HIGH, powered or not. */
  predicate NeverCoasts(events: seq<Event>, ina: Level, inb: Level)
    decreases |events|
  {
    if |events| == 0 then true
    else match events[0]
      case DigitalWrite(pin, l) =>
        var ina' := if pin == InaPin then l else ina;
        var inb' := if pin == InbPin then l else inb;
        !(ina' == HIGH && inb' == HIGH) && NeverCoasts(events[1..], ina', inb')
      case _ => NeverCoasts(events[1..], ina, inb)
  }

  /** The HIGH/HIGH transient happens on exactly one kind of call: a request
      for a reverse speed while running forward. Every other call keeps the
      inputs out of that state throughout. */
  lemma {:induction false} SetSpeedCoastsOnlyForwardToReverse(w: Wheel, s: int)
    requires Valid(w)
    ensures NeverCoasts(SetSpeed(w, s).events, Inputs(w.speed).0, Inputs(w.speed).1)
            <==> !(w.speed > 0 && s < 0)
  {
    var r := SetSpeed(w, s);
    var (ina, inb) := Inputs(r.wheel.speed);
    var (ina0, inb0) := Inputs(w.speed);
    var last := [AnalogWrite(PwmPin, r.wheel.pwm)];
    assert last[1..] == [];
    assert NeverCoasts(last, ina, inb);
    var t2 := [DigitalWrite(InbPin, inb)] + last;
    assert t2[1..] == last;
    assert NeverCoasts(t2, ina, inb0);
    var pins := [DigitalWrite(InaPin, ina)] + t2;
    assert pins[1..] == t2;
    assert NeverCoasts(pins, ina0, inb0) <==> !(ina == HIGH && inb0 == HIGH);
    assert ina == HIGH <==> s < 0;
    if Reverses(w.speed, s) {
      var t3 := [Delay(ADJ_DELAY)] + pins;
      assert t3[1..] == pins;
      assert r.events == [AnalogWrite(PwmPin, 0)] + t3;
      assert r.events[1..] == t3;
    } else {
      assert r.events == pins;
    }
  }

  /** The destructor cuts the duty first and then drives the inputs to the
      state of speed 0 (brake), so the driver is never powered in HIGH/HIGH on
      the way, whatever state the wheel was in. */
  lemma {:induction false} DestroyBrakes(w: Wheel)
    requires Valid(w)
    ensures CoastOnlyUnpowered(Destroy(w), w.pwm, Inputs(w.speed).0, Inputs(w.speed).1)
    ensures Destroy(w)[0] == AnalogWrite(PwmPin, 0)
    ensures Destroy(w)[1..] == [DigitalWrite(InaPin, Inputs(0).0), DigitalWrite(InbPin, Inputs(0).1)]
  {
    var e := Destroy(w);
    var (ina, inb) := Inputs(w.speed);
    assert e[1..][1..][1..] == [];
    assert CoastOnlyUnpowered(e[1..][1..], 0, LOW, inb);
    assert CoastOnlyUnpowered(e[1..], 0, ina, inb);
  }

  /** The transient HIGH/HIGH state does occur: reversing a forward-running
      wheel writes INA HIGH while INB is still HIGH. */
  lemma {:induction false} ForwardToReversePassesThroughCoast()
    ensures var w := Wheel(TickRing.Initial(), 0, 5, 50, 0, "left", false);
            var e := SetSpeed(w, -5).events;
            |e| == 5 && e[2] == DigitalWrite(InaPin, HIGH) && Inputs(w.speed).1 == HIGH
  {
  }

  // ---------------------------------------------------------------------
  // The pin outputs of a reachable wheel

  /** The pins hold what the wheel's state stands for: its duty and the
      inputs of its speed. */
  predicate Drives(w: Wheel, o: Outputs) {
    o.duty == w.pwm && (o.ina, o.inb) == Inputs(w.speed)
  }

  /** The public operations after construction. */
  datatype Op =
    | SetSpeedOp(s: int)
    | TickOp(now: U32)
    | SetLabelOp(name: string)
    | SetDebugOp(debug: bool)
    | SetInitOffsetOp(initoff: int)

  function Perform(w: Wheel, op: Op): (r: Step)
    requires Valid(w)
    ensures Valid(r.wheel)
  {
    match op
    case SetSpeedOp(s) => SetSpeed(w, s)
    case TickOp(now) => Step(Tick(w, now), [])
    case SetLabelOp(name) => Step(SetLabel(w, name), [])
    case SetDebugOp(debug) => Step(SetDebug(w, debug), [])
    case SetInitOffsetOp(initoff) => Step(SetInitOffset(w, initoff), [])
  }

  /** Performs the operations in order, replaying their traces on the pins. */
  function Run(w: Wheel, o: Outputs, ops: seq<Op>): (Wheel, Outputs)
    requires Valid(w)
    decreases |ops|
  {
    if |ops| == 0 then (w, o)
    else
      var st := Perform(w, ops[0]);
      Run(st.wheel, Replay(st.events, o), ops[1..])
  }

  /** `setSpeed`, and so the constructor, leaves the pins as its new state
      stands for, whatever they held before: it always writes INA, INB and
      then the duty. */
  lemma {:induction false} SetSpeedDrives(w: Wheel, o: Outputs, s: int)
    requires Valid(w)
    ensures Drives(SetSpeed(w, s).wheel, Replay(SetSpeed(w, s).events, o))
  {
    var r := SetSpeed(w, s);
    var (ina, inb) := Inputs(r.wheel.speed);
    var inaWrite := DigitalWrite(InaPin, ina);
    var inbWrite := DigitalWrite(InbPin, inb);
    var pwmWrite := AnalogWrite(PwmPin, r.wheel.pwm);
    var prefix := r.events[..|r.events| - 3];
    assert r.events == prefix + [inaWrite] + [inbWrite] + [pwmWrite];
    ReplayAppend(prefix + [inaWrite] + [inbWrite], [pwmWrite], o);
    ReplayAppend(prefix + [inaWrite], [inbWrite], o);
    ReplayAppend(prefix, [inaWrite], o);
    ReplayOne(inaWrite, Replay(prefix, o));
    ReplayOne(inbWrite, Replay(prefix + [inaWrite], o));
    ReplayOne(pwmWrite, Replay(prefix + [inaWrite] + [inbWrite], o));
  }

  /** The constructor leaves the pins as its state stands for whatever they
      held before; `setPWM` writes the duty and no input; every other
      operation keeps the pins and the state in step. */
  lemma {:induction false} OperationsDriveState(w: Wheel, o: Outputs, op: Op, p: int, name: string, initoff: int, debug: bool)
    requires Valid(w)
    ensures Drives(New(name, initoff, debug).wheel, Replay(New(name, initoff, debug).events, o))
    ensures Replay(SetPwm(w, p).events, o) == o.(duty := SetPwm(w, p).wheel.pwm)
    ensures Drives(w, o) ==> Drives(Perform(w, op).wheel, Replay(Perform(w, op).events, o))
  {
    SetSpeedDrives(Wheel(TickRing.Initial(), 0, 0, 0, initoff, name, debug), o, 0);
    ReplayOne(AnalogWrite(PwmPin, SetPwm(w, p).wheel.pwm), o);
    if op.SetSpeedOp? {
      SetSpeedDrives(w, o, op.s);
    }
  }

  lemma {:induction false} RunKeepsDriving(w: Wheel, o: Outputs, ops: seq<Op>)
    requires Valid(w) && Drives(w, o)
    ensures Drives(Run(w, o, ops).0, Run(w, o, ops).1)
    decreases |ops|
  {
    if |ops| > 0 {
      var st := Perform(w, ops[0]);
      OperationsDriveState(w, o, ops[0], 0, w.name, w.initoff, w.debug);
      RunKeepsDriving(st.wheel, Replay(st.events, o), ops[1..]);
    }
  }

  /** In every state reachable from the constructor the pins hold the duty
      and the inputs of the state, whatever they held before the constructor
      ran: the start the trace lemmas above assume. */
  lemma {:induction false} ReachableOutputsMatchState(name: string, initoff: int, debug: bool, before: Outputs, ops: seq<Op>)
    ensures var start := New(name, initoff, debug);
            var (w, o) := Run(start.wheel, Replay(start.events, before), ops);
            Drives(w, o)
  {
    var start := New(name, initoff, debug);
    OperationsDriveState(start.wheel, before, TickOp(0), 0, name, initoff, debug);
    RunKeepsDriving(start.wheel, Replay(start.events, before), ops);
  }
}
