/** The PWM+direction wheel of the motor speed test sketch: one DRV8835
    channel driven by a PWM (enable) pin and a direction (phase) pin, with a
    closed-loop trim of the PWM duty against a table of target tick
    intervals. Clocks (`micros`, `millis`) are parameters, the pin writes and
    the blocking delay are returned as an event trace, and serial debug output
    is left out. */
module DirWheel {
  import opened Common
  import TickRing

  const MAX_FWD_SPEED: int := 20
  const MAX_REV_SPEED: int := -20

  /** Milliseconds between two PWM adjustments, and the settle delay before a
      direction reversal. */
  const ADJ_DELAY: int := 200

  const FORWARD: Level := LOW
  const REVERSE: Level := HIGH

  /** `TTT`: target tick interval (microseconds) per speed level. Entry 0 is
      written `-1` in an `unsigned int` array, so it holds 65535. */
  const TTT: seq<U16> := [
    65535, 30000, 25000, 20000, 17500, 15250, 13000, 11500, 10500, 9500,
    8800, 8000, 7500, 7000, 6700, 6400, 6200, 6000, 5750, 5500, 5300
  ]

  /** `INIT_PWM`: the duty value a speed level starts from. */
  const INIT_PWM: seq<int> := [
    0, 60, 70, 80, 90, 100, 110, 120, 130, 140,
    150, 160, 170, 180, 190, 200, 210, 220, 230, 240, 250
  ]

  datatype Wheel = Wheel(
    ticks: TickRing.Sampler,   // _tickBuf, _tbix, _lastTickTime
    nextAdjTime: U32,          // earliest millis() value at which PWM may be trimmed again
    speed: int,                // requested speed level, negative for reverse
    pwm: int,                  // current duty value
    name: string,
    debug: bool)

  /** The result of an operation: the new wheel and the hardware effects it
      issued, in order. */
  datatype Step = Step(wheel: Wheel, events: seq<Event>)

  /** The state every public operation keeps: a well-formed tick buffer, a
      speed within bounds, a duty within [0,255], and a stopped wheel has
      duty 0. */
  predicate Valid(w: Wheel) {
    && TickRing.Valid(w.ticks)
    && MAX_REV_SPEED <= w.speed <= MAX_FWD_SPEED
    && 0 <= w.pwm <= 255
    && (w.speed == 0 ==> w.pwm == 0)
  }

  /** The level of the direction pin for a speed. */
  function DirLevel(speed: int): Level {
    if speed < 0 then REVERSE else FORWARD
  }

  lemma {:induction false} TttStrictlyDecreasing()
    ensures |TTT| == MAX_FWD_SPEED + 1
    ensures forall i, j :: 1 <= i < j < |TTT| ==> TTT[i] > TTT[j]
  {
  }

  lemma {:induction false} InitPwmInRangeAndIncreasing()
    ensures |INIT_PWM| == MAX_FWD_SPEED + 1
    ensures forall i :: 0 <= i < |INIT_PWM| ==> 0 <= INIT_PWM[i] <= 255
    ensures forall i, j :: 0 <= i < j < |INIT_PWM| ==> INIT_PWM[i] < INIT_PWM[j]
  {
  }

  /** The constructor: empty tick buffer, speed and duty 0, and the outputs
      driven to duty 0, direction forward. */
  function New(name: string, debug: bool): (r: Step)
    ensures Valid(r.wheel)
    ensures r.wheel.ticks == TickRing.Initial()
    ensures r.wheel.speed == 0 && r.wheel.pwm == 0 && r.wheel.nextAdjTime == 0
    ensures r.wheel.name == name && r.wheel.debug == debug
    ensures r.events == [AnalogWrite(PwmPin, 0), DigitalWrite(DirPin, FORWARD)]
  {
    Step(Wheel(TickRing.Initial(), 0, 0, 0, name, debug),
         [AnalogWrite(PwmPin, 0), DigitalWrite(DirPin, FORWARD)])
  }

  /** The three-argument constructor: debug output off. */
  function NewDefault(name: string): (r: Step)
    ensures Valid(r.wheel) && r.wheel.name == name && !r.wheel.debug
    ensures r.wheel.speed == 0 && r.wheel.pwm == 0
  {
    New(name, false)
  }

  /** `label()`. */
  function Label(w: Wheel): string {
    w.name
  }

  /** The destructor: duty 0, direction forward. */
  function Destroy(w: Wheel): seq<Event> {
    [AnalogWrite(PwmPin, 0), DigitalWrite(DirPin, FORWARD)]
  }

  /** `setPWM`: stores the duty clamped to [0,255] and writes it out. */
  function SetPwm(w: Wheel, p: int): (r: Step)
    ensures 0 <= r.wheel.pwm <= 255
    ensures 0 <= p <= 255 ==> r.wheel.pwm == p
    ensures p < 0 ==> r.wheel.pwm == 0
    ensures p > 255 ==> r.wheel.pwm == 255
    ensures r.wheel == w.(pwm := r.wheel.pwm)
    ensures r.events == [AnalogWrite(PwmPin, r.wheel.pwm)]
  {
    var duty := if p < 0 then 0 else if p > 255 then 255 else p;
    Step(w.(pwm := duty), [AnalogWrite(PwmPin, duty)])
  }

  /** A request that moves from forward to reverse or back without passing
      through speed 0. */
  predicate Reverses(current: int, s: int) {
    (s > 0 && current < 0) || (s < 0 && current > 0)
  }

  /** `setSpeed`: on a reversal, duty 0 and a settle delay first; then the
      clamped speed, the direction pin, and the table's starting duty. */
  function SetSpeed(w: Wheel, s: int): (r: Step)
    requires Valid(w)
    ensures Valid(r.wheel)
    ensures r.wheel.speed == Clamp(s, MAX_REV_SPEED, MAX_FWD_SPEED)
    ensures r.wheel.pwm == INIT_PWM[Abs(r.wheel.speed)]
    ensures r.wheel.ticks == w.ticks && r.wheel.nextAdjTime == w.nextAdjTime
    ensures r.wheel.name == w.name && r.wheel.debug == w.debug
    ensures Reverses(w.speed, s) ==>
      r.events == [AnalogWrite(PwmPin, 0), Delay(ADJ_DELAY),
                   DigitalWrite(DirPin, DirLevel(r.wheel.speed)), AnalogWrite(PwmPin, r.wheel.pwm)]
    ensures !Reverses(w.speed, s) ==>
      r.events == [DigitalWrite(DirPin, DirLevel(r.wheel.speed)), AnalogWrite(PwmPin, r.wheel.pwm)]
    ensures DirLevel(r.wheel.speed) == REVERSE <==> r.wheel.speed < 0
  {
    var stop := if Reverses(w.speed, s) then SetPwm(w, 0) else Step(w, []);
    var settle := if Reverses(w.speed, s) then [Delay(ADJ_DELAY)] else [];
    var speed := if s > MAX_FWD_SPEED then MAX_FWD_SPEED else if s < MAX_REV_SPEED then MAX_REV_SPEED else s;
    var start := SetPwm(stop.wheel.(speed := speed), INIT_PWM[Abs(speed)]);
    Step(start.wheel, stop.events + settle + [DigitalWrite(DirPin, DirLevel(speed))] + start.events)
  }

  /** `avgTickTime`. */
  function AvgTickTime(w: Wheel): U16
    requires Valid(w)
  {
    TickRing.Average(w.ticks)
  }

  /** `tick`: the encoder interrupt at `micros()` value `now`; nothing but
      the tick sampler changes. */
  function Tick(w: Wheel, now: U32): (r: Wheel)
    requires Valid(w)
    ensures Valid(r)
    ensures r.ticks == TickRing.Tick(w.ticks, now)
    ensures r == w.(ticks := r.ticks)
  {
    w.(ticks := TickRing.Tick(w.ticks, now))
  }

  /** `loop(m)`: at most once per `ADJ_DELAY` milliseconds of a moving wheel,
      trims the duty by one step toward the target tick interval of the
      speed level; an average of 0 (no ticks yet) skips the trim but still
      schedules the next adjustment. */
  function Loop(w: Wheel, m: U32): (r: Step)
    requires Valid(w)
    ensures Valid(r.wheel)
    ensures r.wheel.ticks == w.ticks && r.wheel.speed == w.speed
    ensures r.wheel.name == w.name && r.wheel.debug == w.debug
    ensures !(w.speed != 0 && m > w.nextAdjTime) ==> r == Step(w, [])
    ensures w.speed != 0 && m > w.nextAdjTime ==>
      && r.wheel.nextAdjTime == Wrap32(m + ADJ_DELAY)
      && var avg := AvgTickTime(w);
         var target := TTT[Abs(w.speed)];
         && (avg == 0 || avg == target ==> r.wheel.pwm == w.pwm && r.events == [])
         && (0 < avg < target ==> r.wheel.pwm == if w.pwm == 0 then 0 else w.pwm - 1)
         && (avg > target ==> r.wheel.pwm == if w.pwm == 255 then 255 else w.pwm + 1)
         && (avg != 0 && avg != target ==> r.events == [AnalogWrite(PwmPin, r.wheel.pwm)])
    ensures -1 <= r.wheel.pwm - w.pwm <= 1
  {
    if w.speed != 0 && m > w.nextAdjTime then
      var target := TTT[Abs(w.speed)];
      var tickTime := AvgTickTime(w);
      var trimmed :=
        if tickTime > 0 && tickTime < target then SetPwm(w, w.pwm - 1)
        else if tickTime > 0 && tickTime > target then SetPwm(w, w.pwm + 1)
        else Step(w, []);
      Step(trimmed.wheel.(nextAdjTime := Wrap32(m + ADJ_DELAY)), trimmed.events)
    else
      Step(w, [])
  }

  /** Replays a trace from the output state (duty, direction level) and holds
      when every change of the direction level happens while the duty output
      is 0. */
  predicate DirChangesWhileStopped(events: seq<Event>, duty: int, dir: Level)
    decreases |events|
  {
    if |events| == 0 then true
    else match events[0]
      case AnalogWrite(_, d) => DirChangesWhileStopped(events[1..], d, dir)
      case DigitalWrite(_, l) => (l != dir ==> duty == 0) && DirChangesWhileStopped(events[1..], duty, l)
      case Delay(_) => DirChangesWhileStopped(events[1..], duty, dir)
  }

  /** A speed change flips the direction pin only while the motor is
      unpowered, except for the stop from reverse: setting speed 0 while
      reversing writes the direction pin forward before the duty 0 that
      follows it. */
  lemma {:induction false} SetSpeedFlipsDirectionUnpowered(w: Wheel, s: int)
    requires Valid(w)
    requires !(w.speed < 0 && s == 0)
    ensures DirChangesWhileStopped(SetSpeed(w, s).events, w.pwm, DirLevel(w.speed))
  {
    var r := SetSpeed(w, s);
    var e := r.events;
    var lvl := DirLevel(r.wheel.speed);
    var tail := [AnalogWrite(PwmPin, r.wheel.pwm)];
    assert DirChangesWhileStopped(tail[1..], r.wheel.pwm, lvl);
    assert DirChangesWhileStopped(tail, 0, lvl);
    if Reverses(w.speed, s) {
      var t2 := [DigitalWrite(DirPin, lvl)] + tail;
      assert t2[1..] == tail;
      assert DirChangesWhileStopped(t2, 0, DirLevel(w.speed));
      var t3 := [Delay(ADJ_DELAY)] + t2;
      assert t3[1..] == t2;
      assert e == [AnalogWrite(PwmPin, 0)] + t3;
      assert e[1..] == t3;
    } else {
      assert e == [DigitalWrite(DirPin, lvl)] + tail;
      assert e[1..] == tail;
      assert lvl != DirLevel(w.speed) ==> w.pwm == 0;
    }
  }

  /** The destructor leaves the outputs as the constructor sets them up, and
      it cuts the duty before it writes the direction pin, so whatever the
      wheel was doing the direction never changes under power. */
  lemma {:induction false} DestroyStopsFirst(w: Wheel)
    requires Valid(w)
    ensures Destroy(w) == New(w.name, w.debug).events
    ensures DirChangesWhileStopped(Destroy(w), w.pwm, DirLevel(w.speed))
  {
    var e := Destroy(w);
    assert e[1..] == [DigitalWrite(DirPin, FORWARD)];
    assert e[1..][1..] == [];
    assert DirChangesWhileStopped(e[1..], 0, DirLevel(w.speed));
  }

  /** The exception above does happen: stopping a reversing wheel flips the
      direction pin to forward while the old duty is still applied. */
  lemma {:induction false} StopFromReverseFlipsDirectionPowered()
    ensures var w := Wheel(TickRing.Initial(), 0, -5, 100, "left", false);
            Valid(w) && !DirChangesWhileStopped(SetSpeed(w, 0).events, w.pwm, DirLevel(w.speed))
  {
    var w := Wheel(TickRing.Initial(), 0, -5, 100, "left", false);
    var e := SetSpeed(w, 0).events;
    assert e == [DigitalWrite(DirPin, FORWARD), AnalogWrite(PwmPin, 0)];
  }

  /** `tick`, `loop` and `setPWM` never touch the direction pin. */
  lemma {:induction false} LoopKeepsDirection(w: Wheel, m: U32)
    requires Valid(w)
    ensures forall i :: 0 <= i < |Loop(w, m).events| ==> !Loop(w, m).events[i].DigitalWrite?
  {
  }

  /** Steady state: after five encoder ticks spaced exactly the target interval
      of the current speed level, the next due adjustment leaves the duty
      unchanged. */
  lemma {:induction false} SteadyStateKeepsDuty(w: Wheel, m: U32)
    requires Valid(w) && w.speed != 0 && m > w.nextAdjTime
    requires w.ticks.lastTickTime + TickRing.TBSZ * TTT[Abs(w.speed)] < TWO_32
    ensures var d := TTT[Abs(w.speed)];
            var ticked := w.(ticks := TickRing.TickAll(w.ticks, seq(TickRing.TBSZ, i => w.ticks.lastTickTime + (i + 1) * d)));
            Loop(ticked, m).wheel.pwm == w.pwm && Loop(ticked, m).events == []
  {
    var d := TTT[Abs(w.speed)];
    TickRing.SteadyAverage(w.ticks, d);
  }

  /** The trim always moves the duty against the error: a wheel measured
      faster than its target (shorter interval) never gets more duty, a
      slower one never gets less. */
  lemma {:induction false} TrimOpposesError(w: Wheel, m: U32)
    requires Valid(w) && w.speed != 0 && m > w.nextAdjTime && AvgTickTime(w) > 0
    ensures AvgTickTime(w) < TTT[Abs(w.speed)] ==> Loop(w, m).wheel.pwm <= w.pwm
    ensures AvgTickTime(w) > TTT[Abs(w.speed)] ==> Loop(w, m).wheel.pwm >= w.pwm
    ensures 0 < w.pwm < 255 && AvgTickTime(w) != TTT[Abs(w.speed)] ==> Loop(w, m).wheel.pwm != w.pwm
  {
  }

  // ---------------------------------------------------------------------
  // The pin outputs of a reachable wheel

  /** The pins hold what the wheel's state stands for: its duty and the
      direction level of its speed. */
  predicate Drives(w: Wheel, o: Outputs) {
    o.duty == w.pwm && o.dir == DirLevel(w.speed)
  }

  /** The public operations after construction. */
  datatype Op = SetSpeedOp(s: int) | LoopOp(m: U32) | TickOp(now: U32) | LabelOp

  function Perform(w: Wheel, op: Op): (r: Step)
    requires Valid(w)
    ensures Valid(r.wheel)
  {
    match op
    case SetSpeedOp(s) => SetSpeed(w, s)
    case LoopOp(m) => Loop(w, m)
    case TickOp(now) => Step(Tick(w, now), [])
    case LabelOp => Step(w, [])
  }

  /** Performs the operations in order, replaying their traces on the pins. */
  function Run(w: Wheel, o: Outputs, ops: seq<Op>): (Wheel, Outputs)
    requires Valid(w)
    decreases |ops|
  {
    if |ops| == 0 then (w, o)
    else
      var st := Perform(w, ops[0]);
      Run(st.wheel, Replay(st.events, o), ops[1..])
  }

  /** `setSpeed` leaves the pins as its new state stands for, whatever they
      held before: it always writes the direction and then the duty. */
  lemma {:induction false} SetSpeedDrives(w: Wheel, o: Outputs, s: int)
    requires Valid(w)
    ensures Drives(SetSpeed(w, s).wheel, Replay(SetSpeed(w, s).events, o))
  {
    var r := SetSpeed(w, s);
    var dirWrite := DigitalWrite(DirPin, DirLevel(r.wheel.speed));
    var pwmWrite := AnalogWrite(PwmPin, r.wheel.pwm);
    var prefix := r.events[..|r.events| - 2];
    assert r.events == prefix + [dirWrite] + [pwmWrite];
    ReplayAppend(prefix + [dirWrite], [pwmWrite], o);
    ReplayAppend(prefix, [dirWrite], o);
    ReplayOne(dirWrite, Replay(prefix, o));
    ReplayOne(pwmWrite, Replay(prefix + [dirWrite], o));
  }

  /** The constructor leaves the pins as its state stands for whatever they
      held before; `setPWM` writes the duty and no direction; every other
      operation keeps the pins and the state in step. */
  lemma {:induction false} OperationsDriveState(w: Wheel, o: Outputs, op: Op, p: int, name: string, debug: bool)
    requires Valid(w)
    ensures Drives(New(name, debug).wheel, Replay(New(name, debug).events, o))
    ensures Replay(SetPwm(w, p).events, o) == o.(duty := SetPwm(w, p).wheel.pwm)
    ensures Drives(w, o) ==> Drives(Perform(w, op).wheel, Replay(Perform(w, op).events, o))
  {
    var clear := AnalogWrite(PwmPin, 0);
    var fwd := DigitalWrite(DirPin, FORWARD);
    assert New(name, debug).events == [clear] + [fwd];
    ReplayAppend([clear], [fwd], o);
    ReplayOne(clear, o);
    ReplayOne(fwd, Replay([clear], o));
    ReplayOne(AnalogWrite(PwmPin, SetPwm(w, p).wheel.pwm), o);
    match op {
      case SetSpeedOp(s) =>
        SetSpeedDrives(w, o, s);
      case LoopOp(m) =>
        var r := Loop(w, m);
        if |r.events| > 0 {
          ReplayOne(AnalogWrite(PwmPin, r.wheel.pwm), o);
        }
      case TickOp(now) =>
      case LabelOp =>
    }
  }

  lemma {:induction false} RunKeepsDriving(w: Wheel, o: Outputs, ops: seq<Op>)
    requires Valid(w) && Drives(w, o)
    ensures Drives(Run(w, o, ops).0, Run(w, o, ops).1)
    ensures Run(w, o, ops).0.name == w.name
    decreases |ops|
  {
    if |ops| > 0 {
      var st := Perform(w, ops[0]);
      OperationsDriveState(w, o, ops[0], 0, w.name, w.debug);
      RunKeepsDriving(st.wheel, Replay(st.events, o), ops[1..]);
    }
  }

  /** In every state reachable from the constructor the pins hold the duty
      and the direction level of the state, whatever they held before the
      constructor ran: the start the trace lemmas above assume. `label()`
      still returns the constructor's name. */
  lemma {:induction false} ReachableOutputsMatchState(name: string, debug: bool, before: Outputs, ops: seq<Op>)
    ensures var start := New(name, debug);
            var (w, o) := Run(start.wheel, Replay(start.events, before), ops);
            Drives(w, o) && Label(w) == name
  {
    var start := New(name, debug);
    OperationsDriveState(start.wheel, before, LabelOp, 0, name, debug);
    RunKeepsDriving(start.wheel, Replay(start.events, before), ops);
  }
}
