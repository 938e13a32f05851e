/** The interrupt handlers of the robot controller's I2C slave: the tick-rate
    computation, the two encoder interrupts that publish it in the register
    block, and the bus request and receive callbacks. `calcTPS` declares its
    parameters without types and has an unbalanced parenthesis; the model
    reads both parameters as `unsigned long`, the type of the values the
    interrupts pass. */
module I2cHandler {
  import opened Common
  import opened I2cRegisters

  /** `MPS`: microseconds per second. */
  const MPS: int := 1000000

  /** The divisor `calcTPS` uses once a previous tick exists, in `unsigned
      long` arithmetic. */
  function TpsDivisor(last: U32, cur: U32): U32 {
    if cur > last then cur - last else Wrap32(cur + Wrap32(MPS - last))
  }

  /** The C code divides by zero when the divisor wraps to 0; callers must
      not reach that case. It happens exactly when `last` is one second of
      microseconds ahead of `cur`. */
  predicate CalcTpsDefined(last: U32, cur: U32) {
    last == 0 || TpsDivisor(last, cur) != 0
  }

  lemma {:induction false} CalcTpsDefinedExactly(last: U32, cur: U32)
    ensures CalcTpsDefined(last, cur) <==> last == 0 || cur > last || last - cur != MPS
  {
  }

  /** `calcTPS(lastTick, currentTick)`: ticks per second from the interval
      between two encoder ticks, 0 when no previous tick was recorded, cast
      to a 16-bit `unsigned int`. */
  function CalcTps(last: U32, cur: U32): (r: U16)
    requires CalcTpsDefined(last, cur)
    ensures last == 0 ==> r == 0
    ensures 0 < last < cur ==> r == Wrap16(MPS / (cur - last))
    ensures 0 < last && cur <= last ==> r == Wrap16(MPS / Wrap32(cur + (MPS - last)))
  {
    if last > 0 then
      WrapAddWrap(cur, MPS - last);
      Wrap16(MPS / TpsDivisor(last, cur))
    else 0
  }

  /** For an interval of at least 16 microseconds the result is the exact
      number of whole intervals in one second. */
  lemma {:induction false} CalcTpsIsTickRate(last: U32, cur: U32)
    requires 0 < last && cur >= last + 16
    ensures CalcTps(last, cur) * (cur - last) <= MPS < (CalcTps(last, cur) + 1) * (cur - last)
  {
    var d := cur - last;
    assert MPS / d <= MPS / 16 < TWO_16 by {
      DivMonotone(MPS, 16, d);
    }
  }

  /** Below 16 microseconds the quotient no longer fits the 16-bit result
      and wraps: two ticks 10 microseconds apart, a rate of 100000 ticks per
      second, report 34464. */
  lemma {:induction false} CalcTpsShortIntervalWraps()
    ensures CalcTpsDefined(100, 110)
    ensures CalcTps(100, 110) == 34464
    ensures CalcTps(100, 110) * 10 < MPS
  {
    assert MPS / 10 == 100000;
    assert Wrap16(100000) == 34464;
  }

  lemma {:induction false} DivMonotone(n: nat, a: nat, b: nat)
    requires 0 < a <= b
    ensures n / b <= n / a
  {
    var qa, qb := n / a, n / b;
    assert qb * a <= qb * b by {
      MulLe(qb, a, b);
    }
    assert qb * b <= n;
    assert n < (qa + 1) * a;
    MulCancel(qb, qa + 1, a);
  }

  lemma {:induction false} MulLe(k: nat, a: nat, b: nat)
    requires a <= b
    ensures k * a <= k * b
  {
  }

  lemma {:induction false} MulCancel(x: nat, y: nat, a: nat)
    requires a > 0
    ensures x * a < y * a ==> x < y
  {
    if x >= y {
      MulLe(a, y, x);
    }
  }

  /** Two ticks at the same `micros()` value report 1 tick per second. */
  lemma {:induction false} CalcTpsSameInstant(t: U32)
    requires t > 0
    ensures CalcTpsDefined(t, t) && CalcTps(t, t) == 1
  {
  }

  /** When `cur` is not past `last`, the divisor is the elapsed time modulo
      2^32 plus one second: the branch treats `micros()` as if it wrapped at
      `MPS`, while it wraps at 2^32. */
  lemma {:induction false} CalcTpsWrapBranch(last: U32, cur: U32)
    requires 0 < last && cur <= last
    ensures TpsDivisor(last, cur) == Wrap32(Wrap32(cur - last) + MPS)
  {
  }

  /** A tick 2000 microseconds after the previous one, across the 2^32
      wrap-around of `micros()`, reports 0 ticks per second. */
  lemma {:induction false} CalcTpsAcrossWrap()
    ensures CalcTpsDefined(TWO_32 - 1000, 1000) && CalcTps(TWO_32 - 1000, 1000) == 0
    ensures Wrap32(1000 - (TWO_32 - 1000)) == 2000
  {
    assert Wrap32(MPS - (TWO_32 - 1000)) == MPS + 1000;
    assert TpsDivisor(TWO_32 - 1000, 1000) == MPS + 2000;
  }

  /** The slave object plus the function-static `lastTick` of each encoder
      interrupt. The class fields `_leftLastTick` and `_rightLastTick` are
      not used by the interrupts. */
  datatype Controller = Controller(slave: Slave, leftIsrLast: U32, rightIsrLast: U32)

  /** The `_I2C_Slave` constructor, on the zero-initialised global: no
      wheels, last-tick fields 0. */
  function NewSlave(): (s: Slave)
    ensures s.leftWheel == None && s.rightWheel == None
    ensures s.leftLastTick == 0 && s.rightLastTick == 0
    ensures forall i :: 0 <= i < REG_SIZE ==> RegisterBytes(s)[i] == 0
    ensures |s.cmdbuf| == CMD_BUF_SIZE
  {
    Slave(Registers(WheelRegisters(0, 0, 0), WheelRegisters(0, 0, 0)), None, None, 0, 0, [0, 0])
  }

  /** Program start: the global slave and both interrupt statics at 0. */
  function Boot(): (c: Controller)
    ensures c.slave == NewSlave() && c.leftIsrLast == 0 && c.rightIsrLast == 0
  {
    Controller(NewSlave(), 0, 0)
  }

  /** `begin(left, right)`: records the wheels; pin modes, interrupt
      attachment and bus start-up are hardware effects left out. */
  function Begin(s: Slave, left: nat, right: nat): (r: Slave)
    ensures r.leftWheel == Some(left) && r.rightWheel == Some(right)
    ensures r.regbuf == s.regbuf && r.leftLastTick == s.leftLastTick && r.rightLastTick == s.rightLastTick
  {
    s.(leftWheel := Some(left), rightWheel := Some(right))
  }

  /** `leftWheelEncoderInterrupt` at `micros()` value `now`: publishes the
      rate in the left TPS register only, then remembers `now`. */
  function LeftEncoderInterrupt(c: Controller, now: U32): (r: Controller)
    requires CalcTpsDefined(c.leftIsrLast, now)
    ensures Get(r.slave.regbuf, LeftTps) == CalcTps(c.leftIsrLast, now)
    ensures forall f :: f != LeftTps ==> Get(r.slave.regbuf, f) == Get(c.slave.regbuf, f)
    ensures r.slave == c.slave.(regbuf := r.slave.regbuf)
    ensures r.leftIsrLast == now && r.rightIsrLast == c.rightIsrLast
  {
    Controller(Set(c.slave, LeftTps, CalcTps(c.leftIsrLast, now)), now, c.rightIsrLast)
  }

  /** `rightWheelEncoderInterrupt`: the mirror image on the right side. */
  function RightEncoderInterrupt(c: Controller, now: U32): (r: Controller)
    requires CalcTpsDefined(c.rightIsrLast, now)
    ensures Get(r.slave.regbuf, RightTps) == CalcTps(c.rightIsrLast, now)
    ensures forall f :: f != RightTps ==> Get(r.slave.regbuf, f) == Get(c.slave.regbuf, f)
    ensures r.slave == c.slave.(regbuf := r.slave.regbuf)
    ensures r.rightIsrLast == now && r.leftIsrLast == c.leftIsrLast
  {
    Controller(Set(c.slave, RightTps, CalcTps(c.rightIsrLast, now)), c.leftIsrLast, now)
  }

  /** The first encoder interrupt after start-up publishes 0; the second
      publishes the rate of the interval between the two. */
  lemma {:induction false} FirstTickPublishesZero(a: U32, b: U32)
    requires 0 < a < b
    ensures var c1 := LeftEncoderInterrupt(Boot(), a);
            && Get(c1.slave.regbuf, LeftTps) == 0
            && Get(LeftEncoderInterrupt(c1, b).slave.regbuf, LeftTps) == Wrap16(MPS / (b - a))
  {
  }

  /** `i2cRequest`: the host receives exactly `REG_SIZE` bytes, the current
      register block. */
  function I2cRequest(c: Controller): (sent: seq<Byte>)
    ensures |sent| == REG_SIZE
    ensures ParseRegisters(sent) == c.slave.regbuf
  {
    RegisterBytes(c.slave)
  }

  /** `i2cReceive(n)`: the loop over the received bytes has an empty body, so
      nothing changes. */
  function I2cReceive(c: Controller, received: seq<Byte>): (r: Controller)
    ensures r == c
  {
    c
  }
}
