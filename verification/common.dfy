/** Machine widths, clamping and the hardware-effect vocabulary shared by the
    robot firmware models. The firmware runs on an 8-bit AVR, where
    `unsigned long` is 32 bits and `unsigned int` is 16 bits; every place the
    C code wraps is written out with the functions below. */
module Common {

  datatype Option<+T> = None | Some(value: T)

  const TWO_8: int := 0x100
  const TWO_16: int := 0x1_0000
  const TWO_32: int := 0x1_0000_0000

  type Byte = x: int | 0 <= x < TWO_8
  type U16 = x: int | 0 <= x < TWO_16
  type U32 = x: int | 0 <= x < TWO_32

  /** Conversion to `unsigned long`: the value modulo 2^32. */
  function Wrap32(x: int): (r: U32)
    ensures 0 <= x < TWO_32 ==> r == x
  {
    x % TWO_32
  }

  /** Wrapping one operand of a sum first does not change the wrapped sum:
      `unsigned long` addition is addition modulo 2^32. */
  lemma {:induction false} WrapAddWrap(a: int, b: int)
    ensures Wrap32(a + Wrap32(b)) == Wrap32(a + b)
  {
    var q := b / TWO_32;
    assert b == q * TWO_32 + Wrap32(b);
    assert a + b == (a + Wrap32(b)) + q * TWO_32;
  }

  /** Conversion to `unsigned int`: the value modulo 2^16. */
  function Wrap16(x: int): (r: U16)
    ensures 0 <= x < TWO_16 ==> r == x
  {
    x % TWO_16
  }

  /** The `if (x < lo) .. else if (x > hi) .. else ..` clamp the firmware uses
      for speeds and PWM duty values. */
  function Clamp(x: int, lo: int, hi: int): (r: int)
    requires lo <= hi
    ensures lo <= r <= hi
    ensures lo <= x <= hi ==> r == x
    ensures x < lo ==> r == lo
    ensures x > hi ==> r == hi
  {
    if x < lo then lo else if x > hi then hi else x
  }

  function Abs(x: int): (r: nat)
    ensures r == x || r == -x
  {
    if x < 0 then -x else x
  }

  /** A character held in a plain C `char`, which is signed on the AVR and
      MSP430 compilers: its low byte, with bytes of 0x80 and above read as
      negative. A byte stream only delivers characters below 0x100. */
  function SignedChar(c: char): (v: int)
    ensures -128 <= v < 128
    ensures 0 <= c as int < 128 ==> v == c as int
    ensures 128 <= c as int < TWO_8 ==> v == c as int - TWO_8
  {
    var b := c as int % TWO_8;
    if b >= 128 then b - TWO_8 else b
  }

  /** What `c - '0'` gives for a character read into a plain `char`: the
      digit's value for a decimal digit, and anything else for the rest. */
  function DigitValue(c: char): (d: int)
    ensures '0' <= c <= '9' ==> d == c as int - '0' as int && 0 <= d <= 9
  {
    SignedChar(c) - '0' as int
  }

  /** Levels written with `digitalWrite`. */
  datatype Level = LOW | HIGH

  /** The output pins of one motor, by role: the PWM (enable) pin, the single
      direction (phase) pin of a DRV8835 wheel, or the two inputs of a
      TB6612FNG wheel. */
  datatype Pin = PwmPin | DirPin | InaPin | InbPin

  /** A hardware effect, in the order the firmware issues it: `analogWrite`,
      `digitalWrite`, or a blocking `delay` in milliseconds. */
  datatype Event = AnalogWrite(pin: Pin, duty: int) | DigitalWrite(pin: Pin, level: Level) | Delay(ms: int)

  /** What the motor pins hold: the last duty written with `analogWrite`
      and the last level written to each direction input. */
  datatype Outputs = Outputs(duty: int, dir: Level, ina: Level, inb: Level)

  /** The effect of one event on the pins. */
  function ApplyEvent(e: Event, o: Outputs): Outputs {
    match e
    case AnalogWrite(_, d) => o.(duty := d)
    case DigitalWrite(pin, l) =>
      if pin == DirPin then o.(dir := l)
      else if pin == InaPin then o.(ina := l)
      else if pin == InbPin then o.(inb := l)
      else o
    case Delay(_) => o
  }

  /** The pins after a trace, from the pins `o` before it. */
  function Replay(events: seq<Event>, o: Outputs): Outputs
    decreases |events|
  {
    if |events| == 0 then o else Replay(events[1..], ApplyEvent(events[0], o))
  }

  lemma ReplayOne(e: Event, o: Outputs)
    ensures Replay([e], o) == ApplyEvent(e, o)
  {
    assert [e][1..] == [];
  }

  /** Replaying two traces one after the other is replaying their join. */
  lemma {:induction false} ReplayAppend(a: seq<Event>, b: seq<Event>, o: Outputs)
    ensures Replay(a + b, o) == Replay(b, Replay(a, o))
    decreases |a|
  {
    if |a| > 0 {
      assert (a + b)[1..] == a[1..] + b;
      ReplayAppend(a[1..], b, ApplyEvent(a[0], o));
    } else {
      assert a + b == b;
    }
  }
}
