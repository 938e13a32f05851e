/** The register block the robot controller exposes to the host over I2C:
    the direction and command byte codes, the per-wheel register layout, the
    byte buffer that aliases it, and the accessors of the slave object.
    The header needs `;` after the `WheelRegisters` struct, the `RegBuf`
    union and the `_I2C_Slave` class to compile; the model follows the
    evident intent. */
module I2cRegisters {
  import opened Common

  const DIR_STOP: Byte := 0
  const DIR_FORWARD: Byte := 1
  const DIR_REVERSE: Byte := 2

  /** The command set of the bus protocol. */
  datatype Command =
    | StopBoth | StopLeft | StopRight
    | FwdBoth | FwdLeft | FwdRight
    | RevBoth | RevLeft | RevRight
    | PlayCharge | PlayTada | PlayData | PlayPlus | PlayMinus | PlayBonk

  /** The `CMD_*` byte of each command. */
  function Code(c: Command): Byte {
    match c
    case StopBoth => 0x01
    case StopLeft => 0x02
    case StopRight => 0x03
    case FwdBoth => 0x04
    case FwdLeft => 0x05
    case FwdRight => 0x06
    case RevBoth => 0x07
    case RevLeft => 0x08
    case RevRight => 0x09
    case PlayCharge => 0xF0
    case PlayTada => 0xF1
    case PlayData => 0xF2
    case PlayPlus => 0xF3
    case PlayMinus => 0xF4
    case PlayBonk => 0xF5
  }

  /** The command a byte names, if any. */
  function CommandOf(b: Byte): Option<Command> {
    if 0x01 <= b <= 0x09 then
      Some([StopBoth, StopLeft, StopRight, FwdBoth, FwdLeft, FwdRight, RevBoth, RevLeft, RevRight][b - 0x01])
    else if 0xF0 <= b <= 0xF5 then
      Some([PlayCharge, PlayTada, PlayData, PlayPlus, PlayMinus, PlayBonk][b - 0xF0])
    else None
  }

  /** Forward and reverse commands are followed by one PWM byte. */
  function ArgBytes(c: Command): nat {
    if c in {FwdBoth, FwdLeft, FwdRight, RevBoth, RevLeft, RevRight} then 1 else 0
  }

  const CMD_BUF_SIZE: nat := 2

  /** Every command has its own code, wheel commands use 0x01-0x09 and tone
      commands 0xF0-0xF5, and the longest command fits the command buffer. */
  lemma {:induction false} CommandCodes(c: Command, b: Byte)
    ensures CommandOf(Code(c)) == Some(c)
    ensures CommandOf(b) == Some(c) ==> Code(c) == b
    ensures c.PlayCharge? || c.PlayTada? || c.PlayData? || c.PlayPlus? || c.PlayMinus? || c.PlayBonk?
            <==> 0xF0 <= Code(c) <= 0xF5
    ensures 1 + ArgBytes(c) <= CMD_BUF_SIZE
    ensures ArgBytes(c) == 1 <==> 0x04 <= Code(c) <= 0x09
  {
  }

  /** `WheelRegisters`: direction byte, PWM byte, ticks per second. */
  datatype WheelRegisters = WheelRegisters(dir: Byte, pwm: Byte, tps: U16)

  /** `Registers`: the left wheel's block, then the right wheel's. */
  datatype Registers = Registers(left: WheelRegisters, right: WheelRegisters)

  /** `sizeof(struct Registers)` on AVR: two unpadded blocks of 1+1+2 bytes. */
  const REG_SIZE: nat := 8

  function WheelBytes(w: WheelRegisters): seq<Byte> {
    [w.dir, w.pwm, w.tps % 256, w.tps / 256]
  }

  /** The `buffer` view of the `RegBuf` union: the struct's bytes in memory
      order, 16-bit fields little-endian as on AVR. */
  function RegisterBuf(r: Registers): (b: seq<Byte>)
    ensures |b| == REG_SIZE
    ensures b[0] == r.left.dir && b[1] == r.left.pwm && b[2] as int + 256 * (b[3] as int) == r.left.tps
    ensures b[4] == r.right.dir && b[5] == r.right.pwm && b[6] as int + 256 * (b[7] as int) == r.right.tps
  {
    WheelBytes(r.left) + WheelBytes(r.right)
  }

  /** The `registers` view of a buffer of `REG_SIZE` bytes. */
  function ParseRegisters(b: seq<Byte>): Registers
    requires |b| == REG_SIZE
  {
    Registers(WheelRegisters(b[0], b[1], b[2] as int + 256 * (b[3] as int)),
              WheelRegisters(b[4], b[5], b[6] as int + 256 * (b[7] as int)))
  }

  /** The two views of the union describe the same memory: each determines
      the other. */
  lemma {:induction false} RegisterBufRoundTrip(r: Registers, b: seq<Byte>)
    ensures ParseRegisters(RegisterBuf(r)) == r
    ensures |b| == REG_SIZE ==> RegisterBuf(ParseRegisters(b)) == b
  {
  }

  /** The six register fields. */
  datatype Field = LeftDir | LeftPwm | LeftTps | RightDir | RightPwm | RightTps

  /** The buffer offsets a field occupies. */
  function Offsets(f: Field): set<int> {
    match f
    case LeftDir => {0}
    case LeftPwm => {1}
    case LeftTps => {2, 3}
    case RightDir => {4}
    case RightPwm => {5}
    case RightTps => {6, 7}
  }

  predicate Fits(f: Field, v: int) {
    if f == LeftTps || f == RightTps then 0 <= v < TWO_16 else 0 <= v < TWO_8
  }

  /** The getters `leftWheelDir()` ... `rightWheelTPS()`. */
  function Get(r: Registers, f: Field): (v: int)
    ensures Fits(f, v)
  {
    match f
    case LeftDir => r.left.dir
    case LeftPwm => r.left.pwm
    case LeftTps => r.left.tps
    case RightDir => r.right.dir
    case RightPwm => r.right.pwm
    case RightTps => r.right.tps
  }

  /** Stores `v` into field `f`; only that field's bytes of the buffer change. */
  function Put(r: Registers, f: Field, v: int): (r': Registers)
    requires Fits(f, v)
    ensures Get(r', f) == v
    ensures forall g :: g != f ==> Get(r', g) == Get(r, g)
    ensures forall i :: 0 <= i < REG_SIZE && i !in Offsets(f) ==> RegisterBuf(r')[i] == RegisterBuf(r)[i]
  {
    match f
    case LeftDir => r.(left := r.left.(dir := v))
    case LeftPwm => r.(left := r.left.(pwm := v))
    case LeftTps => r.(left := r.left.(tps := v))
    case RightDir => r.(right := r.right.(dir := v))
    case RightPwm => r.(right := r.right.(pwm := v))
    case RightTps => r.(right := r.right.(tps := v))
  }

  /** The slave object: the register block, the two wheel pointers given to
      `begin` (0 until then), two last-tick fields and the command buffer. */
  datatype Slave = Slave(
    regbuf: Registers,
    leftWheel: Option<nat>,
    rightWheel: Option<nat>,
    leftLastTick: U32,
    rightLastTick: U32,
    cmdbuf: seq<Byte>)

  /** The field each setter of the class writes, as written: every setter
      writes its own field except `rightWheelPWM(pwm)`, whose body assigns
      `left.pwm`. */
  function SetterTargetAsWritten(f: Field): Field {
    if f == RightPwm then LeftPwm else f
  }

  /** A setter of the class as written. */
  function SetAsWritten(s: Slave, f: Field, v: int): (r: Slave)
    requires Fits(f, v)
    ensures r == s.(regbuf := r.regbuf)
    ensures Get(r.regbuf, SetterTargetAsWritten(f)) == v
    ensures forall g :: g != SetterTargetAsWritten(f) ==> Get(r.regbuf, g) == Get(s.regbuf, g)
    ensures f != RightPwm ==> Get(r.regbuf, f) == v
  {
    var t := SetterTargetAsWritten(f);
    s.(regbuf := Put(s.regbuf, t, v))
  }

  /** `rightWheelPWM(p)` as written leaves the right PWM register unchanged
      and overwrites the left one. */
  lemma {:induction false} RightPwmSetterWritesLeft(s: Slave, p: Byte)
    requires s.regbuf.left.pwm != p
    ensures Get(SetAsWritten(s, RightPwm, p).regbuf, RightPwm) == Get(s.regbuf, RightPwm)
    ensures Get(SetAsWritten(s, RightPwm, p).regbuf, LeftPwm) == p != Get(s.regbuf, LeftPwm)
  {
  }

  /** A setter as evidently intended: the field named by the setter. */
  function Set(s: Slave, f: Field, v: int): (r: Slave)
    requires Fits(f, v)
    ensures r == s.(regbuf := r.regbuf)
    ensures Get(r.regbuf, f) == v
    ensures forall g :: g != f ==> Get(r.regbuf, g) == Get(s.regbuf, g)
  {
    s.(regbuf := Put(s.regbuf, f, v))
  }

  /** With the intended setters, every getter returns what its setter last
      stored, whatever other setters ran in between. */
  lemma {:induction false} GetterReturnsLastSet(s: Slave, f: Field, v: int, others: seq<(Field, int)>)
    requires Fits(f, v)
    requires forall k :: 0 <= k < |others| ==> others[k].0 != f && Fits(others[k].0, others[k].1)
    ensures Get(SetAll(Set(s, f, v), others).regbuf, f) == v
    decreases |others|
  {
    if |others| > 0 {
      var s1 := Set(s, f, v);
      var s2 := Set(s1, others[0].0, others[0].1);
      assert Get(s2.regbuf, f) == v;
      assert s2 == Set(s2, f, v);
      GetterReturnsLastSet(s2, f, v, others[1..]);
    }
  }

  /** Applies the intended setters in order. */
  function SetAll(s: Slave, writes: seq<(Field, int)>): Slave
    requires forall k :: 0 <= k < |writes| ==> Fits(writes[k].0, writes[k].1)
    decreases |writes|
  {
    if |writes| == 0 then s else SetAll(Set(s, writes[0].0, writes[0].1), writes[1..])
  }

  /** `registerBuf()`: the whole register block as bytes. */
  function RegisterBytes(s: Slave): (b: seq<Byte>)
    ensures |b| == REG_SIZE && ParseRegisters(b) == s.regbuf
  {
    RegisterBuf(s.regbuf)
  }
}
