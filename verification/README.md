# Wheel controller, register block, battery monitor and M2X client helpers in Dafny

This project models the control core of a small differential-drive robot and the pure helpers of
the M2X client library that ships with it:

- **TickRing** (`tick_ring.dfy`): the five-slot encoder ring buffer shared by both wheel classes.
  `tick` stores the 32-bit wrapped interval since the last tick at the write index.
  `avgTickTime` divides the 32-bit wrapped sum by five and truncates the result to 16 bits.
- **DirWheel** (`dir_wheel.dfy`): the PWM-plus-direction wheel of `NewMotorSpeedTest`.
  - `setSpeed` clamps the speed to ±20. On a sign reversal it first cuts the duty and waits the settle delay.
  - It then writes the direction pin and seeds the duty from `INIT_PWM`.
  - `loop` is the unit-step trim against the target tick-time table `TTT`, rate-limited by `_nextAdjTime`.
- **PhaseWheel** (`phase_wheel.dfy`): the TB6612FNG dual-input wheel of `RobotController`.
  - It follows the INA/INB truth table.
  - Its duty law is `10*|speed| + initoff`.
  - It has label, debug and offset accessors.
- **I2cRegisters** and **I2cHandler** (`i2c_registers.dfy`, `i2c_handler.dfy`):
  - the command and direction codes;
  - the 8-byte register block with its little-endian byte view;
  - the field getters and setters;
  - `calcTPS`, the encoder interrupts that publish it;
  - the bus request and receive handlers.
- **LboMonitor** (`lbo_monitor.dfy`): the low-battery shutdown monitor as a step function over
  `(lbo_count, shutdown_pending)` and one pin sample.
- **M2xStatus, M2xEncode, M2xTime, M2xWait, M2xJson, M2xStreamParser**: the M2X client helpers:
  - status classification;
  - percent-encoding of path segments (section 2.2 of RFC 1738; the unreserved set is that of section 2.3 of RFC 3986);
  - the ISO 8601 timestamp formatter over the Gregorian calendar;
  - the response matchers and digit readers;
  - the JSON request-body writers and request heads;
  - the stream-value parser callbacks.

Hardware effects (`analogWrite`, `digitalWrite`, `delay`) are an event trace returned next to the
new state. Clocks (`micros()`, `millis()`) are parameters. Interrupt handlers are discrete steps.
Input read from a connection is a string parameter, and printed output is a returned string
together with the byte count the source returns. C widths follow AVR:
- `unsigned long` is 32 bits and wraps.
- `unsigned int` is 16 bits and truncates.
- A plain `char` is signed on those targets, so a byte of 0x80 or above held in one is negative (`Common.SignedChar`).
  - The client's digit readers (`readStatusCode`, `readContentLength`, `getTimestamp32`) compute `c - '0'` on such a `char`, and the model reads them that way.
  - The percent-encoder is the exception: its main definitions read each byte as unsigned, the reading under which it is correct, and the signed reading is modelled separately (see Findings).

Where the code and its comments disagree, the model follows the code:
- The monitor's header comment (`runtbot/lbomon.py`:9) says three LOW samples *in a row* cancel a pending shutdown. The loop counts LOW samples without resetting on HIGH, so any three LOW samples cancel (`LboMonitor.ScatteredLowSamplesCancel`).
- `calcTPS` treats a wrapped clock as if it wrapped at one million microseconds. The timer wraps at 2^32 (`I2cHandler.CalcTpsAcrossWrap`).
- `waitForString` does not retry the current character after a mismatch, so it misses overlapping matches (`M2xWait.OverlapMissed`).
- The stop from reverse in `NewMotorSpeedTest` writes the direction pin while the old duty is still applied (`DirWheel.StopFromReverseFlipsDirectionPowered`). Only strict sign reversals go through the duty-0 settle path.

Several `RobotController` files do not compile as written. The model follows the evident intent at each site:
- the missing `;` after the struct and union declarations and the class (`i2c_handler.h`:42, 57 and 133);
- the untyped parameters of `calcTPS` (`i2c_handler.cpp`:15), read as `unsigned long`;
- the unbalanced parenthesis at `i2c_handler.cpp`:18;
- the untyped `dirPin2` of the constructor (`Wheel.h`:17);
- the fields `_dirPin1/_dirPin2` (`Wheel.h`:52-53), used under the names `_inaPin/_inbPin` (`wheel.cpp`:26-27).

In `NewMotorSpeedTest/Wheel.h`:17 the extra qualification `Wheel::Wheel` is read as the plain constructor.

## Model

| member | source | states |
|---|---|---|
| TickRing.Initial | Arduino/NewMotorSpeedTest/Wheel.cpp:25-42 | The constructors leave every slot 0, the write index at slot 0 and no tick seen. |
| TickRing.Tick | Arduino/NewMotorSpeedTest/Wheel.cpp:90-95 | A tick stores the 32-bit wrapped interval since the last tick at the write index, changes no other slot, records the tick time and advances the index modulo 5. |
| TickRing.AvgTickTime | Arduino/NewMotorSpeedTest/Wheel.cpp:98-104 | The average sums all five slots, zeros included, with 32-bit wrap, divides by 5 and truncates to 16 bits. Without overflow it is the floor of the slot mean. |
| TickRing.TickSlidesWindow | Arduino/NewMotorSpeedTest/Wheel.cpp:90-95 | Read oldest-first from the write index, the buffer is a sliding window: a tick drops the oldest interval and appends the new one. |
| TickRing.WindowSum | Arduino/NewMotorSpeedTest/Wheel.cpp:101 | Summing the slots in buffer order equals summing the window in age order, so the average is that of the last five intervals. |
| TickRing.TickAllWindow | Arduino/NewMotorSpeedTest/Wheel.cpp:90-95 | After up to five ticks the window is the older intervals still held, followed by the intervals between the new tick times. The last tick time is recorded. |
| TickRing.AverageOfLastTicks | Arduino/NewMotorSpeedTest/Wheel.cpp:98-104 | After five ticks the average depends only on those five intervals, whatever the buffer held before. |
| TickRing.SteadyAverage | Arduino/NewMotorSpeedTest/Wheel.cpp:98-104 | Five ticks spaced exactly `d` apart average to exactly `d`. |
| TickRing.AverageOfEvenTicks | Arduino/NewMotorSpeedTest/Wheel.cpp:98-104 | From the constructor state, k < 5 ticks spaced `d` apart average to `(k*d)/5`: the zero slots still count toward the mean. |
| DirWheel.TttStrictlyDecreasing | Arduino/NewMotorSpeedTest/Wheel.cpp:15-18 | The target tick-time table has one entry per speed level 0..20. Above level 0 it strictly decreases: a faster level means a shorter interval. |
| DirWheel.InitPwmInRangeAndIncreasing | Arduino/NewMotorSpeedTest/Wheel.cpp:20-23 | The starting-duty table has one entry per speed level, each within 0..255, strictly increasing with the level. |
| DirWheel.New | Arduino/NewMotorSpeedTest/Wheel.cpp:25-47 | A new wheel keeps its label and debug flag, is stopped at duty 0 with an empty tick buffer, and drives duty 0 and direction forward. |
| DirWheel.NewDefault | Arduino/NewMotorSpeedTest/Wheel.h:17 | The constructor without a debug argument gives a valid stopped wheel with that label and debug off. |
| DirWheel.DestroyStopsFirst | Arduino/NewMotorSpeedTest/Wheel.cpp:50-53 | The destructor restores the constructor's outputs, and it cuts the duty before touching the direction pin, so from any valid state the direction never changes under power. |
| DirWheel.SetPwm | Arduino/NewMotorSpeedTest/Wheel.cpp:132-137 | The stored and written duty is the request clamped to 0..255; nothing else changes. |
| DirWheel.SetSpeed | Arduino/NewMotorSpeedTest/Wheel.cpp:107-129 | The speed becomes the request clamped to ±20, and the direction pin reads REVERSE exactly for negative speeds. The duty becomes `INIT_PWM[abs speed]`. A strict sign reversal is preceded by duty 0 and the settle delay. |
| DirWheel.Tick | Arduino/NewMotorSpeedTest/Wheel.cpp:90-95 | The wheel's tick updates only the tick buffer, as the ring-buffer tick does. |
| DirWheel.Loop | Arduino/NewMotorSpeedTest/Wheel.cpp:56-87 | Nothing happens unless the wheel is moving and the adjustment time has passed; then the next adjustment time is always set 200 ms on. A zero or on-target average keeps the duty. A shorter interval lowers the duty by one, floored at 0; a longer one raises it by one, capped at 255. |
| DirWheel.SetSpeedFlipsDirectionUnpowered | Arduino/NewMotorSpeedTest/Wheel.cpp:107-129 | Every speed change except the stop from reverse flips the direction pin only while the duty output is 0. |
| DirWheel.StopFromReverseFlipsDirectionPowered | Arduino/NewMotorSpeedTest/Wheel.cpp:108-124 | Stopping a wheel that runs in reverse flips the direction pin while the old duty is still applied. |
| DirWheel.LoopKeepsDirection | Arduino/NewMotorSpeedTest/Wheel.cpp:56-87 | The trim never writes the direction pin. |
| DirWheel.SteadyStateKeepsDuty | Arduino/NewMotorSpeedTest/Wheel.cpp:56-87 | Five ticks spaced exactly at the target interval of the current level lead to a due adjustment that changes nothing. |
| DirWheel.SetSpeedDrives | Arduino/NewMotorSpeedTest/Wheel.cpp:107-129 | Whatever the pins held before, after `setSpeed` they hold the new duty and the direction level of the new speed. |
| DirWheel.OperationsDriveState | Arduino/NewMotorSpeedTest/Wheel.cpp:25-137 | The constructor leaves the pins at its state's duty and direction from any prior pin state. `setPWM` writes only the duty. `setSpeed`, `loop` and `tick` keep the pins in step with the state. |
| DirWheel.ReachableOutputsMatchState | Arduino/NewMotorSpeedTest/Wheel.h:15-29 | After the constructor and any sequence of `setSpeed`, `loop`, `tick` and `label()` calls, the pins hold the state's duty and direction level, so the trace lemmas' starting pins are those of any reachable wheel; `label()` returns the constructor's label. |
| DirWheel.TrimOpposesError | Arduino/NewMotorSpeedTest/Wheel.cpp:61-83 | The trim moves the duty against the error. Too fast never raises it and too slow never lowers it; off target and away from the bounds, it always moves. |
| PhaseWheel.InputsFollowTruthTable | Arduino/RobotController/wheel.cpp:6-13 | The input levels for a speed are LOW/HIGH exactly when it is positive, HIGH/LOW exactly when it is negative, and LOW/LOW exactly at 0. HIGH/HIGH is never selected. |
| PhaseWheel.SetPwm | Arduino/RobotController/wheel.cpp:115-126 | The stored and written duty is the request clamped to 0..255; nothing else changes. |
| PhaseWheel.SetSpeed | Arduino/RobotController/wheel.cpp:78-112 | The speed becomes the request clamped to ±20 and the duty `10*abs speed + initoff` clamped to 0..255, also at speed 0. The inputs follow the truth table, written INA first. A strict reversal is preceded by duty 0 and the settle delay. |
| PhaseWheel.New | Arduino/RobotController/wheel.cpp:21-51 | A new wheel has an empty tick buffer. It ends in the state of `setSpeed(0)`: brake inputs, and the offset alone, clamped, as duty. |
| PhaseWheel.NewDefault | Arduino/RobotController/Wheel.h:17 | The constructor without offset and debug arguments gives offset 0, duty 0 and debug off. |
| PhaseWheel.DestroyBrakes | Arduino/RobotController/wheel.cpp:54-58 | The destructor cuts the duty first and then drives both inputs to the brake state, never powering HIGH/HIGH on the way. |
| PhaseWheel.Tick | Arduino/RobotController/wheel.cpp:61-66 | The wheel's tick updates only the tick buffer, with the same ring-buffer semantics as the other variant. |
| PhaseWheel.AccessorsRoundTrip | Arduino/RobotController/Wheel.h:29-36 | Each getter returns what its setter stored, and each setter leaves the other accessors and the control state unchanged. |
| PhaseWheel.OffsetAppliesAtNextSetSpeed | Arduino/RobotController/wheel.cpp:111 | A new offset leaves the duty alone until the next speed change, which applies it. |
| PhaseWheel.SetSpeedNeverCoastsPowered | Arduino/RobotController/wheel.cpp:78-112 | Whenever a speed change passes through HIGH/HIGH, the duty output is 0. No speed change ends in HIGH/HIGH. |
| PhaseWheel.SetSpeedCoastsOnlyForwardToReverse | Arduino/RobotController/wheel.cpp:78-112 | Writing INA before INB passes through HIGH/HIGH exactly when a forward-running wheel is asked for a reverse speed; every other call keeps the inputs out of HIGH/HIGH throughout. |
| PhaseWheel.SetSpeedDrives | Arduino/RobotController/wheel.cpp:78-112 | Whatever the pins held before, after `setSpeed` they hold the new duty and the truth-table inputs of the new speed. |
| PhaseWheel.OperationsDriveState | Arduino/RobotController/wheel.cpp:21-126 | The constructor leaves the pins at its state's duty and inputs from any prior pin state. `setPWM` writes only the duty. `setSpeed`, `tick` and the setters keep the pins in step with the state. |
| PhaseWheel.ReachableOutputsMatchState | Arduino/RobotController/Wheel.h:15-36 | After the constructor and any sequence of `setSpeed`, `tick` and setter calls, the pins hold the state's duty and inputs, so the trace lemmas' starting pins are those of any reachable wheel. |
| PhaseWheel.ForwardToReversePassesThroughCoast | Arduino/RobotController/wheel.cpp:104-105 | The transient HIGH/HIGH state does occur when a forward-running wheel is reversed. |
| I2cRegisters.CommandCodes | Arduino/RobotController/i2c_handler.h:20-36 | Every command has its own byte, and decoding the byte gives the command back. Tone commands use 0xF0-0xF5. Exactly the forward and reverse commands (0x04-0x09) take one PWM byte, so every command fits the two-byte buffer. |
| I2cRegisters.RegisterBuf | Arduino/RobotController/i2c_handler.h:38-57 | The byte view of the register block is 8 bytes: each wheel's direction, duty and little-endian tick rate, left then right. |
| I2cRegisters.RegisterBufRoundTrip | Arduino/RobotController/i2c_handler.h:54-57 | The union's two views determine each other: the block read from its bytes is the block, and any 8 bytes are the bytes of some block. |
| I2cRegisters.Put | Arduino/RobotController/i2c_handler.h:70-116 | Writing a field makes its getter return the value and leaves every other field and every byte outside the field unchanged. |
| I2cRegisters.SetAsWritten | Arduino/RobotController/i2c_handler.h:70-116 | The class's setters as written each change one field, and that field is their own for every setter but the right-wheel duty. |
| I2cRegisters.RightPwmSetterWritesLeft | Arduino/RobotController/i2c_handler.h:106-108 | The right-wheel duty setter as written leaves the right duty unchanged and overwrites the left duty. |
| I2cRegisters.Set | Arduino/RobotController/i2c_handler.h:70-116 | The corrected setters change exactly their own field. |
| I2cRegisters.GetterReturnsLastSet | Arduino/RobotController/i2c_handler.h:70-116 | With the corrected setters, a getter returns the value last passed to its own setter, whatever other fields are written after it. |
| I2cRegisters.RegisterBytes | Arduino/RobotController/i2c_handler.h:118-120 | `registerBuf` exposes exactly the 8 bytes that read back as the register block. |
| I2cHandler.CalcTpsDefinedExactly | Arduino/RobotController/i2c_handler.cpp:15-24 | The C code's divisor is zero exactly when a previous tick exists, the clock did not advance, and the previous tick is one million microseconds ahead of the current one. |
| I2cHandler.CalcTps | Arduino/RobotController/i2c_handler.cpp:15-24 | No previous tick gives 0. An advancing clock gives one million divided by the elapsed microseconds, truncated to 16 bits. Otherwise the elapsed time is taken as wrapping at one million. |
| I2cHandler.CalcTpsIsTickRate | Arduino/RobotController/i2c_handler.cpp:17-18 | With an advancing clock and an interval of at least 16 µs, the result is the number of whole intervals of that length in one second: the tick rate in ticks per second, rounded down. |
| I2cHandler.CalcTpsShortIntervalWraps | Arduino/RobotController/i2c_handler.cpp:15-18 | Below 16 µs the rate does not fit the 16-bit result and wraps: ticks 10 µs apart report 34464 instead of 100000. |
| I2cHandler.CalcTpsSameInstant | Arduino/RobotController/i2c_handler.cpp:19-20 | Two ticks at the same instant report a rate of 1 tick per second. |
| I2cHandler.CalcTpsWrapBranch | Arduino/RobotController/i2c_handler.cpp:19-20 | When the clock did not advance, the divisor is the 32-bit wrapped difference plus one million, not the 32-bit elapsed time. |
| I2cHandler.CalcTpsAcrossWrap | Arduino/RobotController/i2c_handler.cpp:19-20 | Across a real 32-bit clock wrap with 2000 µs between ticks, the rate reported is 0 instead of 500. |
| I2cHandler.NewSlave | Arduino/RobotController/i2c_handler.cpp:55 | The constructor leaves both wheel links unset, both last-tick fields 0, the register bytes all 0 and a two-byte command buffer. |
| I2cHandler.Begin | Arduino/RobotController/i2c_handler.cpp:58-71 | `begin` links the two wheels and leaves the registers and last-tick fields as they were. |
| I2cHandler.LeftEncoderInterrupt | Arduino/RobotController/i2c_handler.cpp:27-32 | The left encoder interrupt publishes the tick rate since its previous tick in the left TPS register only, then remembers the current time as its last tick. |
| I2cHandler.RightEncoderInterrupt | Arduino/RobotController/i2c_handler.cpp:35-40 | The right encoder interrupt does the same for the right TPS register and its own last tick. |
| I2cHandler.FirstTickPublishesZero | Arduino/RobotController/i2c_handler.cpp:27-32 | The first left tick after boot publishes 0; the second publishes the rate between the two. |
| I2cHandler.I2cRequest | Arduino/RobotController/i2c_handler.cpp:43-45 | A bus read is answered with exactly 8 bytes that read back as the current register block. |
| I2cHandler.I2cReceive | Arduino/RobotController/i2c_handler.cpp:48-52 | Received bytes change no state: the command queue is not implemented. |
| LboMonitor.NextBehaviour | runtbot/lbomon.py:30-50 | While idle, HIGH counts up and LOW resets; while pending, LOW counts up and HIGH leaves the count. The third count issues the action, flips the mode and resets the count. Shutdown only happens from idle and cancel only from pending. The count stays within 0..2. |
| LboMonitor.RunAlternates | runtbot/lbomon.py:30-50 | From any valid state the actions alternate, starting with the one the current mode allows. The final mode records the parity of the actions issued. |
| LboMonitor.ActionsAlternateFromStart | runtbot/lbomon.py:24-50 | From the initial state the actions are shutdown, cancel, shutdown, and so on. |
| LboMonitor.ThreeHighSamplesShutDown | runtbot/lbomon.py:32-41 | Three HIGH samples from the start issue a shutdown; two do not. |
| LboMonitor.IdleCountsTrailingHighs | runtbot/lbomon.py:32-36 | Before the first shutdown the count is the number of HIGH samples since the last LOW one. |
| LboMonitor.ShutdownOnThirdHigh | runtbot/lbomon.py:38-41 | The first shutdown is issued on the sample that completes three HIGH samples in a row, and it leaves the monitor pending with count 0. |
| LboMonitor.ScatteredLowSamplesCancel | runtbot/lbomon.py:43-50 | While pending, three LOW samples separated by HIGH ones still cancel: the LOW samples need not be consecutive. |
| M2xStatus.StatusClasses | Energia/libraries/M2XStreamClient/M2XStreamClient.h:39-54 | Success is `E_OK` or status class 2, client error is class 4, server error class 5, error either of those. No status is both a success and an error. |
| M2xStatus.ClientErrorCodes | Energia/libraries/M2XStreamClient/M2XStreamClient.h:27-34 | The library's own error codes are distinct and negative, and none of them classifies as success or as an HTTP error. |
| M2xEncode.ToHex | Energia/libraries/M2XStreamClient/M2XStreamClient.h:428 | A digit value 0..15 becomes an upper-case hex digit that reads back as the value. |
| M2xEncode.EncodeChar | Energia/libraries/M2XStreamClient/M2XStreamClient.h:436-453 | An unreserved character is sent as itself. Any other byte becomes `%` and two upper-case hex digits spelling its value. |
| M2xEncode.PercentEncode | Energia/libraries/M2XStreamClient/M2XStreamClient.h:436-453 | The encoding is never shorter than the name and contains only unreserved characters, `%` and hex digits. |
| M2xEncode.PrintEncodedString | Energia/libraries/M2XStreamClient/M2XStreamClient.h:436-453 | The loop prints the encoding of the whole string and returns the number of bytes printed. |
| M2xEncode.DecodeEncode | Energia/libraries/M2XStreamClient/M2XStreamClient.h:436-453 | Percent-decoding the encoding recovers the original string. |
| M2xEncode.EncodeInjective | Energia/libraries/M2XStreamClient/M2XStreamClient.h:436-453 | Two different names never share an encoded form. |
| M2xEncode.EncodeAppend | Energia/libraries/M2XStreamClient/M2XStreamClient.h:438-451 | Each byte is encoded on its own: encoding a concatenation concatenates the encodings. |
| M2xEncode.EncodeCharAsWritten | Energia/libraries/M2XStreamClient/M2XStreamClient.h:448-449 | On a signed-char target the source emits one character for an unreserved byte and three for any other. |
| M2xEncode.AsWrittenAgreesOnAscii | Energia/libraries/M2XStreamClient/M2XStreamClient.h:448-449 | For 7-bit bytes the source's signed arithmetic gives the intended encoding. |
| M2xEncode.PercentEncodeAsWritten | Energia/libraries/M2XStreamClient/M2XStreamClient.h:436-453 | On a signed-char target the whole name's encoding is never shorter than the name. |
| M2xEncode.HighByteEncodedWrongly | Energia/libraries/M2XStreamClient/M2XStreamClient.h:448-449 | For every byte of 0x80 or above, the signed reading puts a character at or below `0` where the intended first hex digit is `8` to `F`. |
| M2xEncode.AsWrittenAgreesExactlyOnAscii | Energia/libraries/M2XStreamClient/M2XStreamClient.h:436-453 | The signed-char encoding of a whole name equals the intended one exactly when every byte is below 0x80, and it always has the same length. |
| M2xEncode.HighByteStringMisencoded | Energia/libraries/M2XStreamClient/M2XStreamClient.h:436-453 | The name made of the byte 0xFF is sent as `%0/`, which does not decode back to the name. |
| M2xEncode.HighByteMisencoded | Energia/libraries/M2XStreamClient/M2XStreamClient.h:448-449 | Byte 0xFF is sent as `%0/` instead of `%FF`, which does not decode back to the byte. |
| M2xTime.LeapYearIsGregorian | Energia/libraries/M2XStreamClient/M2XStreamClient.h:1044-1048 | The year-offset rule is exactly the Gregorian leap-year rule on `1970 + y`. |
| M2xTime.MonthTable | Energia/libraries/M2XStreamClient/M2XStreamClient.h:1083-1101 | February has 29 days exactly in leap years, every month has 28 to 31 days, and the twelve months add up to the length of the year. |
| M2xTime.DayNumber | Energia/libraries/M2XStreamClient/M2XStreamClient.h:1075-1101 | The days before a valid date since 1970-01-01 fall within the span of its year. |
| M2xTime.YearFrom | Energia/libraries/M2XStreamClient/M2XStreamClient.h:1075-1081 | The year search stops at the year whose span contains the day count. |
| M2xTime.MonthFrom | Energia/libraries/M2XStreamClient/M2XStreamClient.h:1083-1101 | The month search stops at the month whose span contains the day of the year. |
| M2xTime.Civil | Energia/libraries/M2XStreamClient/M2XStreamClient.h:1066-1101 | Every non-negative timestamp breaks down into a valid calendar date and time whose epoch seconds are that timestamp. |
| M2xTime.FromDays | Energia/libraries/M2XStreamClient/M2XStreamClient.h:1075-1101 | A day count and a time of day give a valid date whose day number is that count. |
| M2xTime.JoinSeconds | Energia/libraries/M2XStreamClient/M2XStreamClient.h:1066-1073 | The divisions into days, hours, minutes and seconds lose nothing: they recombine to the timestamp. |
| M2xTime.SplitSeconds | Energia/libraries/M2XStreamClient/M2XStreamClient.h:1066-1073 | The divisions recover the days, hour, minute and second a timestamp was built from. |
| M2xTime.DayNumberInjective | Energia/libraries/M2XStreamClient/M2XStreamClient.h:1075-1101 | Two valid dates with the same day number are the same date. |
| M2xTime.FromDayNumber | Energia/libraries/M2XStreamClient/M2XStreamClient.h:1075-1101 | Breaking down a date's day number gives back the date. |
| M2xTime.CivilOfEpoch | Energia/libraries/M2XStreamClient/M2XStreamClient.h:1066-1101 | Breaking down the epoch seconds of any valid date gives back the date: the breakdown is a bijection onto valid dates. |
| M2xTime.Digits | Energia/libraries/M2XStreamClient/M2XStreamClient.h:1107-1112 | A zero-padded field has exactly the requested width and only decimal digits. |
| M2xTime.DigitsValue | Energia/libraries/M2XStreamClient/M2XStreamClient.h:1107-1112 | A value that fits the width reads back from its zero-padded digits. |
| M2xTime.Iso8601 | Energia/libraries/M2XStreamClient/M2XStreamClient.h:1114-1128 | The timestamp text is 24 characters, one less than the buffer size the source demands. |
| M2xTime.YearBound | Energia/libraries/M2XStreamClient/M2XStreamClient.h:1075-1081 | Any non-negative signed 32-bit timestamp falls in a year 1970..2038, so four year digits suffice. |
| M2xTime.Iso8601Separators | Energia/libraries/M2XStreamClient/M2XStreamClient.h:1114-1128 | The separators of `YYYY-MM-DDTHH:MM:SS.mmmZ` sit at their fixed positions. |
| M2xTime.Iso8601ReadsBack | Energia/libraries/M2XStreamClient/M2XStreamClient.h:1114-1128 | Every field of the text reads back as the date, time or millisecond it was written from, and the separators are in place. |
| M2xTime.TimestampReadsBack | Energia/libraries/M2XStreamClient/M2XStreamClient.h:1054-1134 | For a timestamp and a millisecond below 1000, the year and millisecond fields read back as the breakdown's year and the millisecond. |
| M2xTime.WriteDigits | Energia/libraries/M2XStreamClient/M2XStreamClient.h:1107-1112 | The digit loop writes the zero-padded field at the position and touches no other character. |
| M2xTime.YearOfDays | Energia/libraries/M2XStreamClient/M2XStreamClient.h:1075-1081 | The year loop finds the year containing the day count and the day within it. |
| M2xTime.MonthOfDay | Energia/libraries/M2XStreamClient/M2XStreamClient.h:1083-1101 | The month loop finds the month containing the day of the year and the day within it. |
| M2xTime.BreakDown | Energia/libraries/M2XStreamClient/M2XStreamClient.h:1066-1101 | The source's divisions and loops compute exactly the calendar breakdown of the timestamp. |
| M2xTime.Format | Energia/libraries/M2XStreamClient/M2XStreamClient.h:1114-1128 | The writes leave the timestamp text and a NUL at the front of the buffer, 25 characters in all. |
| M2xTime.FillIso8601 | Energia/libraries/M2XStreamClient/M2XStreamClient.h:1054-1134 | The length is always set to 25. A smaller buffer gives `E_BUFFER_TOO_SMALL` and is left untouched. Otherwise the result is `E_OK`, the first 25 characters hold the timestamp text and NUL, and the rest of the buffer is unchanged. |
| M2xWait.WaitForString | Energia/libraries/M2XStreamClient/M2XStreamClient.h:868-908 | An empty pattern is found at once; a reported position ends a stretch of input matching the pattern, with `*` matching anything. |
| M2xWait.ScanSound | Energia/libraries/M2XStreamClient/M2XStreamClient.h:872-893 | From any partial match, a success the scan reports ends a full match. |
| M2xWait.MatchAtStartFound | Energia/libraries/M2XStreamClient/M2XStreamClient.h:872-893 | Input that starts with a match is found right at the end of that match. |
| M2xWait.OverlapMissed | Energia/libraries/M2XStreamClient/M2XStreamClient.h:884-892 | A mismatch resets without retrying the character, so `aab` is not found in `aaab` although it occurs there. |
| M2xWait.WaitIgnoresCase | Energia/libraries/M2XStreamClient/M2XStreamClient.h:884 | Case-insensitive matching gives the same result on the input and on its lower-cased copy. |
| Common.SignedChar | Energia/libraries/M2XStreamClient/M2XStreamClient.h:923 | A character held in a plain `char` keeps its value below 0x80 and reads 256 less from 0x80 to 0xFF. |
| Common.DigitValue | Energia/libraries/M2XStreamClient/M2XStreamClient.h:926 | `c - '0'` gives a decimal digit's value, 0..9. |
| M2xWait.HighByteReadSigned | Energia/libraries/M2XStreamClient/M2XStreamClient.h:923-926 | A status line `HTTP/1.1 ` followed by `2`, byte 0xE9 and `0` reads as -510: the high byte counts as -23. |
| M2xWait.AccumulateIsDecimal | Energia/libraries/M2XStreamClient/M2XStreamClient.h:926 | The digit accumulator computes the decimal value of the digits read, shifted past the value already held. |
| M2xWait.ReadStatusCode | Energia/libraries/M2XStreamClient/M2XStreamClient.h:910-948 | The status is the decimal value of the three characters after the first `HTTP/x.y ` prefix, each read as a signed `char`. A response that ends before the prefix or before those three characters gives `E_DISCONNECTED`. |
| M2xWait.StatusLineReadsBack | Energia/libraries/M2XStreamClient/M2XStreamClient.h:910-948 | A status line `HTTP/x.y ` followed by a three-digit code reads back as that code. |
| M2xWait.StatusCodeRange | Energia/libraries/M2XStreamClient/M2XStreamClient.h:921-930 | Three digits after the status prefix give a code in 0..999. |
| M2xWait.ContentLengthOf | Energia/libraries/M2XStreamClient/M2XStreamClient.h:964-967 | The length is the decimal value of the characters before the line end, each read as a signed `char`, and a value of 0 is reported as `E_INVALID`. |
| M2xWait.ReadContentLength | Energia/libraries/M2XStreamClient/M2XStreamClient.h:950-984 | Without a `Content-Length: ` header the result is `E_DISCONNECTED`; otherwise it is the value of the characters up to the end of that line, read as for `M2xWait.ContentLengthOf`. |
| M2xWait.ContentLengthReadsBack | Energia/libraries/M2XStreamClient/M2XStreamClient.h:950-984 | A header written as `Content-Length: ` and a length's digits reads back as the length, or as `E_INVALID` for 0. |
| M2xWait.LengthLineReadsBack | Energia/libraries/M2XStreamClient/M2XStreamClient.h:959-981 | The digit loop stops at the line end and reads a zero-padded length back as the length. |
| M2xWait.SkipHttpHeader | Energia/libraries/M2XStreamClient/M2XStreamClient.h:986-988 | A position the header skip reports comes right after a `\n\r\n` in the input: the line end of the last header line and the blank line after it. |
| M2xWait.GetTimestamp32 | Energia/libraries/M2XStreamClient/M2XStreamClient.h:740-755 | The status is returned unchanged. Only a 200 response yields a timestamp, the decimal value of the body with each byte read as a signed `char`. |
| M2xJson.JoinLength | Energia/libraries/M2XStreamClient/M2XStreamClient.h:505 | A comma-separated list is as long as its items plus one comma between each pair. |
| M2xJson.WritePoint | Energia/libraries/M2XStreamClient/M2XStreamClient.h:500-504 | One point is printed as an object with its timestamp and value, and the count returned is the length printed. |
| M2xJson.WritePoints | Energia/libraries/M2XStreamClient/M2XStreamClient.h:499-507 | A stream's points are printed as the comma-separated list of its point objects, taken from the shared arrays at the stream's offset; the count is the length printed. |
| M2xJson.WriteStream | Energia/libraries/M2XStreamClient/M2XStreamClient.h:496-508 | One stream is printed as its name and the array of its points; the count is the length printed. |
| M2xJson.StreamAt | Energia/libraries/M2XStreamClient/M2XStreamClient.h:493-507 | Stream `i` takes its points from the running index left by the earlier streams, and they fit the arrays. |
| M2xJson.WriteStreams | Energia/libraries/M2XStreamClient/M2XStreamClient.h:495-510 | The streams are printed as the comma-separated list of their arrays; the count is the length printed. |
| M2xJson.WriteMultipleValues | Energia/libraries/M2XStreamClient/M2XStreamClient.h:490-513 | The body is the `values` object holding every stream, and its byte count (used for the length pass) equals what is printed. |
| M2xJson.WriteNamedValues | Energia/libraries/M2XStreamClient/M2XStreamClient.h:543-550 | Each stream's name and value are printed as a member, separated by commas; the count is the length printed. |
| M2xJson.WriteSingleDeviceValues | Energia/libraries/M2XStreamClient/M2XStreamClient.h:538-559 | The body is the `values` object with an optional timestamp member, and its byte count equals what is printed. |
| M2xJson.UpdateStreamValueBody | Energia/libraries/M2XStreamClient/M2XStreamClient.h:477-480 | The body is the one-member object `value`, exactly 12 bytes longer than the value, which is the constant the declared length adds. |
| M2xJson.WriteLocationData | Energia/libraries/M2XStreamClient/M2XStreamClient.h:584-598 | The body is the object with members name, latitude, longitude and elevation in that order, and the count is its length. |
| M2xJson.WriteDeleteValues | Energia/libraries/M2XStreamClient/M2XStreamClient.h:642-651 | The body is the object with members from and end, and the count is its length. |
| M2xJson.IntTextReadsBack | Energia/libraries/M2XStreamClient/M2XStreamClient.h:862-863 | A non-negative number is printed without padding as digits that read back as the number. |
| M2xJson.HeaderDeclaresLength | Energia/libraries/M2XStreamClient/M2XStreamClient.h:843-866 | An empty body gets no content lines. A non-empty body gets the content type and a `Content-Length` line that the library's own reader reads back as the body's length. |
| M2xJson.ContentLinesReadBack | Energia/libraries/M2XStreamClient/M2XStreamClient.h:857-864 | The content lines for a positive length read back as that length. |
| M2xJson.EncodedNameIsOneSegment | Energia/libraries/M2XStreamClient/M2XStreamClient.h:814-841 | An encoded stream name contains no `/`, space, `?`, `#` or line break, so it stays one segment of the request line. |
| M2xJson.UpdateStreamValueDeclaresBody | Energia/libraries/M2XStreamClient/M2XStreamClient.h:471-487 | Declaring `value length + 12` bytes gives the same request as declaring the length of the body sent. |
| M2xJson.CommandProcessedBody | Energia/libraries/M2XStreamClient/M2XStreamClient.h:668-705 | Without data the request has no content lines. With data it is the request line, a head declaring the data's length, and the data as the body. |
| M2xStreamParser.Truncate | Energia/libraries/M2XStreamClient/M2XStreamClient.h:1326-1335 | A captured token keeps its first 32 characters, or all of them if shorter. |
| M2xStreamParser.KeyRaisesWaitingOnly | Energia/libraries/M2XStreamClient/M2XStreamClient.h:1306-1317 | A key only raises waiting flags: a key beginning `timestamp` the timestamp's, a key beginning `value` and not followed by `s` the value's. The key `values` changes nothing. |
| M2xStreamParser.ScalarFiresOnPair | Energia/libraries/M2XStreamClient/M2XStreamClient.h:1319-1344 | A value is captured into the awaited slot. The callback fires exactly when this completes the pair; it then gets the current index and the token kind, the index advances by one and the flags clear. |
| M2xStreamParser.RunNumbersCallbacks | Energia/libraries/M2XStreamClient/M2XStreamClient.h:1338-1343 | Over any token stream the callbacks are numbered consecutively from the starting index, and the final index counts them. |
| M2xStreamParser.OnePoint | Energia/libraries/M2XStreamClient/M2XStreamClient.h:1306-1344 | A point object's four tokens give one callback with the truncated timestamp and value. |
| M2xStreamParser.PointsProduceCallbacks | Energia/libraries/M2XStreamClient/M2XStreamClient.h:1306-1344 | A sequence of point objects gives one callback per point, in order, with consecutive indices. |
| M2xStreamParser.OtherMemberIgnored | Energia/libraries/M2XStreamClient/M2XStreamClient.h:1306-1344 | A member whose key starts with neither word leaves the parser unchanged and fires nothing. |
| M2xStreamParser.KeyTestIsPrefix | Energia/libraries/M2XStreamClient/M2XStreamClient.h:1311-1314 | The key test compares prefixes only: `valueAt` raises the value flag and `timestamps` the timestamp flag; `valuesAt` raises nothing. |

## Left out

- Pin and PWM writes and `delay` are an event trace, with no timing. `pinMode`, `attachInterrupt`, `Wire` set-up and all `Serial` debug output are not modelled.
- Interrupt masking and preemption are not modelled. `avgTickTime` is an atomic snapshot of the buffer, and each interrupt handler is one discrete step.
- `Wheel::adjust` (`Arduino/RobotController/Wheel.h`:23) has no implementation.
- `Arduino/RobotController/Wheel.cpp` is an unfinished per-second design with empty branches and is not part of this model.
- `minimu9.h`, `piezo.cpp`, `config.h` and `driver.h` are not part of this model: sensor I/O, tone playback, pin constants and an empty class.
- The host command mailbox and decoder are not modelled, because `i2cReceive` consumes nothing. Only the command byte codes are.
- The M2X network code (connect, polling loops, `idlefunc`, `delay`, `close`), `TimeService`, `getTimestamp`, `listStreamValues`, `readLocation`, `listCommands` and the aJson readers are not modelled. This includes the fall-through of the String case into Int (`M2XStreamClient.h`:1720-1727).
- jsonlite tokenising is not modelled. The stream parser takes a sequence of key and scalar tokens.
- Rendering of `Print::print(T)` for numbers and doubles is not modelled: values and coordinates are given as the text they print as.
- JSON strings are not escaped by the source, and the model does not escape them either.
- The request lines of `postDeviceUpdates`, `postDeviceUpdate`, `updateLocation`, `deleteValues` and `markCommandRejected` are not modelled separately. Only their bodies and the shared head (`M2xJson.Request`) are.
- The shell commands of the monitor (`shutdown -h +1`, `shutdown -c`), GPIO set-up and `sleep` are emitted actions only.
- The `closeClient` flag of `readStatusCode` only closes the connection and is not modelled.
- `M2xWait.ContentLengthOf`, `M2xWait.ReadStatusCode` and `M2xWait.GetTimestamp32`: the `int`/`int32_t` digit accumulators are unbounded here. A C overflow on more digits than fit is not modelled.
- `M2xWait.ReadContentLength`: its accumulator is unbounded for the same reason as `M2xWait.ContentLengthOf`.
- `M2xJson.WriteMultipleValues` and `M2xJson.WriteSingleDeviceValues`: the byte count is unbounded, while the source's `int bytes` (`M2XStreamClient.h`:493 and 541) is 16 bits and wraps past 32767. A body of 32768 to 65535 bytes wraps to a negative count, and `writeHttpHeader` then leaves out the `Content-Length` line (`M2XStreamClient.h`:857). `M2xJson.Request` likewise declares `|body|` unwrapped. Bodies that long are not modelled.
- `Common.SignedChar`: a character above 0xFF, which a byte stream cannot deliver, is read by its low byte.
- `M2xTime.FillIso8601`: negative timestamps and negative milliseconds are excluded by its precondition. A millisecond of 1000 or more writes only its low three digits here.
- `PhaseWheel.SetSpeed`: `10*|s| + initoff` is computed without 16-bit `int` overflow, so an offset near the `int` limits is not modelled.
- `I2cHandler.CalcTpsIsTickRate`: it holds only for intervals of 16 µs or more. Shorter intervals make the 16-bit result wrap (`I2cHandler.CalcTpsShortIntervalWraps`).
- `I2cHandler.CalcTps`: it requires a non-zero divisor, because the C division by zero is undefined. `I2cHandler.CalcTpsDefinedExactly` states exactly which inputs that excludes.
- `DirWheel.Loop`: `_pwm` is a 16-bit `int` whose decrement below 0 and increment above 255 are clamped by `setPWM` at once. The model states the clamped result.

## Findings

| source | as written | input that shows it | evidently intended | confidence | as-written member | corrected member |
|---|---|---|---|---|---|---|
| Arduino/RobotController/i2c_handler.h:106-108 | `rightWheelPWM(p)` assigns `_regbuf.registers.left.pwm` | `rightWheelPWM(7)` on a block whose left duty is 0: the left duty becomes 7, the right one is unchanged | the setter writes `right.pwm`, so `rightWheelPWM()` returns the last value set | high (evident copy-paste slip); not executed | I2cRegisters.RightPwmSetterWritesLeft | I2cRegisters.GetterReturnsLastSet |
| Energia/libraries/M2XStreamClient/M2XStreamClient.h:448-449 | `str[i] / 16` and `str[i] % 16` on a plain `char`, which is signed on AVR and MSP430 compilers | the byte 0xFF in a stream name is sent as `%0/` | bytes of 0x80 and above are sent as `%` and two hex digits (`%FF`), so the name decodes back | medium (depends on the target's `char` signedness); not executed | M2xEncode.PercentEncodeAsWritten, M2xEncode.HighByteStringMisencoded | M2xEncode.PercentEncode, M2xEncode.DecodeEncode |
