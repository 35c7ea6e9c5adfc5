# Polyphase software PWM and PCA9685 servo driver, in Dafny

This project models two small embedded C programs and proves properties of the models.

**The polyphase PWM generator** is `libgpiod/polyphase_pwm.c`. It drives three GPIO lines with pulse-width modulated square waves, 120° apart, from one sleep loop.

- Before the loop, each phase's duty table (one duty value per degree) is compiled into a truth table. The table has `phaseRes` divisions of `TEMPORAL_RESOLUTION = 4` sub-slots each.
- The resolution comes from the target frequency, and the program reports the frequency actually achieved.
- On every tick (30000 per second) each line is evaluated. It is written only when its table entry differs from the cached bit `isHigh`.
- The (division, sub-slot) counters then advance like an odometer. The loop sleeps until an absolute deadline that moves on by exactly one tick interval each time.

**The PCA9685 driver** is `PCA9685/PCA9685_driver.c`, function `setHighTime`.

- It clamps a servo's on-count to one period of 4096 counts and stores the off-count `4096 - on` in the global `lowtime`.
- It then writes both counts, high byte first, to the servo's four registers `0x06 + 4*servo` to `0x09 + 4*servo`.

Both models follow the code's own form:

- In-place array loops are methods with loop invariants over `array`/`array2`. These are `generateTruthTable`, `evaluateLine` on the `isHigh` array, and the main loop.
- Global state is a class field: the `time1` deadline, the PCA9685 handle and `lowtime`.
- Each foreign call becomes a method of a class that logs what it was asked to do:
  - `gpiod_line_request_set_value` in `LineRequest`;
  - `clock_nanosleep` in `Clock`;
  - `wiringPiI2CWriteReg8` in `Driver.WriteReg8`.
- The pure formulas are functions.
- Each method is proved against a specification function:
  - `TruthTable` for the compiler;
  - `CountersAt`, an odometer, for the counters;
  - `RunWrites` for the write log of a whole run. It is built from `ValueAt`, the row-major reading of a table, and `Transition`, evaluateLine's edge rule.
  - `HighTimeWrites` for setHighTime.
- The program's promises are lemmas about these functions: edge-only writes, periodicity, no drift, the byte-split round trip and so on.

Floating point is modelled by exact `real` arithmetic. C's `round` (halves away from zero) is `Round`.

Some behaviour of the code is easy to miss. The model follows the code:

- **Initial line level.** The lines are requested with the initial value *ACTIVE* (`polyphase_pwm.c:90`), but `isHigh` starts all false (`:128`). A line whose first entry is low is therefore never written at first, and it stays high while the cache says low. `ActiveRequestDisagreesWithCache` shows this, and `LineLevelMatchesCache` states exactly when the last commanded level and the cache agree.
- **No clamp of the high-slot count.** The high-slot count `round(duty * 4)` is not clamped (`:205`, `:213`). The row is still the prefix of `min(max(h, 0), 4)` slots (`TruthTableRow`), and for duties in [0, 1] no clamp is needed (`UnitDutyNeedsNoClamp`).
- **No resolution check.** A phase resolution of 0 is not rejected (`:115-122`). With `p = 0`, `getTrueFreq` divides by zero (`:184`), the three tables have no rows, so the first `evaluateLine` reads past them (`:133`), and the test `divNum == phaseRes` (`:141`) never holds, so `divNum` never wraps. The model's callers must supply `phaseRes >= 1`: `PwmMain` and `PwmLoop` require it, and the counter lemmas assume it.
- **Angle index range.** `round(i * 360 / p)` is a valid index into the 360-entry duty table for every division exactly when `p < 720`. At `p = 720` the last division reads index 360 (`AngleIndexInRange`). `GenerateTruthTable` therefore requires `p < 720`.
- **The low-byte mask is octal.** The mask `0000000011111111` in `PCA9685_driver.c:80,82` is a C octal literal, 0x249249. After the `uint8_t` cast, only bits 0, 3 and 6 of each low byte reach the chip. `LowMaskIsOctal`, `LowByteMask` and `MainExampleWrites` state this. For example, the call in `main` sends 0x41 rather than 0x55 for the on-count 1365. The model keeps the mask as written.
- **Register order.** The PCA9685 names its servo-0 registers LED0_ON_L, LED0_ON_H, LED0_OFF_L and LED0_OFF_H (0x06 to 0x09). setHighTime sends the high byte of each count to the `_L` register and the masked low byte to the `_H` register (`PCA9685_driver.c:79-82`). `HighTimeWritesShape` and `MainExampleWrites` keep this order.

## Model

| member | source | states |
|---|---|---|
| `PolyphasePwm.Round` | libgpiod/polyphase_pwm.c:177 | C `round`: the result is within one half of `x`, ties going away from zero |
| `PolyphasePwm.SleepTimeValue` | libgpiod/polyphase_pwm.c:74 | `sleeptime = round(10^9 / 30000)` is 33333 ns, less than one second |
| `PolyphasePwm.PhaseResolution` | libgpiod/polyphase_pwm.c:174-178 | the result is the nearest integer to (30000 / f) / 4, and it is non-negative for a positive frequency |
| `PolyphasePwm.TrueFreq` | libgpiod/polyphase_pwm.c:182-185 | the true frequency times p * 4 ticks is exactly the tick rate 30000 |
| `PolyphasePwm.DefaultResolution` | libgpiod/polyphase_pwm.c:174-185 | the default 300 Hz gives 25 divisions, and 25 divisions give exactly 300 Hz |
| `PolyphasePwm.TrueFreqNearTarget` | libgpiod/polyphase_pwm.c:174-185 | the achieved frequency differs from the target by at most target / (2p) |
| `PolyphasePwm.AngleIndex` | libgpiod/polyphase_pwm.c:196-199 | `angleLookup[i]` is between 0 and 360, and below 360 whenever p < 720 |
| `PolyphasePwm.AngleIndexInRange` | libgpiod/polyphase_pwm.c:196-205 | every division's duty-table index is in range if and only if p < 720 |
| `PolyphasePwm.HighSlots` | libgpiod/polyphase_pwm.c:205 | definition: `highSweepsTbl[i]`, the duty at `angleLookup[i]` times 4, rounded and not clamped; `UnitDutyNeedsNoClamp` bounds it to [0, 4] for duties in [0, 1] |
| `PolyphasePwm.Row` | libgpiod/polyphase_pwm.c:208-222 | definition: a 4-slot row, slot j high exactly when j < h; `RowShape` states its shape and count |
| `PolyphasePwm.TruthTable` | libgpiod/polyphase_pwm.c:191-223 | definition: p rows, row i built from division i's high-slot count; `GenerateTruthTable` writes it and `TruthTableRow` states its rows |
| `PolyphasePwm.RowShape` | libgpiod/polyphase_pwm.c:208-222 | a row is clamp(h) true slots followed by false slots, and it holds exactly clamp(h) trues |
| `PolyphasePwm.TruthTableRow` | libgpiod/polyphase_pwm.c:202-222 | row i of a compiled table has slot j true if and only if j < highSweepsTbl[i]; the trues form a prefix of length min(max(h, 0), 4) |
| `PolyphasePwm.UnitDutyNeedsNoClamp` | libgpiod/polyphase_pwm.c:205 | with every duty in [0, 1], highSweepsTbl[i] already lies in [0, 4] |
| `PolyphasePwm.GenerateTruthTable` | libgpiod/polyphase_pwm.c:191-223 | the three loops leave rows 0..p-1 of the array equal to the compiled table, and later rows unchanged |
| `PolyphasePwm.Transition` | libgpiod/polyphase_pwm.c:230-249 | definition: evaluateLine's edge rule, one write of the new level on a change and none otherwise; `EvaluateLine` implements it, `TickWritesTo` and `EdgeOnlyWrites` count it |
| `PolyphasePwm.LineRequest.constructor` | libgpiod/polyphase_pwm.c:90-91 | a line group requested with an initial value and no writes yet |
| `PolyphasePwm.LineRequest.SetValue` | libgpiod/polyphase_pwm.c:234 | a set-value call appends its (line, value) write to the log and returns 0, or -1 when that call fails |
| `PolyphasePwm.EvaluateLine` | libgpiod/polyphase_pwm.c:227-249 | the cache bit becomes the table entry and the other bits are unchanged; one write of the new level is made exactly on a change; the return value is 1 when nothing was written, and otherwise 0 or -1 as the write succeeded or failed |
| `PolyphasePwm.CountersAt` | libgpiod/polyphase_pwm.c:125-145 | the counters after any number of ticks stay within divNum < phaseRes and sweepNum < 4 |
| `PolyphasePwm.OdometerStep` | libgpiod/polyphase_pwm.c:136-145 | one counter step adds one to the row-major position divNum*4 + sweepNum, modulo phaseRes*4 |
| `PolyphasePwm.CountersRowMajor` | libgpiod/polyphase_pwm.c:125-145 | after m ticks from (0, 0) the counters are the row-major decode of m mod (phaseRes * 4) |
| `PolyphasePwm.CountersPeriodic` | libgpiod/polyphase_pwm.c:136-145 | the counters repeat after phaseRes * 4 ticks |
| `PolyphasePwm.CountersAtOrigin` | libgpiod/polyphase_pwm.c:136-145 | the counters are at (0, 0) if and only if the tick count is a multiple of phaseRes * 4 |
| `PolyphasePwm.AdvanceCounters` | libgpiod/polyphase_pwm.c:136-145 | the counter update keeps both counters in range and advances the row-major position by one, modulo phaseRes * tempRes |
| `PolyphasePwm.CountersAdvance` | libgpiod/polyphase_pwm.c:136-145 | the update takes the counters of tick m to those of tick m + 1 |
| `PolyphasePwm.AddNanoseconds` | libgpiod/polyphase_pwm.c:159-168 | the deadline grows by exactly `nanoseconds`, stays normalised for a step below one second, and carries at most one second |
| `PolyphasePwm.Clock.constructor` | libgpiod/polyphase_pwm.c:73 | a clock whose global deadline is the time read before the loop |
| `PolyphasePwm.Clock.AbsSleep` | libgpiod/polyphase_pwm.c:157-170 | the deadline moves on from its previous value rather than from "now", is logged as the absolute sleep target, and the call returns that sleep's error number |
| `PolyphasePwm.ValueAt` | libgpiod/polyphase_pwm.c:130-145 | definition: the entry read at tick m, the row-major reading of m mod 4p; `HeldValue` ties it to the counters and `Schedule` collects it |
| `PolyphasePwm.TickWrites` | libgpiod/polyphase_pwm.c:133-135 | definition: one tick's writes, line 0, 1, then 2; `TickWritesTo` and `TickStep` state them per line |
| `PolyphasePwm.RunWrites` | libgpiod/polyphase_pwm.c:130-148 | definition: the writes of the first n ticks, tick by tick; `PwmLoop` writes exactly these and `EdgeOnlyWrites` counts them per line |
| `PolyphasePwm.Schedule` | libgpiod/polyphase_pwm.c:133-145 | the n entries read in the first n ticks are the row-major readings of the table |
| `PolyphasePwm.TickWritesTo` | libgpiod/polyphase_pwm.c:133-135 | in one tick, line k gets one write of its new level exactly when its entry changes, and none otherwise |
| `PolyphasePwm.EdgeOnlyWrites` | libgpiod/polyphase_pwm.c:128-135 | over n ticks, line k is written once per change of its row-major entry sequence, counting a change from the initial false |
| `PolyphasePwm.CacheIsLastCommand` | libgpiod/polyphase_pwm.c:227-249 | after every tick, each line's cache bit is the level last written to it, or Inactive when there has been no write |
| `PolyphasePwm.LineLevelMatchesCache` | libgpiod/polyphase_pwm.c:90-135 | the level last commanded for the line (the requested initial value until its first set-value call, failed or not) agrees with the cache if and only if the request was Inactive or the line has been commanded |
| `PolyphasePwm.ActiveRequestDisagreesWithCache` | libgpiod/polyphase_pwm.c:90-135 | with lines requested Active, a line whose table starts low stays high after the first tick while its cache bit is false |
| `PolyphasePwm.DeadlineAfterClosedForm` | libgpiod/polyphase_pwm.c:147-168 | the deadline after k sleeps is exactly k * 33333 ns after the start, with no drift |
| `PolyphasePwm.DeadlinesFromSnoc` | libgpiod/polyphase_pwm.c:147 | one more sleep extends the drift-free deadline sequence |
| `PolyphasePwm.HeldValue` | libgpiod/polyphase_pwm.c:230 | the entry the counters of tick `tick` select from the compiled array is that tick's row-major reading |
| `PolyphasePwm.EvaluateLines` | libgpiod/polyphase_pwm.c:133-135 | the three evaluateLine calls write the three lines' transitions in line order, and each cache bit becomes its line's entry |
| `PolyphasePwm.TickStep` | libgpiod/polyphase_pwm.c:133-135 | the writes of one tick are the three lines' transitions in order, and each entry becomes the next tick's cache bit |
| `PolyphasePwm.EvaluateTick` | libgpiod/polyphase_pwm.c:133-135 | evaluating tick `tick` appends exactly that tick's writes to the log and moves the cache to tick + 1 |
| `PolyphasePwm.SleepTick` | libgpiod/polyphase_pwm.c:147 | the sleep of tick `tick` appends the deadline that lies tick + 1 intervals after the start |
| `PolyphasePwm.PwmLoopIteration` | libgpiod/polyphase_pwm.c:130-148 | one loop iteration takes the write log, the counters, the cache and the deadlines from tick `tick` to tick + 1 |
| `PolyphasePwm.PwmLoop` | libgpiod/polyphase_pwm.c:124-148 | `ticks` iterations from (0, 0), an all-false cache and the start time write exactly `RunWrites(tables, ticks)`, and sleep to one drift-free deadline per tick |
| `PolyphasePwm.PwmMain` | libgpiod/polyphase_pwm.c:115-148 | main reports TrueFreq(p), compiles the three tables, and writes exactly the edges of those tables read in row-major order, with one drift-free deadline per tick |
| `Pca9685Driver.OctalValue` | PCA9685/PCA9685_driver.c:80 | the value of n octal digits is below 8^n |
| `Pca9685Driver.LowMaskIsOctal` | PCA9685/PCA9685_driver.c:80-82 | the mask literal `0000000011111111` is octal and denotes 0x249249 |
| `Pca9685Driver.ZeroDigits` | PCA9685/PCA9685_driver.c:80 | leading zero digits contribute nothing to an octal literal |
| `Pca9685Driver.ToUint8` | PCA9685/PCA9685_driver.c:79-82 | the `uint8_t` cast reduces the int modulo 256: the byte is the remainder of x by 256, and x is the quotient times 256 plus the byte |
| `Pca9685Driver.Clamped` | PCA9685/PCA9685_driver.c:75 | the on-count is at most 4096, unchanged when it is at most 4096, and exactly 4096 when it is at least 4096 |
| `Pca9685Driver.HighByte` | PCA9685/PCA9685_driver.c:79-81 | definition: `(uint8_t) (v >> 8)`; `ByteSplitRoundTrip` bounds it by 16 for a count up to 4096 |
| `Pca9685Driver.LowByte` | PCA9685/PCA9685_driver.c:80-82 | definition: `(uint8_t) (v & 0000000011111111)`; `LowByteMask` shows it is `v & 0x49` |
| `Pca9685Driver.HighTimeWrites` | PCA9685/PCA9685_driver.c:73-83 | definition: the four writes of one setHighTime call; `HighTimeWritesShape` states their registers and bytes and `Driver.SetHighTime` appends exactly them |
| `Pca9685Driver.ClampComplement` | PCA9685/PCA9685_driver.c:75-76 | lowtime = 4096 - on is at most 4096, and on + lowtime, as integers, is exactly 4096 |
| `Pca9685Driver.LowByteMask` | PCA9685/PCA9685_driver.c:80-82 | the byte written to a low register is `value & 0x49`, not `value & 0xFF` |
| `Pca9685Driver.ByteSplitRoundTrip` | PCA9685/PCA9685_driver.c:79-82 | for a count up to 4096, the high byte is at most 16, and the two bytes read back as a 16-bit pair give the count if and only if no bit of 0xB6 is set |
| `Pca9685Driver.HighTimeWritesShape` | PCA9685/PCA9685_driver.c:73-83 | setHighTime makes four writes, to registers 0x06..0x09 + 4*servo in order: the on-count's high and masked low byte, then the off-count's |
| `Pca9685Driver.ServoRegistersDisjoint` | PCA9685/PCA9685_driver.c:79-82 | two different servos never write the same register |
| `Pca9685Driver.MainExampleWrites` | PCA9685/PCA9685_driver.c:67-83 | `setHighTime(0, 4096/3)` writes 0x05, 0x41, 0x0A, 0x09 to registers 6..9 |
| `Pca9685Driver.Driver.constructor` | PCA9685/PCA9685_driver.c:43 | a driver with the handle from wiringPiI2CSetup and no writes yet |
| `Pca9685Driver.Driver.WriteReg8` | PCA9685/PCA9685_driver.c:79 | one register write is appended to the bus log on the driver's handle |
| `Pca9685Driver.Driver.WriteCounts` | PCA9685/PCA9685_driver.c:79-82 | the four writes go in source order, on-count bytes first, then the lowtime bytes |
| `Pca9685Driver.Driver.SetHighTime` | PCA9685/PCA9685_driver.c:73-83 | lowtime becomes 4096 minus the clamped on-count, and the bus log grows by exactly `HighTimeWrites` |

## Left out

- `request_output_line` (libgpiod/polyphase_pwm.c:256-301) is the libgpiod line-request set-up. It is a foreign library call and is not modelled. `LineRequest` starts from the requested initial value.
- The generation of the sine tables (libgpiod/polyphase_pwm.c:98-109) is float trigonometry. The three duty tables are inputs of `PwmMain`.
- Floating point: `float`/`double` arithmetic and its rounding error are modelled by exact reals. `PhaseResolution` and `TrueFreq` are the exact formulas.
- Blocking and real time. `clock_gettime` becomes the parameter `now`, and `clock_nanosleep` becomes a logged absolute deadline. The clock's return value is a parameter of `Clock` (`errors`). The actual waiting is not modelled.
- Failing set-value calls. Which `gpiod_line_request_set_value` calls fail is a parameter of `LineRequest` (`failing`); the library's internals are not modelled.
- The infinite `for(;;)` is modelled as `ticks` iterations. The models say nothing about non-termination or signals.
- `gpiod_line_request_release` is not modelled; it is unreachable after the infinite loop. The printing of the `printf` report is not modelled; the reported true frequency is `PwmMain`'s result.
- Integer widths. `uint_fast16_t` counters and the `int` resolution are unbounded naturals and integers. With `phaseRes < 720` and sub-slots below 4, no width is reached.
- PwmMain and GenerateTruthTable require `1 <= p < 720` and `0 <= p < 720` respectively. The source checks neither. It misbehaves outside these ranges. With `p = 0`, getTrueFreq divides by zero, the tables have no rows so the first evaluateLine reads past them, and `divNum` never wraps. With `p >= 720`, the last division reads past the duty table.
- LineLevelMatchesCache is about the last commanded level, not the electrical level. A failed set-value call still counts as a command, because the log records every attempted write; what the line does after a failed call is not modelled.
- The return codes of `evaluateLine` and `absSleep` are modelled, but main ignores them, and so do `PwmLoopIteration` and `PwmLoop`.
- Pca9685Driver.Driver.WriteReg8 does not model the return code of `wiringPiI2CWriteReg8`. setHighTime ignores it.
- Servo range. The register arithmetic `0x06 + servo*4` is C `int` arithmetic. `SetHighTime` requires `servo*4` and the four register numbers to stay within the 32-bit range, a range the source leaves to its caller. There is no other check on `servo`, and none is modelled.
- The PCA9685 `main` (PCA9685/PCA9685_driver.c:40-71) is not modelled, except for its example call. It covers device set-up, `usleep` delays and the configuration writes, which are hardware I/O.
- The other programs of the repository are not part of this model: `ATXMega128a1u/main.c`, `libgpiod/fastest_switching.c`, `libgpiod/50_hz_example.c` and `SX1262_LoRa/SX1262.c`. They are hardware bring-up, trivial toggle loops or non-compiling stubs.
