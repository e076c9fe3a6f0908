# Verified model of the portable thermal regulator

A Dafny model of the regulator core and of the byte-level components around it, with proofs. One module
per source file or component; each operation that the source performs by updating state is a method or a
class proved equal to a specification function, and the properties are proved about those functions over
whole runs.

What is modelled, from the bottom up:

- **Arithmetic** (`CInt`, `Curve`, `Filter`, `Pid`, `Zone`, `Governor`, `Actuator`, `FanHealth`): C99
  truncating division, saturation and wrap-around written out over unbounded integers; piecewise-linear
  curves, the Q16.16 filter, PID with conditional integration, sensor aggregation, Schmitt-trigger trips,
  the final actuator stage (force-max, dwell, spin-up, slew, clamp) and the fan-health EMA.
- **Fault machinery** (`Fault`, `Runaway`, `Detectors`): the state machine the four detectors share, the
  runaway ring, clearing and event emission.
- **Configuration** (`Config`, `Signals`, `Validation`): the configuration, what a valid one is, and the
  validation loops that decide exactly that.
- **The regulator** (`Regulator`, `Invariants`, `Safety`, `Arbitrator`, `ThermalCore`): one tick and each command as
  functions of the state; an invariant that every tick and every command keeps, so it holds after every
  interleaving; safety precedence and the fallback floor in every such state; and the object whose loops
  implement the tick and the commands in place.
- **Whole runs** (`ActuatorRuns`, `DetectorRuns`, `ZoneRuns`): any run of the regulator, seen by one
  actuator, detector, zone or sensor, is a run of that component, so the components' theorems (dwell,
  debounce, latch, event balance, anti-windup, hysteresis, hull bounds) hold in the regulator.
- **What each operation computes** (`Quotients`, `PidLaws`, `BitLaws`, `ShaLaws`, `CrcLaws`, `WireLaws`, `TickLaws`, `CommandLaws`,
  `ActuatorLaws`, `DetectorLaws`, `SenseRuns`, `FanLaws`, `ZoneLaws`): the specification functions themselves,
  characterised without their own arithmetic: quotients and roundings by the inequalities that fix them, words by
  their bits, constants by the roots they come from, detector conditions by the history they test, demands by the
  trips that ask for them, commands by exactly when they are accepted and all that they change.
- **Limits** (`Ranges`, `RangeRuns`, `Witnesses`): for which inputs the intermediate values of the C arithmetic fit their
  types, and accepted configurations on which three expectations fail.
- **Bytes** (`Seqs`, `Bits`, `Crc`, `Wire`, `Scanner`, `Sha256`, `Ring`, `UartRx`, `TelemetryRing`): the framed wire
  codec and its CRC-16, the resynchronising receive accumulator for an arbitrary cap, streaming SHA-256
  (FIPS 180-4), and the two ring buffers, one of them as an interleaving of interrupt and consumer steps.

Conventions: the clock, samples, context values and received chunks are parameters. `ValidConfig` is what
initialisation accepts; `Invariants.Inv` is what every reachable state meets (`Invariants.RunKeepsInv`), so a
lemma that requires `Inv` speaks about every reachable state. An active-trip bit mask is the set of its bit
positions. Each detector of the model carries the log of its own fault events and a count of accepted
clears, which stand for the event callback.

Four places where the behaviour is not what a reader of the surrounding text might expect; the model
follows the code:

- Validation accepts negative sensor weights as long as their sum is positive, and a weighted zone can then
  act on a temperature outside the range of its sensors: `Witnesses.SkewedZoneLeavesSensors` gives an accepted
  configuration and a first tick on which it does. With a positive sum, a zone stays within its usable sensors,
  whichever are usable and whatever they read, if and only if none of its weights is negative
  (`Zone.AlwaysInHullIff`; for given usable sensors, if and only if their weights share a sign,
  `Zone.HullIffSameSign`).
- The stuck-sensor condition is evaluated only on ticks that close a window, and compares a span with
  threshold0. The detector can report if and only if its window is nonzero, persist_ticks is at most 1 or the
  window at most 2 ticks, and threshold0 is positive (`Detectors.StuckReportsIff`, for every configuration,
  correlated or not). Validation accepts settings that fail this, and the detector then never reports, whatever
  the readings (`Detectors.StuckNeverReports`, `DetectorRuns.CoreNeverReportsStuck`):
  `Witnesses.SilentDetectorNeverReports` gives persist_ticks of 2 and a window of 3 ticks.
- Validation never requires a trip's hysteresis to be non-negative, only `SET_TRIP` does; the prefix and
  hysteresis properties are therefore proved for any sign.
- The fallback is checked against unshifted trips only, while a policy curve may raise the trips.
  `Witnesses.RaisedTripsMissFallback` gives an accepted configuration whose zone, without any usable sensor on
  its first tick, stays below CRITICAL. A blind zone is made CRITICAL whatever its trip history if and only if
  its fallback reaches a CRITICAL or SHUTDOWN trip moved by the offset of the tick
  (`Governor.FallbackCriticalIff`, `Safety.BlindZoneIff`). That holds at every offset <= 0 if the zone has such a
  trip (`Safety.BlindUnraisedIsCritical`), and at every context value if and only if it holds at every curve
  point (`Safety.FloorAtEveryContextIff`).

`dafny verify dfyconfig.toml` checks the whole project.

## Model

| member | source | states |
|---|---|---|
| `Curve.FindSegment` | core/thermal_curve.c:19-25 | the scan returns the segment that brackets x: c[i].x < x <= c[i+1].x |
| `Curve.EvalAxis` | core/thermal_curve.c:5-41 | endpoint clamps plus the scan compute the curve that `Curve.EvalOnLine`, `EvalBelowFirst` and `EvalAboveLast` describe, and the result always fits 32 bits |
| `Curve.EvalInSegment` | core/thermal_curve.c:27-38 | inside a segment the curve is the truncated linear interpolation of its two points, which `Curve.EvalOnLine` fixes by inequalities |
| `Curve.EvalOnLine` | core/thermal_curve.c:27-38 | for c[i].x < x <= c[i+1].x, with d the width of the segment, n = (x - c[i].x) times its rise and r the value above the first point: abs(n - r*d) < d, abs(r*d) <= abs(n) and r is 0 or has the sign of n, which together determine r |
| `Curve.EvalBelowFirst` | core/thermal_curve.c:12-14 | at or below the first point the curve is constant |
| `Curve.EvalAboveLast` | core/thermal_curve.c:15-17 | at or beyond the last point the curve is constant |
| `Curve.InterpBetween` | core/thermal_curve.c:32-38 | an interpolated value never leaves the interval of the two values it interpolates |
| `Curve.EvalHull` | core/thermal_curve.c:5-41 | any bounds that hold at every knot hold at every x |
| `Curve.EvalAtKnot` | core/thermal_curve.c:5-41 | the curve passes exactly through its knots |
| `Curve.EvalMonotone` | core/thermal_curve.c:5-41 | rising knots make the whole truncated curve monotone |
| `Governor.AdjustedTripsValid` | core/thermal_core.c:488-511 | the loop accepts an offset exactly when every shifted temperature fits int32 and the shifted table stays ascending with disjoint hysteresis |
| `Governor.ValidBetween` | core/thermal_core.c:488-511 | accepting two offsets implies every offset between them is acceptable |
| `Governor.StepWise` | core/thermal_governor.c:4-37 | the loop computes the mask that `Governor.SchmittLaw` describes over runs, and the highest cooling state among the active trips |
| `Governor.SchmittLaw` | core/thermal_governor.c:14-31 | over every run, with tables that may change from tick to tick: a trip is active if and only if some tick was at or above its temperature and no later tick was below both its temperature and its temperature less hysteresis |
| `Governor.MaskIsPrefix` | core/thermal_governor.h:17-21 | on an ordered table the active trips are a contiguous prefix, whatever was active before |
| `Governor.OneTripDependsOnHistory` | core/thermal_governor.c:14-31 | at any temperature at most one trip depends on what was active before |
| `Governor.StepMonotone` | core/thermal_governor.c:4-37 | a hotter input and a larger previous mask give a larger mask and no lower cooling state |
| `Governor.HotterRunDominates` | core/thermal_governor.c:4-37 | over whole runs with the same tables tick by tick, a pointwise hotter trace has a superset mask and no lower cooling state |
| `Governor.MaxSeverity` | core/thermal_core.c:945-956 | the severity of a zone is an upper bound of its active trips' severities and is attained |
| `Governor.FallbackReachesSafetyFloor` | core/thermal_core.c:513-535 | the loop accepts exactly the fallbacks that reach every CRITICAL trip, or every trip when none is CRITICAL |
| `Governor.FallbackCriticalIff` | core/thermal_core.c:513-535 | at any acceptable offset, a zone sitting at its fallback is at least CRITICAL from every previous mask if and only if the fallback reaches some CRITICAL or SHUTDOWN trip moved by that offset |
| `Governor.FallbackIsCritical` | core/thermal_core.c:513-535 | what validation checks, the unshifted table, therefore suffices at every offset <= 0 |
| `Zone.AggregateSlots` | core/thermal_zone.c:4-84 | the loops compute the maximum, mean or weighted mean of the usable sensors, or the fallback |
| `ZoneLaws.MaxLaw` | core/thermal_zone.c:18-36 | MAX is an upper bound of the usable values and one of them |
| `ZoneLaws.AverageLaw` | core/thermal_zone.c:38-55 | AVG is the sum of the usable values over their number, truncated toward zero |
| `ZoneLaws.WeightedLaw` | core/thermal_zone.c:57-76 | WEIGHTED is the weighted sum over the total weight of the usable slots, truncated toward zero, for a total of either sign |
| `Zone.NoSensorMeansFallback` | core/thermal_zone.c:11-84 | with no usable sensor every mode reports the fallback, marked invalid |
| `Zone.InvalidMeansFallback` | core/thermal_zone.c:11-84 | a reading is invalid exactly when no sensor is usable or the usable weights of a weighted zone cancel, and it is then the fallback |
| `Zone.AggregateWithin` | core/thermal_zone.c:17-76 | a valid reading lies within the hull of the usable sensor values when the usable weights of a weighted zone share a sign |
| `Zone.HullIffSameSign` | core/thermal_zone.c:57-76 | a weighted zone whose usable weights do not cancel stays within its sensors, for all readings, if and only if those weights share a sign |
| `Zone.AlwaysInHullIff` | core/thermal_core.c:901-909 | for a positive weight sum, a weighted zone stays within its usable sensors under every pattern of usable sensors and every reading if and only if no weight is negative |
| `Zone.NegativeWeightLeavesHull` | core/thermal_zone.c:57-76 | weights 2 and -1 have a positive sum, and over readings of 0 and -60 degrees their weighted mean is +60 degrees |
| `Filter.Filter.StepSample` | core/thermal_filter.c:10-51 | the in-place step is the Q16.16 filter with half-away rounding and the validity lifecycle |
| `Filter.AdvanceRounds` | core/thermal_filter.c:36-49 | the correction is alpha times the error to the nearest count, halves away from zero |
| `Filter.Lifecycle` | core/thermal_filter.c:10-35 | the filter is valid exactly while its samples are, an invalid sample holds the value, the first valid one sets it |
| `Filter.AdvanceBetween` | core/thermal_filter.c:36-49 | with alpha in [0, 1] the new value lies between the old value and the sample, so saturation never triggers |
| `Filter.AdvanceOdd` | core/thermal_filter.c:36-49 | negating state and sample negates the result |
| `Filter.RunStaysInHull` | core/thermal_filter.c:10-51 | over any run the value stays within the hull of its initial value and the valid samples |
| `Filter.ErrorShrinks` | core/thermal_filter.c:36-49 | under a held input the value is at rest exactly when alpha * abs(error) < 32768, and otherwise the error strictly shrinks |
| `Filter.Settles` | core/thermal_filter.c:10-51 | under a constant input the value stops moving after the settling time, with alpha * abs(error) < 32768 |
| `Filter.SettleBound` | core/thermal_filter.c:36-49 | the initial error bounds the settling time in ticks |
| `Pid.Floor16` | core/thermal_pid.c:20-25 | the sign-defined shift is floor division by 2^16 |
| `Pid.PidController.StepFiltered` | core/thermal_pid.c:36-134 | the in-place step and its whole result, the three saturated terms included, equal the step function, whose output and stored state `PidLaws.StepLaw` fixes |
| `Pid.PidController.DerivativeTerm` | core/thermal_pid.c:69-93 | the derivative and its filter state are those of the step function |
| `PidLaws.StepLaw` | core/thermal_pid.c:54-134 | output, flags, three terms and stored state, with every quotient given by the inequalities that fix it: increment ki * (temp - setpoint) * dt / 1000, rate kd * (temp - previous) * 1000 / dt filtered by alpha, integer part of the clamped sum, integral stored unless it deepens a saturated output |
| `PidLaws.ElapsedLaw` | core/thermal_pid.c:36-53 | the interval is the time since the last tick, across a wrap of the clock, clamped to its limits; the first tick takes the lower one |
| `PidLaws.HotterNeverLess` | core/thermal_pid.c:54-115 | from the same state, with gains >= 0 and no derivative filter, a hotter reading never gives a lower output |
| `PidLaws.HigherSetpointNeverMore` | core/thermal_pid.c:54-115 | nor a higher setpoint a higher one |
| `PidLaws.ProportionalOnly` | core/thermal_pid.c:54-58 | with kp alone and a zero integral an unsaturated output satisfies output * 65536 <= kp * (temp - setpoint) < (output + 1) * 65536 |
| `PidLaws.IntegralFollowsError` | core/thermal_pid.c:61-66 | with ki > 0 a stored integral never falls above the setpoint nor rises below it, and moves as soon as the step is worth a count, is not held back by saturation and is not clipped |
| `PidLaws.DerivativeSign` | core/thermal_pid.c:69-93 | with kd >= 0 and no filter the derivative term has the sign of the rise in temperature, 0 on the first tick |
| `Pid.NeverDeepensSaturation` | core/thermal_pid.c:95-115 | for any gains the stored integral never moves in the direction that deepens a saturated output, and the output is in range |
| `Pid.PiStepBounded` | core/thermal_pid.c:54-115 | with kp, ki >= 0 and kd = 0 one step keeps the integral within [0, 2^24) |
| `Pid.IntegralBounded` | core/thermal_pid.c:54-115 | the same over every sequence of temperatures, setpoints and timestamps since reset |
| `Actuator.SlewStep` | core/thermal_slew.c:4-34 | the slew limiter moves toward the request by at most the rate, upward override excepted, and reports limiting exactly when it fell short |
| `Actuator.Drive` | core/thermal_core.c:2066-2210 | the branches of the final stage (force-max, dwell, spin-up, slew, clamp, counters) compute the stage function |
| `Actuator.StepKeepsInv` | core/thermal_core.c:2066-2210 | every tick keeps the duty in range and exactly one run counter running |
| `Actuator.ForcedIsMax` | core/thermal_core.c:2024-2131 | a forced actuator outputs exactly pwm_max that tick despite dwell, spin-up and slew |
| `Actuator.OverrideReachesDemand` | core/thermal_slew.c:9-33 | with the upward bypass the output reaches min(demand, pwm_max) at once |
| `Actuator.DownwardSlewAlwaysHolds` | core/thermal_slew.c:9-33 | no tick under any flags lowers the duty by more than a nonzero slew rate |
| `Actuator.OutputRange` | core/thermal_core.c:2113-2131 | an output is 0, within [pwm_min, pwm_max], or falling below pwm_min on its way to off |
| `Actuator.OnCounterIsRun` | core/thermal_core.c:2197-2209 | the on counter never exceeds the on-run that ends now |
| `Actuator.OffCounterIsRun` | core/thermal_core.c:2197-2209 | the off counter never exceeds the off-run that ends now, unless that run reaches back to init |
| `Actuator.SwitchEndsDwell` | core/thermal_core.c:2066-2089 | without a bypass a switch to off ends an on-run of at least min_on_ticks, and a switch to on an off-run of at least min_off_ticks or one from init |
| `Actuator.TurnsOff` | core/thermal_core.c:2066-2131 | once the demand stays 0 without bypass the duty is 0 after the rest of the on-dwell plus ceil(pwm_max / slew) ticks, and from then on |
| `ActuatorLaws.StageLaw` | core/thermal_core.c:2066-2210 | one tick moves from the present duty toward the wanted one (pwm_max forced, the present state while its dwell lasts, else the demand), or toward the higher spin-up duty while a kick is on, by at most the rate unless bypassed or kicked upward; then pwm_min and pwm_max, and the run counters |
| `ActuatorLaws.SpinupLength` | core/thermal_core.c:2090-2111 | the spin-up lasts its time rounded up to whole ticks |
| `ActuatorLaws.SpinupKick` | core/thermal_core.c:2090-2111 | a start from standstill holds the higher spin-up duty for exactly the spin-up ticks |
| `ActuatorLaws.HeldDemandReached` | core/thermal_core.c:2066-2131 | a running fan past its spin-up is at a held demand after ceil(distance / rate) ticks and stays there |
| `ActuatorLaws.WaitsOffDwell` | core/thermal_core.c:2066-2089 | a stopped fan stays off under any demand without bypass while its off-dwell lasts |
| `ActuatorLaws.StartsAfterDwell` | core/thermal_core.c:2066-2089 | and starts on the tick after it |
| `Fault.FaultFsm.FsmTick` | core/thermal_fault.c:17-86 | the in-place state machine equals the tick function |
| `Fault.RunTied` | core/thermal_fault.c:17-86 | in every run the counters are the trailing active or inactive runs of the sensed history |
| `Fault.NoCounterWraps` | core/thermal_fault.c:17-86 | no 16-bit counter ever wraps |
| `Fault.NonLatchingIsDebounce` | core/thermal_fault.c:17-86 | a non-latching detector is active exactly when the latest run of max(1, persist) active ticks is more recent than the latest run of max(1, recovery) + 1 inactive ones |
| `Fault.StateIsConfigured` | core/thermal_fault.c:6-86 | in any run an active detector is in the state its action and severity name, or RECOVERING if it does not latch |
| `Fault.EventLaw` | core/thermal_core.c:985-1005 | a tick logs ENTER on leaving NORMAL, RECOVERING on starting to recover, CLEAR on returning to NORMAL, nothing else; a clear command logs nothing |
| `Fault.EnteredLaw` | core/thermal_fault.c:17-86 | a state is stamped with the time it was entered |
| `Fault.LatchedUntilQuietClear` | core/thermal_core.c:2397-2473 | LATCHED is left only by a clear command that follows at least recovery_ticks trailing inactive ticks |
| `Fault.EventBalance` | core/thermal_core.c:985-1005 | ENTER events = CLEAR events + accepted clears + (1 if active), over ticks and clears |
| `Fault.RunIsLawful` | core/thermal_core.c:985-1005 | the event balance and the debounce law together, for any run of one detector |
| `Runaway.RunawayDetector.PushSample` | core/thermal_fault.c:284-288 | the push into the two arrays is the ring push |
| `Runaway.RunawayDetector.WindowTest` | core/thermal_fault.c:290-306 | the scan over the arrays decides the window condition |
| `Runaway.RunawayDetector.StepDetector` | core/thermal_fault.c:271-315 | the in-place step equals the step function, disabled and zero-width cases included |
| `Runaway.PushRefines` | core/thermal_fault.c:284-288 | a push keeps the ring a refinement of the sample history: filled exactly from `width` samples on, head on the oldest |
| `Runaway.TriggerMeansHistory` | core/thermal_fault.c:290-306 | the condition fires exactly when the last `width` samples exist, rise by the threshold end to end, and were all driven at the cooling threshold |
| `Runaway.RingTestsHistory` | core/thermal_fault.c:258-315 | both facts after every history since reset |
| `Detectors.StuckNeverReports` | core/thermal_fault.c:164-245 | with persist_ticks >= 2 and a window of 3 or more ticks, with no window, or with threshold0 <= 0, no readings whatever make the stuck-sensor detector leave NORMAL |
| `Detectors.StuckReportsIff` | core/thermal_fault.c:164-245 | for every configuration, correlated or not: some readings make it report if and only if the window is nonzero, persist_ticks <= 1 or the window is at most 2, and threshold0 is positive |
| `DetectorLaws.StallLaw` | core/thermal_fault.c:101-140 | after any duties the stall condition is: a valid tach below threshold0 while driven at threshold1 or more, and no rise from standstill within the last spin-up ticks, this one included |
| `DetectorLaws.StuckLaw` | core/thermal_fault.c:164-245 | after any readings the stuck condition is: this reading completes the window, all its valid values lie within less than threshold0 of each other, and a correlated context, if configured, moved by threshold2 or more |
| `SenseRuns.CoreStallLaw` | core/thermal_core.c:1790-1830 | on every tick of any run the stall detector of an actuator senses that of its tach sample and of the duties it was asked for since its last clear |
| `SenseRuns.CoreStuckLaw` | core/thermal_core.c:1585-1643 | on every tick of any run the stuck-sensor detector senses that of the readings offered since its last clear |
| `SenseRuns.ReadingLaw` | core/thermal_core.c:1586-1610 | a sensor offers its filtered value of the tick and that of the correlated context, if one is configured |
| `SenseRuns.CoreStaleLaw` | core/thermal_fault.c:334-349 | on every accepted tick of any run a context is sensed stale exactly when it never had a valid sample or the timeout has passed since the last one, this tick's counted and a wrap of the clock included |
| `FanHealth.RoundsToNearest` | core/thermal_fan_health.c:16-21 | the rounding division returns a nearest integer |
| `FanLaws.DeviationLaw` | core/thermal_fan_health.c:209-219 | the deviation is the nearest percentage of the interpolated expectation that the speed is above (positive) or below it, within -127 and 127 |
| `FanLaws.FoldLaw` | core/thermal_fan_health.c:221-230 | the first sample sets the average of the nearest point, a later one moves it an eighth of the way, truncated toward zero; that point's count grows and the other points stay |
| `FanLaws.ReportLaw` | core/thermal_fan_health.c:41-78 | the delta is the nearest integer to the weighted mean shortfall, a point weighing its samples up to 16 and double between the ends; the confidence is the number of points with samples |
| `FanLaws.GradeLaw` | core/thermal_fan_health.c:80-97 | each grade or a worse one is reported exactly when enough points have samples and the delta has reached its threshold; a modelled baseline never reports AGING |
| `FanLaws.GateLaw` | core/thermal_fan_health.c:129-157 | after any run a tick is gated exactly when it has no valid tach, is below the baseline, slewing, overridden now or on the tick before, or within the grace of the last rise into range |
| `FanLaws.SettledLaw` | core/thermal_fan_health.c:185-191 | a speed settles when it changed by at most the given percentage of the previous one |
| `FanLaws.HeldLaw` | core/thermal_fan_health.c:169-173 | a duty holds when it is within the tolerance of the one that opened the window |
| `FanHealth.NearestPoint` | core/thermal_fan_health.c:24-37 | the loop finds the first baseline point nearest to the duty |
| `FanHealth.Detector.Publish` | core/thermal_fan_health.c:41-97 | the loop re-derives delta, severity and confidence from the accumulators |
| `FanHealth.Detector.Gate` | core/thermal_fan_health.c:124-155 | the in-place gate (spin-up countdown, override edge) decides as the specification does, and a gated tick restarts the window |
| `FanHealth.Detector.TrackTick` | core/thermal_fan_health.c:124-207 | the branch sequence over the tracker fields computes the tracker and whether the tick folds |
| `FanHealth.Detector.StepTick` | core/thermal_fan_health.c:117-233 | the in-place tick equals the step function |
| `FanHealth.StepKeepsInv` | core/thermal_fan_health.c:41-97 | every tick keeps each EMA within 127 * 256 in size, the delta in [-127, 0], confidence equal to the observed points, and severity above HEALTHY only with enough of them |
| `FanHealth.SeverityMonotone` | core/thermal_fan_health.c:80-97 | at equal confidence a worse delta never reads as a milder grade |
| `FanHealth.ConfidenceMonotone` | core/thermal_fan_health.c:41-97 | over any run confidence never decreases and never exceeds the baseline count |
| `FanHealth.PwmRunIsHistory` | core/thermal_fan_health.c:149-185 | the duty-stability counter never exceeds the run of consecutive ungated ticks at one operating point that ends now |
| `FanHealth.RpmRunIsHistory` | core/thermal_fan_health.c:188-202 | the speed counter reaches m exactly when the steady window is m ticks long and its last m readings settled, saturation included |
| `FanHealth.FoldsExactlySteady` | core/thermal_fan_health.c:149-233 | in any run a tick folds its sample if and only if the steady window it ends is longer than its opening tick, at least as long as both settings ask, and its last stable_rpm_ticks readings settled; any other tick leaves accumulators and report alone |
| `FanHealth.FoldNeedsSteadyWindow` | core/thermal_fan_health.c:149-233 | so a sample changes the accumulators only after max(stable_pwm_ticks, stable_rpm_ticks) consecutive ungated ticks at one operating point with settled speed |
| `Crc.ComputeCrc16` | protocol/thermal_wire.c:52-66 | the nested loop computes the bitwise CRC-16 of the buffer |
| `CrcLaws.BitStepLaw` | protocol/thermal_wire.c:57-63 | bit by bit, one step shifts up and feeds the bit that leaves back at positions 0, 5 and 12: x^16 + x^12 + x^5 + 1 |
| `CrcLaws.ByteStepLaw` | protocol/thermal_wire.c:55-64 | a byte enters at bits 8 to 15 and eight bit steps follow |
| `CrcLaws.MessageLaw` | protocol/thermal_wire.c:52-66 | the register starts at 0xFFFF and takes the bytes in order, with no final XOR |
| `Crc.BitStepInjective` | protocol/thermal_wire.c:55-64 | one bit step of the register is injective |
| `Crc.AdjacentPairDetected` | protocol/thermal_wire.c:52-66 | equal-length messages that differ only inside two adjacent bytes never share a CRC |
| `Crc.SingleByteDetected` | protocol/thermal_wire.c:52-66 | messages that differ in exactly one byte never share a CRC |
| `Wire.I32RoundTrip` | protocol/thermal_wire.c:25-44 | four bytes are the little-endian two's-complement form of a value exactly when they read back as it, negatives included |
| `Wire.DecodeBuffer` | protocol/thermal_wire.c:317-370 | the branches on the receive buffer compute the frame decoder |
| `WireLaws.FrameLayout` | protocol/thermal_wire.c:74-127 | byte by byte: "TC", version 1, opcode, sequence number at 4, length at 6, timestamp at 8, payload at 12, CRC after it, little-endian |
| `Wire.DecodeIffEncoded` | protocol/thermal_wire.c:317-370 | with the CRC on, a buffer decodes to a frame exactly when it starts with that frame's encoding and the cap admits it |
| `Wire.DecodeUnchecked` | protocol/thermal_wire.c:349-356 | with checking off, any encoding, its CRC written or left zero, decodes to the frame |
| `Wire.AcceptedFrameReencodes` | protocol/thermal_wire.c:317-370 | an accepted frame re-encodes to exactly the bytes it was decoded from |
| `Wire.CorruptionRejected` | protocol/thermal_wire.c:317-356 | an encoded frame corrupted in any one byte outside the length field is never accepted |
| `Wire.AdjacentCorruptionRejected` | protocol/thermal_wire.c:317-356 | nor is one corrupted in two adjacent bytes of header or payload, outside the length field |
| `Wire.CrcCorruptionRejected` | protocol/thermal_wire.c:349-356 | nor is one corrupted in both bytes of the CRC field |
| `Wire.LengthCorruptionPasses` | protocol/thermal_wire.c:341-356 | one corrupted length byte can pass: a frame that carries another frame's payload and CRC, shortened by two in its length field, decodes as that frame |
| `Wire.BoundaryCorruptionIff` | protocol/thermal_wire.c:92-104 | corrupting the last body byte together with the first CRC byte, which is the low one, is accepted exactly when the shifted difference of the first equals the difference of the second |
| `Wire.BoundaryCorruptionPasses` | protocol/thermal_wire.c:92-104 | differences 0x89 and 0xA1 on those two bytes leave an acceptable frame, whatever the frame |
| `Wire.PayloadRoundTrip` | protocol/thermal_wire.c:374-487 | decoding the payload of any sample, event, command, ACK or NACK returns the original fields |
| `WireLaws.SampleLayout` | protocol/thermal_wire.c:136-151 | a sample holds signal at 0, flags at 2 and a two's-complement value at 4 |
| `WireLaws.EventLayout` | protocol/thermal_wire.c:156-173 | an event holds its code at 0 and four arguments at 2, 6, 10 and 14 |
| `WireLaws.ReplyLayout` | protocol/thermal_wire.c:257-273 | ACK and NACK hold request sequence, status and detail at 0, 2 and 4 |
| `WireLaws.PidLayout` | protocol/thermal_wire.c:205-255 | SET_PID holds 1, zone and three gains at 0, 2, 4, 8 and 12 |
| `WireLaws.SetpointLayout` | protocol/thermal_wire.c:205-255 | SET_SETPOINT holds 2, zone and setpoint at 0, 2 and 4 |
| `WireLaws.TripLayout` | protocol/thermal_wire.c:205-255 | SET_TRIP holds 3, zone, trip, temperature and hysteresis at 0, 2, 4, 6 and 10 |
| `WireLaws.CurvePointLayout` | protocol/thermal_wire.c:205-255 | SET_CURVE_POINT holds 4, modifier, point, x and two values at 0, 2, 4, 6, 10 and 14 |
| `WireLaws.ClearLayout` | protocol/thermal_wire.c:205-255 | CLEAR_FAULT holds 5, fault type and target at 0, 2 and 4 |
| `Wire.AcceptedPayloadReencodes` | protocol/thermal_wire.c:374-487 | an accepted payload re-encodes to the same bytes |
| `Wire.CodecBijection` | protocol/thermal_wire.c:136-297 | message to bytes and back, and accepted bytes to message and back, are both identities |
| `Wire.FinalizeFrame` | protocol/thermal_wire.c:92-104 | the trailer written in place completes the frame encoding |
| `Wire.EncodeInto` | protocol/thermal_wire.c:111-297 | encoding into a caller's buffer writes exactly the frame, or refuses a short buffer and leaves it alone |
| `Scanner.ScanAppend` | platform/linux/bsp_hil_serial.c:256-278 | scanning a stream in two parts with the leftover carried over is scanning it whole |
| `Scanner.ChunkingIrrelevant` | platform/linux/bsp_hil_serial.c:239-279 | however the bytes are cut into reads, the dispatched frames, dropped bytes and leftover are those of one scan |
| `Scanner.LeftoverFits` | platform/linux/bsp_hil_serial.c:47-49 | the leftover is always shorter than the accumulator, so the buffer-full branch is unreachable |
| `Scanner.BytesConserved` | platform/linux/bsp_hil_serial.c:256-278 | every byte is inside a dispatched frame, dropped alone, or left over, in order; only encodable frames are dispatched |
| `Scanner.Resynchronises` | platform/linux/bsp_hil_serial.c:271-277 | after garbage with no decodable offset, an encoded frame followed by one maximum frame of further bytes is the next frame dispatched |
| `Scanner.StreamDelivered` | platform/linux/bsp_hil_serial.c:256-278 | a concatenation of encoded frames is dispatched completely, in order, with nothing left over |
| `Scanner.Receiver.DropFront` | platform/linux/bsp_hil_serial.c:262-268 | the memmove loop removes exactly the consumed prefix |
| `Scanner.Receiver.DecodeOne` | platform/linux/bsp_hil_serial.c:256-278 | one decision at offset 0 consumes a decoded frame, drops one byte, or waits, exactly as the scan prescribes |
| `Scanner.Receiver.DecodeLoop` | platform/linux/bsp_hil_serial.c:256-278 | the loop terminates and dispatches what the scan of the accumulator prescribes |
| `Scanner.Receiver.Drain` | platform/linux/bsp_hil_serial.c:239-279 | one drain appends what was read and leaves the receiver at the scan of leftover plus new bytes |
| `Sha256.AbsorbAppend` | support/sha256.c:92-123 | hashing may stop and resume anywhere in the message |
| `Sha256.AnySplitIsOneShot` | support/sha256.c:92-123 | any split of a message into updates leaves the chaining value and pending bytes of the whole message |
| `Sha256.PaddedLength` | support/sha256.c:125-141 | the padding of section 5.1.1 of FIPS 180-4 completes the message to whole blocks with the fewest zeros |
| `Sha256.PaddedMessage` | support/sha256.c:125-143 | closing the pending bytes, in one block or two, hashes the padded message |
| `ShaLaws.RotationLaw` | support/sha256.c:33-36 | for every distance from 1 to 31, bit i of the rotation is bit (i + n) mod 32 of the word |
| `ShaLaws.SigmaLaw` | support/sha256.c:38-41 | each bit of the four sigmas is the XOR of the three bits of x that section 4.1.2 of FIPS 180-4 names |
| `ShaLaws.ChoiceLaw` | support/sha256.c:42 | each bit of Ch is that of y or of z as x says |
| `ShaLaws.MajorityLaw` | support/sha256.c:43 | each bit of Maj is the majority of the three |
| `ShaLaws.RoundConstants` | support/sha256.c:12-29 | the 64 round constants are the first 32 fractional bits of the cube roots of the first 64 primes, by the inequalities n^3 <= p * 2^96 < (n + 1)^3 |
| `ShaLaws.InitialValue` | support/sha256.c:79-87 | the initial value is the first 32 fractional bits of the square roots of the first 8 primes |
| `ShaLaws.ScheduleLaw` | support/sha256.c:49-59 | word t of the schedule is four bytes of the block, most significant first, or the wrapped sum of four earlier words under the bitwise sigmas |
| `ShaLaws.RoundIs` | support/sha256.c:64-69 | one round in terms of the bitwise functions, sums wrapped once |
| `ShaLaws.BlockLaw` | support/sha256.c:47-73 | the hash after a block is the incoming one plus the last four values of two recurrences, for registers a and e, over those words and functions |
| `ShaLaws.BigEndianLaw` | support/sha256.c:136-150 | n output bytes spell the number modulo 2^(8n) |
| `ShaLaws.PaddingLaw` | support/sha256.c:125-141 | padding is 0x80, zeros, and the bit length modulo 2^64 in its last eight bytes |
| `ShaLaws.DigestLaw` | support/sha256.c:125-150 | the digest is the end of the chain of block hashes from the initial value over the padded message |
| `ShaLaws.DigestWords` | support/sha256.c:143-150 | the 32 digest bytes spell the eight words of the hash in order |
| `Sha256.Context.ExpandSchedule` | support/sha256.c:49-59 | the in-place schedule loop computes the schedule words that `ShaLaws.ScheduleLaw` spells out |
| `Sha256.Context.ProcessBlock` | support/sha256.c:47-73 | the round loop computes the compression function that `ShaLaws.BlockLaw` spells out |
| `Sha256.Context.Update` | support/sha256.c:92-123 | after any updates the context is the block fold over the message so far with its bit count |
| `Sha256.Context.Final` | support/sha256.c:125-150 | the digest, in both padding cases, is the one-shot hash of the padded message, which `ShaLaws.DigestLaw` and `ShaLaws.DigestWords` spell out |
| `Ring.FullMeansAllButOne` | platform/ch32v003/bsp_ch32_uart.c:44-50 | the ring refuses exactly when all slots but one are in use |
| `UartRx.StepKeepsInv` | platform/ch32v003/bsp_ch32_uart.c:24-55 | between any two steps of handler and consumer, accepted bytes = popped bytes + stored bytes, and a consumer past its test still sees its byte |
| `UartRx.PoppedIsPrefix` | platform/ch32v003/bsp_ch32_uart.c:98-109 | however the interrupt falls between consumer steps, popped bytes are a prefix of the accepted ones and at most 63 wait |
| `UartRx.LostOnlyIfFullOrCorrupt` | platform/ch32v003/bsp_ch32_uart.c:30-55 | a byte is lost only to a line error or a full ring |
| `UartRx.GetcTakesOldest` | platform/ch32v003/bsp_ch32_uart.c:98-109 | an uninterrupted getc returns the oldest byte, or nothing when none is stored |
| `UartRx.Receiver.HandleByte` | platform/ch32v003/bsp_ch32_uart.c:30-55 | the handler's update of ring and head is the push, or nothing on error or full |
| `UartRx.Receiver.Getc` | platform/ch32v003/bsp_ch32_uart.c:98-109 | getc returns and removes the oldest pending byte, or -1 with no change |
| `TelemetryRing.RecordsConserved` | platform/ch32v003/ch32_callbacks.c:63-75 | emitted = drained + pending + dropped until the drop counter saturates, with emission order kept |
| `TelemetryRing.BurstFits` | platform/ch32v003/ch32_callbacks.c:58-75 | up to 15 records after a drain lose nothing |
| `TelemetryRing.DropTimed` | platform/ch32v003/ch32_callbacks.c:63-75 | a drop is stamped with the time of the dropped record, and the report of new drops carries the last such time and the clipped count |
| `TelemetryRing.Telemetry.Push` | platform/ch32v003/ch32_callbacks.c:63-75 | the in-place push stores, or counts a drop when full |
| `TelemetryRing.DropsReported` | platform/ch32v003/ch32_callbacks.c:137-146 | in any run the last report carries the count reported last, a drain leaves no drop unreported, and it writes a report exactly when there are new drops |
| `TelemetryRing.Telemetry.DrainAll` | platform/ch32v003/ch32_callbacks.c:118-148 | the drain writes every pending record, oldest first, empties the ring, and reports the drop count exactly when it has changed |
| `Config.FindSlot` | core/thermal_core.c:366-385 | the loop returns the first slot holding an id, or -1 when there is none |
| `Config.CheckKnot` | core/thermal_core.c:537-572 | the nested loops accept a curve point exactly when its cap is legal for every actuator and its offset for every zone |
| `Config.CheckCurve` | core/thermal_core.c:618-659 | the same for every point, against the current trip tables and setpoints |
| `Config.KnotsCoverCurve` | core/thermal_core.c:537-659 | checking only the knots covers every offset and every cap byte the curve can interpolate |
| `Validation.TripsValid` | core/thermal_core.c:913-931 | the trip loop accepts exactly ordered tables of legal trips |
| `Validation.PidOk` | core/thermal_core.c:217-259 | the checks accept exactly the PID settings within their own bounds that also have a CRITICAL or SHUTDOWN trip |
| `Validation.ModifierOk` | core/thermal_core.c:661-719 | the checks accept exactly the valid modifiers, the rule on the name included |
| `Validation.StatePwmOk` | core/thermal_core.c:825-856 | the two loops over a running highest state accept exactly the tables whose referenced duties are legal and do not fall up to the highest state any trip asks of that actuator |
| `Signals.IsSupported` | core/thermal_core.c:1226-1290 | the range arithmetic accepts exactly the ids that name a signal of a configured slot |
| `Signals.ParseRecovers` | core/thermal_signals.h:54-170 | served signals have distinct 16-bit ids, from which range, sub-signal and slot are recovered |
| `Validation.FanOk` | core/thermal_core.c:1297-1348 | the checks accept exactly a disabled baseline or a valid one that reaches pwm_max |
| `Validation.TelemetryOk` | core/thermal_core.c:857-875 | the checks accept exactly the telemetry settings with a period when enabled and only supported signals |
| `Validation.ValidateConfig` | core/thermal_core.c:1351-1397 | the whole validation accepts exactly the valid configurations: version, periods, sizes, every per-entity rule, duties, telemetry and fan health |
| `Invariants.InitInv` | core/thermal_core.c:1399-1466 | a validated configuration starts in the invariant |
| `Invariants.TickOffsetValid` | core/thermal_core.c:1644-1708 | every offset a tick can apply is acceptable for every zone's current trips and setpoint |
| `Invariants.TickKeepsInv` | core/thermal_core.c:1513-2229 | every tick keeps the invariant: ordered shadow trips, fallback floor, bounded gains and setpoints, valid curves, prefix masks, legal actuators |
| `Invariants.ReplacedTripOrdered` | core/thermal_core.c:2330-2341 | checking a changed trip against its neighbours keeps the whole table ordered |
| `Invariants.SetTripKeepsInv` | core/thermal_core.c:2311-2359 | SET_TRIP keeps the invariant |
| `Invariants.SetCurvePointKeepsInv` | core/thermal_core.c:2360-2396 | SET_CURVE_POINT keeps the invariant |
| `Invariants.CommandKeepsInv` | core/thermal_core.c:2231-2396 | every command keeps the invariant |
| `Invariants.RejectedChangesNothing` | core/thermal_core.c:2231-2492 | a rejected command changes no regulator state |
| `Invariants.RunKeepsInv` | core/thermal_core.c:1513-2492 | every state reached by any interleaving of ticks and commands meets the invariant |
| `Invariants.TablesValidAtEveryOffset` | core/thermal_core.c:488-659 | in every reachable state, at every context value: curve x ascending, interpolated cap a byte, shifted trips ordered and in range, PID setpoint within bounds |
| `Invariants.EveryTickMeetsGovernor` | core/thermal_governor.h:17-21 | on every tick the governor gets an ordered table, its mask is a prefix, at most one trip depends on history, and a PID zone's effective setpoint is within its bounds |
| `Safety.SafetyPrecedence` | core/thermal_core.c:1736-1788 | in every state of the invariant: SHUTDOWN severity or a forcing fault outputs exactly pwm_max; CRITICAL outputs at least min(arbitrated demand, pwm_max); no tick drops by more than a nonzero slew rate |
| `Safety.CapBinds` | core/thermal_core.c:1736-1753 | what an actuator is asked for never exceeds its arbitrated demand, is all of it at CRITICAL, and is at most an evaluated post-governor cap below CRITICAL |
| `Safety.BlindZoneIsCritical` | core/thermal_core.c:1585-1687 | a zone whose reading is invalid, no sensor being usable or the usable weights cancelling, acts on its fallback and is at least CRITICAL when that reaches a shifted safety trip; with no safety trip active before, as on the first tick, exactly then |
| `Safety.BlindZoneIff` | core/thermal_core.c:1644-1708 | in every state of the invariant the tick leaves a blind zone at least CRITICAL, whatever its trip history, if and only if its fallback reaches a safety trip moved by the offset of that tick |
| `Safety.BlindUnraisedIsCritical` | core/thermal_core.c:1585-1687 | so at a trip offset <= 0 validation is enough: a blind zone with a CRITICAL or SHUTDOWN trip is at least CRITICAL |
| `Safety.FloorAtEveryContextIff` | core/thermal_core.c:537-576 | the fallback reaches a safety trip at every context value if and only if it does at every curve point |
| `Safety.BlindZoneDrivesFans` | core/thermal_core.c:1736-1784 | when the fallback reaches a shifted safety trip, the actuators of a blind zone skip the acoustic cap, bypass upward slew and reach min(arbitrated demand, pwm_max) |
| `TickLaws.ArbitratedIsLargest` | core/thermal_core.c:1710-1734 | after a tick the demand on an actuator is the largest duty any driving zone asks for, or 0: the state_pwm entry of an active trip that counts, entry 0 when none does, or a PID output through its duty curve |
| `TickLaws.ActiveTripServed` | core/thermal_core.c:206-210 | every active trip of a step-wise zone, and every active CRITICAL or SHUTDOWN trip of a PID zone, gets at least state_pwm[cooling state] from every actuator of the zone |
| `TickLaws.DemandIsLargest` | core/thermal_core.c:307-321 | the demand of one zone is the largest duty it asks for, so a PID zone's is the larger of its safety floor and its linearized output |
| `TickLaws.ControllerFed` | core/thermal_core.c:265-290 | a PID zone feeds its controller the temperature it acts on and its setpoint plus the trip offset, with its current gains, interval limits and the range 0 to 255 |
| `TickLaws.ZoneTemperature` | core/thermal_core.c:1653-1674 | the temperature a zone acts on is the aggregate of its slots in its own mode |
| `TickLaws.SlotLaw` | core/thermal_core.c:1620-1671 | a slot carries the filtered value and the weight of its sensor, and is usable unless the value is invalid or the sensor is reported stuck with the zone-fallback action |
| `TickLaws.ModifierLaw` | core/thermal_core.c:1032-1083 | cap and trip offset are the two values of the curve at the context: filtered while valid, held if so configured and ever valid, else 0; the offset reaches the trips only in its stage |
| `TickLaws.CappedDemand` | core/thermal_core.c:1736-1753 | the final stage is asked for the arbitrated demand, cut to the cap exactly when the modifier has that stage, the cap is below pwm_max and no driving zone is CRITICAL |
| `TickLaws.FlagsLaw` | core/thermal_core.c:1755-1993 | upward slew is bypassed exactly for a CRITICAL or SHUTDOWN trip of a driving zone or a forcing fault of a detector that concerns the actuator; the duty is forced exactly for a SHUTDOWN trip or such a fault |
| `TickLaws.ShutdownLaw` | core/thermal_core.c:1790-1993 | shutdown of an actuator is requested exactly by an active detector with that action that concerns it or by an escalated runaway of a driving zone |
| `TickLaws.LatchLaw` | core/thermal_core.c:1995-2022 | a tick latches shutdown exactly for an active SHUTDOWN trip or a shutdown of some actuator |
| `TickLaws.RunawaySampleLaw` | core/thermal_core.c:1832-1850 | a runaway detector is fed its zone's temperature and the highest duty asked of the zone's actuators |
| `TickLaws.AcceptedLaw` | core/thermal_core.c:1473-1511 | a snapshot is accepted exactly when it has at most 16 samples, all of configured targets, no two of one kind and id |
| `TickLaws.LookupLaw` | core/thermal_core.c:1530-1540 | a target reads its own sample |
| `TickLaws.LookupNothing` | core/thermal_core.c:1530-1540 | and an invalid one when it has none |
| `TickLaws.StartLaw` | core/thermal_core.c:1399-1466 | initialisation takes gains, setpoints, trips and curves from the configuration, with nothing valid, active or driven |
| `CommandLaws.SetPidLaw` | core/thermal_core.c:2244-2279 | SET_PID is accepted exactly for a PID zone and gains within bounds; that zone then has those gains and a fresh controller, and nothing else changes |
| `CommandLaws.SetSetpointLaw` | core/thermal_core.c:2280-2310 | SET_SETPOINT is accepted exactly when the setpoint is within bounds at offset 0 and at every curve point; only that setpoint changes |
| `CommandLaws.SetTripLaw` | core/thermal_core.c:2311-2359 | SET_TRIP is accepted exactly when the hysteresis is not negative and the whole new table is ordered, reached by the fallback and valid at every curve point; only that trip changes |
| `CommandLaws.SetCurvePointLaw` | core/thermal_core.c:2360-2396 | SET_CURVE_POINT is accepted exactly when the whole new curve ascends and fits the current trips and setpoints; only that point changes |
| `CommandLaws.ClearStallLaw` | core/thermal_core.c:2397-2473 | clearing a stall succeeds exactly when there is none or it is latched and quiet long enough, and then removes it and its window only |
| `CommandLaws.ClearStuckLaw` | core/thermal_core.c:2397-2473 | the same for a stuck sensor |
| `CommandLaws.ClearRunawayLaw` | core/thermal_core.c:2397-2473 | the same for a runaway, its window and its progress toward shutdown |
| `CommandLaws.ClearStaleLaw` | core/thermal_core.c:2397-2473 | the same for a stale context |
| `CommandLaws.UnknownTargets` | core/thermal_core.c:2397-2492 | a clear that names no detector and an unknown command are refused as invalid |
| `Witnesses.RaisedTripsMissFallback` | core/thermal_core.c:513-535 | validation accepts trips at 70 (WARN) and 90 (CRITICAL) degrees, fallback 90 and a curve that raises trips by 10 degrees; on the first tick, with the raising context and no temperature, the zone stays below CRITICAL |
| `Witnesses.SilentDetectorNeverReports` | core/thermal_core.c:792-818 | validation accepts an enabled stuck-sensor detector with persist_ticks 2 and a window of 3 ticks, and no run of the regulator makes it report |
| `Witnesses.SkewedZoneLeavesSensors` | core/thermal_core.c:899-909 | validation accepts weights 2 and -1, and on the first tick a zone whose sensors read 0 and -60 degrees acts on +60 degrees |
| `Safety.StatePwmRises` | core/thermal_core.c:846-853 | validated duties do not fall between any two cooling states asked of an actuator |
| `Safety.ArbitrationMonotone` | core/thermal_core.c:1710-1734 | max-wins arbitration is monotone in the demands of the zones that drive the actuator |
| `Safety.LinearizationMonotone` | core/thermal_core.c:307-321 | the duty linearization is monotone and fixes 0 and 255 |
| `Regulator.Arbitrated` | core/thermal_core.c:1710-1734 | the arbitrated demand is an upper bound of the demands of the zones that drive the actuator and is attained |
| `Regulator.SeverityIsMax` | core/thermal_core.c:958-974 | the severity of an actuator is an upper bound of its zones' severities and is attained |
| `ActuatorRuns.ActuatorRefines` | core/thermal_core.c:2066-2210 | in any run of ticks and commands each actuator is the final stage run over what it was told |
| `ActuatorRuns.NoShortCycles` | core/thermal_core.c:2066-2089 | in any run, a tick without bypass that switches off ends at least min_on_ticks of nonzero duties, and one that switches on at least min_off_ticks of zero duties or all since init |
| `ActuatorRuns.IdleActuatorTurnsOff` | core/thermal_core.c:2066-2210 | in any run, an actuator asked for 0 without bypass for the rest of its on-dwell plus one ramp is off, however long that lasts |
| `ActuatorRuns.ShutdownIsLatched` | core/thermal_core.c:1995-2022 | in any run the shutdown request is latched exactly when some earlier tick saw a SHUTDOWN zone or a shutdown action |
| `DetectorRuns.DetectorRefines` | core/thermal_core.c:1585-1646 | in any run each stall, stuck-sensor, runaway and stale-context detector is the shared state machine run over what it sensed and the clears addressed to it |
| `DetectorRuns.CoreIsLawful` | core/thermal_core.c:1790-1960 | in any run every detector keeps the event balance and, when its action does not latch, is the two-threshold debounce of what it sensed |
| `DetectorRuns.CoreLatches` | core/thermal_core.c:2397-2473 | in any run a latched detector is released only by a clear command naming it after recovery_ticks trailing inactive ticks |
| `DetectorRuns.RingRefines` | core/thermal_core.c:1832-1850 | in any run each runaway window refines the samples pushed since its last accepted clear |
| `DetectorRuns.CoreNeverReportsStuck` | core/thermal_core.c:1585-1643 | in any run under settings that fail that condition no stuck sensor is ever reported, so none is ever masked |
| `DetectorRuns.EscalatesIff` | core/thermal_core.c:1849-1868 | in any run a latching runaway escalates to shutdown exactly when it is latched and its condition held on each of the last recovery_ticks sensed ticks |
| `DetectorRuns.CoreRunawayTestsHistory` | core/thermal_fault.c:271-315 | on every tick of any run the runaway condition is the threshold test on the last `persist` samples since reset |
| `ZoneRuns.MaskRefines` | core/thermal_core.c:1649-1708 | in any run each zone's mask and step-wise cooling state are the governor run over the tables and temperatures it saw |
| `ZoneRuns.SchmittInRun` | core/thermal_core.c:1644-1708 | in any run a trip of a zone is active if and only if some tick saw the zone at or above the trip of that tick and no later tick saw it below both that tick's trip and its cold edge |
| `ZoneRuns.EntryIsShifted` | core/thermal_core.c:1676-1687 | those trips are the current ones, each moved by the offset of the tick without wrapping, and that temperature the one the zone acts on |
| `ZoneRuns.HotterMask` | core/thermal_core.c:1649-1708 | a zone with either governor: of two runs with the same tables tick by tick, the pointwise hotter one ends with a superset mask, and a step-wise zone in no lower cooling state |
| `ZoneRuns.HotterNeverDemandsLess` | core/thermal_core.c:1710-1734 | if the zones that drive an actuator are step-wise and saw the same tables at pointwise hotter temperatures, its arbitrated demand is no lower, whatever the other zones do |
| `ZoneRuns.IntegralNeverWindsUp` | core/thermal_core.c:265-305 | in any run a zone whose gain bounds admit only PI controllers keeps its stored integral within [0, 2^24) |
| `ZoneRuns.FilterRefines` | core/thermal_core.c:1526-1545 | in any run each sensor filter is the IIR filter run over the samples it was fed |
| `ZoneRuns.ZoneWithinSamples` | core/thermal_core.c:1526-1687 | from raw samples to control: if every valid sample of a zone's sensors lies in [lo, hi] and weights are fair, the temperature it acts on lies there or is the fallback |
| `Ranges.FilterFitsIff` | core/thermal_filter.c:37-42 | no filter run over samples of [lo, hi] overflows its int32 difference or int64 product if and only if hi - lo fits int32 |
| `Ranges.IntegralProductIff` | core/thermal_pid.c:61-62 | for all errors and intervals up to given sizes ki * error * dt fits int64 if and only if the product of the three sizes does |
| `Ranges.PidRunFits` | core/thermal_pid.c:54-97 | with abs(ki) <= 2^24 and abs(kd) <= 2^29, temperatures and setpoints within a range narrower than 2^23 overflow no difference, product or sum of any step since reset |
| `RangeRuns.CorePidFits` | core/thermal_core.c:265-305 | in any run of the regulator the same holds for a PID zone so bounded, while the raw samples of its sensors lie in that range |
| `Ranges.SegmentFitsIff` | core/thermal_curve.c:27-38 | a segment interpolates without overflow at every x it brackets if and only if its x and y differences fit int32 |
| `Ranges.RiseFits` | core/thermal_fault.c:290-302 | the runaway rise fits int32 while the history lies within a range whose width does |
| `Ranges.WeightedSumFitsIff` | core/thermal_zone.c:57-76 | for n slots, readings up to v and weights up to w, every product and partial sum of the weighted mean fits int64 if and only if n * v * w does |
| `Ranges.SpanFitsIff` | core/thermal_fault.c:207-218 | no run of readings in [lo, hi], under any configuration, overflows the evaluated window span if and only if hi - lo fits int32 |
| `Ranges.ColdEdgesFitIff` | core/thermal_governor.c:20 | at any acceptable offset every cold edge fits int32 if and only if the lowest one is not too low and no negative hysteresis lifts one too high |
| `Arbitrator.MaxWins` | core/thermal_arbitrator.c:4-10 | the winner bounds every demand and is one of them, or 0 |
| `ThermalCore.CheckSnapshot` | core/thermal_core.c:1473-1511 | the preflight refuses exactly the snapshots that are too long, name an unknown target, or name one twice |
| `ThermalCore.FindSample` | core/thermal_core.c:1530-1540 | the loop returns the first sample for a target, or an invalid one |
| `ThermalCore.Govern` | core/thermal_core.c:1688-1708 | trip adjustment, governor and PID safety floor compute the zone step, whose mask, cooling state, temperature and controller `ZoneRuns.SchmittInRun`, `TickLaws.ZoneTemperature` and `TickLaws.ControllerFed` fix |
| `ThermalCore.Arbitrate` | core/thermal_core.c:1712-1734 | collecting the demands of the driving zones and taking the winner is the arbitrated demand, which `TickLaws.ArbitratedIsLargest` fixes |
| `ThermalCore.CapDemand` | core/thermal_core.c:1736-1753 | the capped demand and the severity of one actuator |
| `ThermalCore.MarkZone` | core/thermal_core.c:1869-1882 | scattering over a zone's actuator ids raises exactly the flags of the actuators it drives |
| `ThermalCore.Dispatch` | core/thermal_core.c:1755-1993 | a flag is raised exactly when some hit reaches that actuator |
| `ThermalCore.ForceFlags` | core/thermal_core.c:1790-1993 | the flags are exactly the actuators some forcing fault reaches |
| `ThermalCore.ShutdownFlags` | core/thermal_core.c:1790-1993 | the flags are exactly the actuators some shutdown-requesting or escalated fault reaches |
| `ThermalCore.ThermalCore.FilterSensors` | core/thermal_core.c:1526-1545 | the loop steps every configured sensor filter, absent samples as invalid |
| `ThermalCore.ThermalCore.EvalModifier` | core/thermal_core.c:1032-1083 | the in-place evaluation computes the modifier result, whose cap and offset `TickLaws.ModifierLaw` fixes at the live, held or fail-safe context value |
| `ThermalCore.ThermalCore.StepStuck` | core/thermal_core.c:1585-1615 | the pre-pass steps every stuck-sensor detector |
| `ThermalCore.ThermalCore.GovernZones` | core/thermal_core.c:1644-1708 | the loop aggregates and governs every zone, stuck sensors masked out |
| `ThermalCore.ThermalCore.StepRunaways` | core/thermal_core.c:1832-1908 | the loop steps every runaway detector on the highest demand of its zone's actuators |
| `ThermalCore.ThermalCore.DriveActuators` | core/thermal_core.c:2066-2210 | the loop runs the final stage of every actuator on its inputs |
| `ThermalCore.ThermalCore.Step` | core/thermal_core.c:1513-2229 | a tick takes the object to the tick function of its old state, keeps the invariant, and outputs its duties, which `TickLaws` fixes from trips to flags and `ActuatorLaws.StageLaw` from there; a refused snapshot changes nothing |
| `ThermalCore.ThermalCore.Order` | core/thermal_core.c:2231-2492 | a command takes the object to the command function of its old state and keeps the invariant; a refused one changes nothing |
| `ThermalCore.ThermalCore.OnSetTrip` | core/thermal_core.c:2311-2359 | neighbour, fallback and knot checks accept or refuse as the command function does, and change only that trip |
| `ThermalCore.ThermalCore.OnSetCurvePoint` | core/thermal_core.c:2360-2396 | the same for a curve point |
| `ThermalCore.ThermalCore.OnClearFault` | core/thermal_core.c:2397-2473 | a clear resets exactly the addressed detector and its window, when allowed |
| `ThermalCore.Create` | core/thermal_core.c:1399-1466 | an initial object exists exactly for the configurations that validation accepts and starts in the invariant |

## Left out

- Telemetry emission and its text form, state queries, actuator reason codes and the names of sensors, contexts, actuators and zones: flat copying with no control effect. The rules that validate units, staleness, the modifier name, telemetry signals and fan-health baselines are part of `Config.ValidConfig`.
- The fan-health call inside the tick: `FanHealth` is modelled as a component; its report is advisory and feeds nothing back into the regulator.
- Which error code a rejected configuration returns: `Validation.ValidateConfig` decides acceptance only.
- Zone-fallback, safety-override, shutdown-request and command events, and how events of different detectors interleave in time: each detector keeps its own log of fault transitions.
- Overflow of intermediate values: intermediates are unbounded integers, every stored field keeps its C width, and the other results speak about inputs for which the C intermediates fit. `Ranges` proves which those are: for the filter, the PID controller, the curve, the runaway rise, the weighted sum of a zone (core/thermal_zone.c:57-76; three usable slots of weight and reading near 2^31 exceed int64), the span of a stuck-sensor window (core/thermal_fault.c:207-218) and the cold edge of a trip (core/thermal_governor.c:20).
- The acoustic cap is proved a byte at every context value; that it is 0 or at least pwm_min holds at curve points only, so nothing of the kind is claimed between them.
- Nested C structs inside the regulator (filters, controllers, windows) are values held in sequence fields of `ThermalCore.ThermalCore` and replaced element by element; the classes `Filter.Filter`, `Pid.PidController`, `Fault.FaultFsm`, `Runaway.RunawayDetector` and `FanHealth.Detector` show the in-place form of each.
- Step 9 raises its per-actuator flags in one pass over each detector kind in the source and in two passes (forcing, then shutdown) in the model; stuck-sensor slots are masked when a zone reads them instead of through a bit mask filled beforehand.
- Encoding writes a payload with one bounded copy instead of field by field; the separate encoder entry points are the cases of one message type.
- Dispatch of received samples into the sensor cache, files, sockets and every board driver outside the two named loops.
- Compile-time profiles: PID and fan health are on, and the array limits have the values of the default profile.
- Scanner.Resynchronises: the lost frame is found once one maximum frame length of further bytes has arrived, because before that a header-like prefix in the garbage may still be waiting for its payload.
- Wire.CorruptionRejected: excludes the two bytes of the length field, because they say where the CRC is; `Wire.LengthCorruptionPasses` shows that one corrupted length byte can pass.
- Wire.AdjacentCorruptionRejected: excludes pairs that touch the length field and pairs that reach into the CRC; `Wire.CrcCorruptionRejected` covers the pair inside the CRC and `Wire.BoundaryCorruptionIff` gives the exact condition for the pair across its boundary.
