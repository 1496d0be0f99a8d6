# mysolder-firmware control core in Dafny

A model of the control logic of the mysolder soldering-iron firmware, a
Zephyr application for a T12 tip on an STM32G431 board. Every hardware call
is an input or an output of the model. The model has seven modules, one per
source file:

- `MovingAverage` (moving_average.dfy): the ring-buffer filter of ADC
  counts, with its running 32-bit sum and truncated mean. It is a class
  over an `array<U32>` with a `history` buffer of `MAX_WINDOW_LENGTH` = 16.
- `TemperatureAdc` (temperature_adc.dfy): the `uVtoDegC` thermocouple
  table of the T12 board, `LinearInterpolate` in C integer arithmetic, and
  the `InterpolateLookupTable` search and extrapolation. It also has the
  conversion of an ADC count to a calibrated tip temperature.
- `PidController` (pid_controller.dfy): the PID record as a class. It
  covers `pid_compute` with its clamped integral and output, and the
  setters that reject bad input.
- `HeaterController` (heater_controller.dfy): one run of
  `adc_work_handler`. The run is filter → temperature → compute-interval
  divider → PID toward the sleep or run setpoint → duty cycle and pulse
  width. It also holds the defaults of `init_tip_controller`.
- `SleepDetection` (sleep_detection.dfy): the posture supervisor's timer
  (`sleep_timer_start`, `is_sleeping`) on the wrapping 32-bit millisecond
  uptime. It also covers the ENTER_PREVIEW it raises after ten still
  minutes.
- `AppUi` (app_ui.dfy): `app_event_handler` over MAIN / PID_TUNING /
  PREVIEW, with:
  - the entry actions that switch the heater;
  - the setpoint and gain nudges;
  - the PREVIEW power interlock, which leaves PREVIEW only when power
    delivery is ready and the bus is within 2 V of the requested voltage,
    and otherwise requests a hard reset.
- `UsbPd` (usb_pd.dfy): the sink policy. It covers:
  - choosing the last (highest-indexed) acceptable Fixed source PDO;
  - the Fixed Request Data Object, whose layout follows section 6.4.2 of
    the USB Power Delivery specification (source PDO fields per
    section 6.4.1);
  - the policy-check answers and the `ps_ready` flag.

`Common` (common.dfy) holds `uint32_t`/`int32_t` wrap-around, `Option`,
and small arithmetic lemmas.

C `float`s are modelled as `real`. `uint32_t` arithmetic is written out as
`Wrap32`, and the `int32_t` arithmetic of `LinearInterpolate` as `WrapI32`
in `LinearInterpolateAsWritten`. C division truncates toward zero (`CDiv`).

A failed ADC read does not keep the last temperature:
`temp_read_adc_raw` zeroes the sample before the read, and
`adc_work_handler` ignores the error, so a 0 goes through the filter
(`HeaterController.RawOf`).

## Model

| member | source | states |
|---|---|---|
| `MovingAverage.Advance` | src/moving_average.c:49-53 | the window pointer advances by one modulo the window length and stays below it |
| `MovingAverage.ComputeKeepsSum` | src/moving_average.c:46-48 | adding the new sample and subtracting the overwritten slot in `uint32_t` leaves the running sum equal to the wrapped sum of the updated window |
| `MovingAverage.FeedAt` | src/moving_average.c:44-55 | after k `compute(v)` calls from pointer p, a slot holds v exactly when it is one of the k slots from p on, and keeps its old value otherwise |
| `MovingAverage.FeedFillsWindow` | src/moving_average.c:44-55 | window-length calls of `compute(v)` overwrite every slot with v, whatever the starting pointer |
| `MovingAverage.Average` | src/moving_average.c:54 | the value reported is the truncated mean of the wrapped running sum: r · length ≤ sum < (r + 1) · length |
| `MovingAverage.AverageOfConstant` | src/moving_average.c:54 | the truncated mean of a window holding only v is v, when the sum does not wrap |
| `MovingAverage.ConvergesAfterWindow` | src/moving_average.c:44-55 | after window-length `compute(v)` calls from any state, the filter returns exactly v |
| `MovingAverage.SetValueThenCompute` | src/moving_average.c:57-65 | `set_value(v)` followed by `compute(v)` returns v |
| `MovingAverage.Filter.constructor` | src/moving_average.h:37-44 | a fresh context: a 16-slot zero history, zero length, pointer and sum |
| `MovingAverage.Filter.Init` | src/moving_average.c:33-42 | for a length in 1..16: pointer 0, sum 0, window all zeros, slots past the window untouched, invariant established |
| `MovingAverage.Filter.Compute` | src/moving_average.c:44-55 | writes the sample at the old pointer and nothing else, advances the pointer, keeps sum = wrapped sum of the window, returns the wrapped sum divided by the length |
| `MovingAverage.Filter.SetValue` | src/moving_average.c:57-65 | every window slot holds the value, sum = value × length in `uint32_t`, pointer 0, slots past the window untouched |
| `TemperatureAdc.LinearInterpolate` | src/temperature_adc.c:178-181 | returns y1 at x1 and y2 at x2, and lies between y1 and y2 inside a rising segment |
| `TemperatureAdc.LinearInterpolateMonotone` | src/temperature_adc.c:178-181 | on a rising segment the interpolation never falls as x grows, extrapolation included |
| `TemperatureAdc.NoOverflowOnShortSpan` | src/temperature_adc.c:178-181 | on a segment within 0..200000 µV that rises by at most 10 °C, the `int32_t` computation equals the exact one |
| `TemperatureAdc.LinearInterpolateAsWritten` | src/temperature_adc.c:178-181 | the interpolation in `int32_t` arithmetic, every intermediate wrapped, always yields an `int32_t`; `NoOverflowOnShortSpan` shows it equals `LinearInterpolate` on short spans |
| `TemperatureAdc.FindSegment` | src/temperature_adc.c:184-191 | the search stops at the first breakpoint in [i, n-2] whose voltage exceeds the value; every breakpoint it passes is at or below the value; otherwise it returns the last segment |
| `TemperatureAdc.TableLookup` | src/temperature_adc.c:182-196 | the exact lookup: interpolation on the segment `FindSegment` selects. It has no contract of its own; `BreakpointExact`, `SegmentBounds`, `LookupMonotone` and `LookupRange` state its behaviour |
| `TemperatureAdc.InterpolateLookupTable` | src/temperature_adc.c:182-196 | the loop returns the interpolation on the segment `FindSegment` selects, extrapolating on the last two breakpoints when none does |
| `TemperatureAdc.SegmentAtLeast` | src/temperature_adc.c:184-191 | a value at or above breakpoint j-1 is looked up on segment j or later |
| `TemperatureAdc.SegmentAtMost` | src/temperature_adc.c:184-191 | a value below breakpoint j is looked up on segment j or earlier |
| `TemperatureAdc.BreakpointExact` | src/temperature_adc.c:178-196 | a value equal to a breakpoint's voltage returns that breakpoint's temperature |
| `TemperatureAdc.SegmentBounds` | src/temperature_adc.c:121-196 | a value between two adjacent breakpoint voltages reads between their temperatures |
| `TemperatureAdc.LookupMonotone` | src/temperature_adc.c:182-196 | on a valid table the lookup never decreases as the value grows, across segments and in extrapolation |
| `TemperatureAdc.LookupRange` | src/temperature_adc.c:182-196 | from the first breakpoint voltage on the lookup reads at least the first temperature, and up to the last voltage at most the last temperature |
| `TemperatureAdc.T12TableValid` | src/temperature_adc.c:121-176 | `uVtoDegC` has strictly increasing voltages and non-decreasing temperatures, so no interpolation divides by zero |
| `TemperatureAdc.T12NoOverflow` | src/temperature_adc.c:178-196 | for every reading up to 200000 µV, the firmware's `int32_t` lookup in `uVtoDegC` equals the exact lookup |
| `TemperatureAdc.TableLookupAsWritten` | src/temperature_adc.c:178-196 | the lookup in `int32_t` arithmetic always yields an `int32_t`; `T12NoOverflow` shows it equals `TableLookup` on the T12 table for 0..200000 µV |
| `TemperatureAdc.T12Range` | src/temperature_adc.c:121-196 | on the T12 table, from 0 µV on the lookup reads at least 0 °C, and up to 12575 µV (the last row) at most 500 °C |
| `TemperatureAdc.T12Breakpoints` | src/temperature_adc.c:199-204 | at each table voltage the calibrated temperature is that row's degrees plus `cool_temp` |
| `TemperatureAdc.T12ThreeHundred` | src/temperature_adc.c:154 | 7059 µV reads 300 °C plus `cool_temp` |
| `TemperatureAdc.RawToMicrovolts` | src/temperature_adc.c:201-202 | the ADC count becomes microvolts at the tip, never negative; `RawToMicrovoltsMonotone` and `MicrovoltsBelow` bound it |
| `TemperatureAdc.TipMicrovolts` | src/temperature_adc.c:202 | pin millivolts times 1000 / GAIN, truncated, is a non-negative number of microvolts |
| `TemperatureAdc.TipTemperature` | src/temperature_adc.c:203 | the T12 lookup plus `cool_temp`: from 0 µV on it reads at least `cool_temp`, and up to 12575 µV at most 500 °C above it |
| `TemperatureAdc.RawToTemperature` | src/temperature_adc.c:199-204 | `temp_raw_to_temperature` never reads below `cool_temp`; `RawToTemperatureMonotone` shows a larger count never reads colder |
| `TemperatureAdc.TipTemperatureMonotone` | src/temperature_adc.c:199-204 | more microvolts never read a colder calibrated temperature |
| `TemperatureAdc.RawToTemperatureMonotone` | src/temperature_adc.c:199-204 | while `raw * vref_mv` does not wrap, a larger ADC count never reads colder |
| `TemperatureAdc.RawToMicrovoltsMonotone` | src/temperature_adc.c:199-202 | while `raw * vref_mv` does not wrap, a larger ADC count never gives fewer microvolts |
| `TemperatureAdc.MicrovoltsBelow` | src/temperature_adc.c:199-202 | an ADC count below `2^resolution` with a reference up to 40 V converts to under 200000 µV |
| `TemperatureAdc.ReadingsFitInt32` | src/temperature_adc.c:199-204 | any ADC count below `2^resolution` with a reference up to 40 V gives under 200000 µV, and the `int32_t` lookup of it equals the exact one |
| `PidController.Clamp` | src/pid_controller.c:38-42 | above the upper limit gives the upper limit, below the lower gives the lower, in between is unchanged; with ordered limits the result is inside them |
| `PidController.Signed` | src/pid_controller.c:102-106 | a gain keeps its magnitude, and a non-zero gain is negated exactly for `PID_CD_REVERSE` |
| `PidController.Redirect` | src/pid_controller.c:120-128 | a gain is negated exactly when the direction changes |
| `PidController.RedirectTwice` | src/pid_controller.c:120-128 | switching direction there and back restores every gain |
| `PidController.RedirectFollowsSign` | src/pid_controller.c:120-128 | between the two defined directions, switching turns the internal gain of one direction into that of the other |
| `PidController.IntegralStep` | src/pid_controller.c:34-42 | the accumulated integral after one step lies within the output limits |
| `PidController.ControlOutput` | src/pid_controller.c:45-54 | the output lies within the output limits |
| `PidController.HigherSetpointMoreOutput` | src/pid_controller.c:26-61 | with non-negative kp and ki, a higher setpoint never gives a smaller integral or output |
| `PidController.IntegralMonotone` | src/pid_controller.c:34-42 | with ki ≥ 0, a larger error never gives a smaller clamped integral term |
| `PidController.ControlMonotone` | src/pid_controller.c:45-54 | with kp ≥ 0, a larger error and a larger integral term never give a smaller clamped output |
| `PidController.IntegralAfter` | src/pid_controller.c:34-42 | over any non-empty run of steps the integral stays within the limits |
| `PidController.IntegralRises` | src/pid_controller.c:34-42 | when every step adds at least c > 0, after k steps the integral is at most the upper limit and has either reached it or risen by at least k·c |
| `PidController.StepRises` | src/pid_controller.c:34-42 | one such step leaves an integral within the limits that has risen by c or reached the upper limit, and the rest of the run continues from it |
| `PidController.Pid.constructor` | src/pid_controller.c:7-23 | output, integral and last input 0, limits [0, 100], sample time and direction stored; display gains set when none is negative; internal gains consistent with the direction |
| `PidController.Pid.Compute` | src/pid_controller.c:26-61 | integral = clamped old integral + ki·error; output = clamp(kp·error + integral − kd·(input − last input)), stored and returned; last input := input; limits invariant kept |
| `PidController.Pid.SetOutputLimits` | src/pid_controller.c:64-84 | min ≥ max changes nothing; otherwise stores the limits and clamps both output and integral into them |
| `PidController.Pid.SetTunings` | src/pid_controller.c:87-107 | any negative gain changes nothing; otherwise display gains stored as given and internal gains kp, ki·Ts, kd/Ts, negated for REVERSE |
| `PidController.Pid.SetSampleTime` | src/pid_controller.c:109-117 | 0 is ignored; otherwise ki is scaled by new/old, kd by old/new, and the tuned relation to the display gains is kept |
| `PidController.Pid.RescaledIsTuned` | src/pid_controller.c:109-117 | gains tuned for the old period and rescaled by new/old are tuned for the new period |
| `PidController.RetuneIntegral` | src/pid_controller.c:97-99 | ki tuned for a period of m ms and multiplied by n/m is ki tuned for n ms |
| `PidController.RetuneDerivative` | src/pid_controller.c:97-100 | kd tuned for a period of m ms and divided by n/m is kd tuned for n ms |
| `PidController.Pid.SetControllerDirection` | src/pid_controller.c:120-128 | stores the direction and negates the three internal gains exactly when it changes |
| `PidController.Pid.GetKp` | src/pid_controller.c:131-134 | the display kp, non-negative, whose signed value is the internal kp |
| `PidController.Pid.GetKi` | src/pid_controller.c:135-138 | the display ki, non-negative, never the sample-time-scaled internal ki |
| `PidController.Pid.GetKd` | src/pid_controller.c:139-142 | the display kd, non-negative, never the sample-time-scaled internal kd |
| `PidController.Pid.GetDirection` | src/pid_controller.c:143-146 | the stored direction, one of the two defined ones on a tuned controller |
| `PidController.Pid.GetOutput` | src/pid_controller.c:147-150 | the last output, within the limits |
| `HeaterController.RawOf` | src/temperature_adc.c:95-115 | a failed read yields 0 (the buffer is zeroed first), a good one its count |
| `HeaterController.PulseNs` | src/heater_controller.c:45 | the pulse for a percentage: 0 % is no pulse, and up to 100 % it is at most one PWM period |
| `HeaterController.PulseWithinPeriod` | src/heater_controller.c:45 | at most 100 percent of a period, truncated, is at most the period |
| `HeaterController.PulseBounded` | src/heater_controller.c:37-45 | the pulse width grows with the percent and never exceeds the PWM period up to `CONFIG_MAX_DUTY_CYCLE`; the C `int` product `percent * PWM_PERIOD_NS` stays in range whenever the configuration keeps it in range at the duty limit |
| `HeaterController.HeaterDuty` | src/heater_controller.c:51-62 | heater off gives 0; otherwise ⌊pid_out / 450 · MAX_DUTY⌋, never above MAX_DUTY and equal to it at full output |
| `HeaterController.HeaterDutyMonotone` | src/heater_controller.c:55-57 | a larger PID output never gives a smaller duty |
| `HeaterController.DividerTick` | src/heater_controller.c:76-88 | the PID may run only when the heater is on; with a quotient of at most 1 it runs whenever the heater is on and the counter is untouched |
| `HeaterController.DividerSchedule` | src/heater_controller.c:76-88 | from a zero counter, the k-th tick leaves k mod N and fires exactly on every N-th tick |
| `HeaterController.CountSchedule` | src/heater_controller.c:78-85 | from a zero counter, k ticks leave the static counter at k mod N |
| `HeaterController.DividerNeverFires` | src/heater_controller.c:78-85 | with a quotient of 256 or more the `uint8_t` counter never reaches it and the PID never runs |
| `HeaterController.Controller.constructor` | src/heater_controller.c:148-156 | filter window 2 of zeros with pointer and sum 0, run and sleep setpoints from the configuration, heater off, not sleeping; PID output, integral and last input 0, limits [0, 450], DIRECT, sample time = the compute interval, display gains the configured ones when none is negative and 0 otherwise |
| `HeaterController.Controller.SetDutyCycle` | src/heater_controller.c:35-49 | the percent is clamped to `CONFIG_MAX_DUTY_CYCLE`; pulse = percent · period / 100, at most the period; the C `int` product of the clamped percent and the period does not overflow |
| `HeaterController.Controller.HeaterUpdate` | src/heater_controller.c:51-62 | the pulse for `HeaterDuty` of the PID output; 0 when the heater is off |
| `HeaterController.Controller.AdcWorkHandler` | src/heater_controller.c:68-98 | the sample is written at the old window pointer, every other history slot is kept and the pointer advances; `cur_temp` is the calibrated filtered value every cycle; the PID runs exactly when the divider fires, toward the sleep setpoint when sleeping and the run setpoint otherwise, and then its integral term is the clamped step on that error; the pulse follows; gains, setpoints and flags unchanged |
| `UsbPd.PdoMaxCurrent` | src/usb_pd.c:45-49 | the `max_current` field of a Fixed source PDO, bits 9..0, below 1024 |
| `UsbPd.PdoVoltage` | src/usb_pd.c:102-104 | the `voltage` field of a Fixed source PDO, bits 19..10, below 1024 |
| `UsbPd.PdoType` | src/usb_pd.c:102-105 | the `type` field of a source PDO, bits 31..30, one of four values |
| `UsbPd.VoltageMv` | src/usb_pd.c:104 | the PDO voltage field times 50 mV, at most 51150, so the `uint16_t` never wraps |
| `UsbPd.LastAcceptable` | src/usb_pd.c:92-109 | the index is 0 or the last of the first k PDOs that is Fixed with 0 < mV ≤ the maximum; no later PDO qualifies |
| `UsbPd.SelectsHighestAcceptable` | src/usb_pd.c:100-109 | if some PDO qualifies, the selected one qualifies and no earlier-indexed one is chosen over it |
| `UsbPd.RequestFields` | src/usb_pd.c:47-69 | the fields `build_rdo` sets fit their bit widths in the RDO; `RdoRequestsSelectedPdo`, `RdoFallsBackToFirstObject` and `RdoFlagsFixed` give their values |
| `UsbPd.BuildRdo` | src/usb_pd.c:38-72 | the RDO as corrected (see Findings): the word decodes back to exactly the fields `build_rdo` sets, with reserved bits 0 |
| `UsbPd.BuildRdoAsWritten` | src/usb_pd.c:38-72 | the RDO as written decodes to the same fields except that reserved bits 22..20 are those of the stack word; with those bits 0 it is the corrected word |
| `UsbPd.DecodeEncodeRdo` | src/usb_pd.c:40-71 | every field written into the RDO union reads back from the raw value |
| `UsbPd.RdoRequestsSelectedPdo` | src/usb_pd.c:47-69 | with a count > 0 and a Fixed selected PDO, both current fields are its maximum current and the object position is index + 1 |
| `UsbPd.RdoFallsBackToFirstObject` | src/usb_pd.c:50-69 | otherwise both currents are 100 mA (10 units) and the object position is 1 |
| `UsbPd.RdoFlagsFixed` | src/usb_pd.c:58-69 | no USB suspend set; unchunked, USB communications, capability mismatch and giveback clear; reserved bits 0; position 1..7 |
| `UsbPd.RdoAsWrittenReserved` | src/usb_pd.c:40-71 | as written, the RDO equals the intended one except that its reserved bits are whatever the stack held |
| `UsbPd.RdoAsWrittenLeaksReservedBits` | src/usb_pd.c:40-71 | any stale stack word with a bit set in 22..20 gives a Request with non-zero reserved bits, where the intended one has none |
| `UsbPd.CheckPolicy` | src/usb_pd.c:178-197 | accepts exactly data-role swap to UFP and sink-at-default-level |
| `UsbPd.ReadyAfter` | src/usb_pd.c:123-174 | TRANSITION_PS sets ready, NOT_PD_CONNECTED clears it, every other notification keeps it |
| `UsbPd.ReadyTracksLastDecisive` | src/usb_pd.c:138-145 | after any sequence, ready is what the last TRANSITION_PS / NOT_PD_CONNECTED made it, or unchanged if neither came |
| `UsbPd.NoDecisiveKeepsReady` | src/usb_pd.c:138-145 | a sequence with neither TRANSITION_PS nor NOT_PD_CONNECTED leaves ready as it was |
| `UsbPd.LastDecisiveDecides` | src/usb_pd.c:138-145 | when notification i is the last TRANSITION_PS or NOT_PD_CONNECTED, ready ends set exactly when it is TRANSITION_PS |
| `UsbPd.Port0Data.constructor` | src/usb_pd.c:14-20 | zeroed source capabilities, count 0, index 0, not ready |
| `UsbPd.Port0Data.SetSrcCap` | src/usb_pd.c:85-112 | count = min(num_pdos, 7); exactly that many PDOs copied, the rest of the array untouched; index = `LastAcceptable` |
| `UsbPd.Port0Data.GetRdo` | src/usb_pd.c:114-119 | the RDO as corrected (see Findings) built from the stored capabilities: reserved bits 0, no USB suspend, and it requests the selected PDO's current at its position when that PDO qualifies |
| `UsbPd.Port0Data.Notify` | src/usb_pd.c:123-174 | the ready flag follows `ReadyAfter`; nothing else changes |
| `UsbPd.Port0Data.PdReady` | src/usb_pd.c:239-242 | true exactly when the ready flag is set |
| `AppUi.NextState` | src/app_ui.c:315-324 | NEXT moves to the following state and wraps past the last to MAIN |
| `AppUi.BackState` | src/app_ui.c:325-333 | BACK as intended: the previous state, wrapping MAIN to the last state |
| `AppUi.NextBackInverse` | src/app_ui.c:315-333 | BACK undoes NEXT and NEXT undoes BACK; NEXT always changes state and three NEXTs return |
| `AppUi.BackIndexAsWritten` | src/app_ui.c:325-333 | as written, BACK moves PID_TUNING and PREVIEW down by one and sends MAIN to an index past the end of `ui_states` |
| `AppUi.BackFromMainOverruns` | src/app_ui.c:325-333 | as written, BACK from MAIN yields the unsigned maximum (0xFFFFFFFF for a 32-bit enum), past the end of `ui_states` |
| `AppUi.BackAsWrittenAgreesAwayFromMain` | src/app_ui.c:325-333 | as written, BACK from any other state agrees with the intended BACK |
| `AppUi.PreviewEvent` | src/app_ui.c:218-237 | HOME exactly when power is ready and \|requested − measured\| < 2000 mV; a hard reset exactly when ready but out of tolerance; EMPTY otherwise |
| `AppUi.Arbitrate` | src/app_ui.c:311-313 | in PREVIEW every event but ENTER_PREVIEW is replaced by `preview_event`'s answer; elsewhere events pass unchanged |
| `AppUi.Target` | src/app_ui.c:314-357 | a state change is always to a different state (HOME and ENTER_PREVIEW only from elsewhere) |
| `AppUi.After` | src/app_ui.c:314-357 | the screen after an arbitrated event, which differs from the old one exactly when the switch names a target |
| `AppUi.PreviewLeftOnlyWhenPowered` | src/app_ui.c:311-340 | PREVIEW is left only for MAIN, and exactly when a non-ENTER_PREVIEW event arrives with power ready and the bus within 2 V |
| `AppUi.NextAdj` | src/app_ui.c:144-152 | OK in PID_TUNING always selects a different gain |
| `AppUi.NextAdjCycles` | src/app_ui.c:144-152 | KP → KI → KD → KP |
| `AppUi.Nudge` | src/app_ui.c:154-181 | UP/DOWN move only the selected gain, by +/− its step (0.1, 0.01, 0.1) |
| `AppUi.NudgeUpAccepted` | src/app_ui.c:154-182 | an UP from accepted gains is always accepted by `pid_set_tunings`; only DOWN can be refused |
| `AppUi.SetpointAfter` | src/app_ui.c:66-76 | in MAIN, UP adds and DOWN subtracts 10 °C; everything else keeps the setpoint |
| `AppUi.App.constructor` | src/app_ui.c:255-271 | starts in PREVIEW with the heater off, KP selected and a normal redraw |
| `AppUi.App.EnterState` | src/app_ui.c:60-64 | entering MAIN turns the heater on, entering PREVIEW (src/app_ui.c:185-190) turns it off, entering PID_TUNING (src/app_ui.c:112-114) leaves it |
| `AppUi.App.PidTuningEvent` | src/app_ui.c:142-183 | OK cycles the selected gain; UP/DOWN hand the nudged gains to `pid_set_tunings`, which takes them exactly when none is negative |
| `AppUi.App.KeyEvent` | src/app_ui.c:341-350 | UP/DOWN/OK go to MAIN's or PID_TUNING's handler, with the setpoint, selection and gains as above |
| `AppUi.App.HandleEvent` | src/app_ui.c:303-366 | new state = `After` of the arbitrated event, with BACK as corrected (see Findings); full-screen redraw exactly when the state changed; setpoint, selection and gains as above; hard reset as `preview_event` asks; heater on exactly outside PREVIEW |
| `SleepDetection.Elapsed` | src/sleep_detection.c:65 | `now − start` in `uint32_t`: the plain difference, or the difference across the 2^32 wrap |
| `SleepDetection.Decide` | src/sleep_detection.c:35-82 | one pass of the loop: only a still sample raises ENTER_PREVIEW, and always together with sleeping; still samples keep a running timer; a moving sample stops the timer and wakes the tip (`FailedReadSkips`, `MovingResets` and `StillSample` give each case in full) |
| `SleepDetection.FailedReadSkips` | src/sleep_detection.c:37-45 | a failed fetch or get changes neither the timer nor the sleep flag and raises nothing |
| `SleepDetection.MovingResets` | src/sleep_detection.c:74-79 | a moving sample stops the timer and clears sleeping |
| `SleepDetection.StillSample` | src/sleep_detection.c:57-73 | a still sample starts the timer only if stopped; at 600000 ms it raises ENTER_PREVIEW; at 5000 ms it sleeps; below that it leaves sleeping alone |
| `SleepDetection.PreviewImpliesSleeping` | src/sleep_detection.c:68-70 | ENTER_PREVIEW is raised only together with sleeping |
| `SleepDetection.TimerHeldWhileStill` | src/sleep_detection.c:35-82 | a running timer keeps its start through still samples and failed reads, and sleeping is never cleared meanwhile |
| `SleepDetection.SleepsAfterTimeout` | src/sleep_detection.c:60-73 | a still sample 5 s after a timer start, with no movement in between, ends asleep |
| `SleepDetection.Supervisor.constructor` | src/sleep_detection.c:28 | the timer starts stopped |
| `SleepDetection.Supervisor.Step` | src/sleep_detection.c:35-82 | timer and sleep flag follow `Decide`; on ENTER_PREVIEW the UI is in PREVIEW with the heater off, a full-screen redraw exactly when it was not already in PREVIEW, and setpoint, gain selection and PID untouched; otherwise the UI and PID are untouched |

## Left out

- Alarm callbacks, counters, the work queue and its cancellation: one `adc_work_handler` run is an atomic step.
- Mutexes, atomics and the display FIFO: each handler is atomic, and `ps_ready` is a plain flag.
- Display initialisation and all drawing (`*_draw`, `app_draw`, the TFT canvas): display driver I/O.
- The ADC and die-temperature drivers: the raw count is an input, and `cool_temp` (set by `update_cool_temp`) is the `coolTemp` parameter.
- The controller's calibration is an abstract function `calibrate` of the filtered count. `TemperatureAdc.RawToTemperature` gives its T12 instance.
- The accelerometer maths (`sqrtf`, `fabsf`, the 3 m/s² and 9.81 ± 1 tests): each sample is still, moving or a failed read. The thread loop and `k_msleep` are not modelled.
- `k_uptime_get_32` becomes the two uptime readings a still sample carries.
- The INA226 bus-voltage reading and its `double` to mV conversion: the measured voltage is an input to `AppUi.App.HandleEvent`.
- `pd_send_hard_reset` and the USB-C stack registration, start and callbacks (`get_snk_cap`, `snk_caps`): the hard reset is the emitted `hardReset` result.
- The C245 and T210 quadratic calibrations: only the T12 board's table is modelled.
- IEEE float rounding: `float` is `real`. Exact results hold only for the sign flips.
- `GAIN`'s `1000 / GAIN` float factor is exact in the model, and the cast of the float microvolts back to `uint32_t` is a floor.
- `TemperatureAdc.RawToTemperatureMonotone` and `TemperatureAdc.ReadingsFitInt32` hold only while `raw * vref_mv` does not wrap in `uint32_t`.
- The `#if` in `adc_work_handler` tests `CONFIG_PID_COMPUTE_INTERVAL` while `init_tip_controller` uses `CONFIG_PID_COMPUTE_INTERVAL_MS`. The divider's quotient is the configuration field `computeDivider`.
- HeaterController.Controller: the calibration `calibrate` is fixed for the controller's lifetime, so the cold-junction refresh that entering PREVIEW performs (`update_cool_temp`, src/app_ui.c:188) does not change it.
- AppUi.BackIndexAsWritten takes the enum to be 32 bits wide. Built with `-fshort-enums` it would wrap to 0xFF instead, which is past the end of `ui_states` as well.
- `app_init` enters PREVIEW before `tip_ctrl` is attached. The model starts with the controller attached and the heater off.
- The key-to-event mapping in `input_cb` of src/main.c is not part of this model. It never raises EVT_BACK, so the BACK finding is latent in this build.
- `MAX_FIXED_PDO_IDX` (src/usb_pd.h:45-49) is declared but never applied, and the model does not apply it either.
- A negative `num_pdos`: the PDOs are a sequence, whose length is never negative.
- PolicyCheck.OtherCheck stands for every policy check the source handles in its `default` branch.
- PidController.Pid.constructor requires a sample time above 0. With 0 the C divides a float by zero, which the model does not represent.
- PidController.Pid.GetDirection: the `Tuned` relation between display and internal gains is proved only for the two defined directions, 0 and 1.
- MovingAverage.Filter.Init requires a length of 1..16: the source does not check it, and a longer one would write past `history`.
- MovingAverage.AverageOfConstant, MovingAverage.ConvergesAfterWindow and MovingAverage.SetValueThenCompute hold only when `v * window_length` does not wrap in `uint32_t`.

## Findings

| source | as written | input that shows it | evidently intended | confidence | as-written member | corrected member |
|---|---|---|---|---|---|---|
| src/app_ui.c:325-333 | `enum ui_state` has no negative constant, so it is unsigned. `state--` from MAIN wraps to the enum type's maximum (0xFFFFFFFF in the model, which takes the type to be 32 bits) and `state < UI_MAIN` never holds (`AppUi.BackIndexAsWritten`), so `ui_set_state` indexes past `ui_states` | EVT_BACK while on MAIN | wrap MAIN to the last state, PREVIEW | not executed | `AppUi.BackFromMainOverruns` | `AppUi.NextBackInverse` |
| src/usb_pd.c:40-71 | the local `union pd_rdo` is never cleared, so reserved bits 22..20 of the Request keep whatever the stack held (`UsbPd.BuildRdoAsWritten`) | a stack word of 0x00700000 where `rdo` is allocated | reserved bits sent as 0, as section 6.4.2 of the USB Power Delivery specification requires | not executed | `UsbPd.RdoAsWrittenLeaksReservedBits` | `UsbPd.RdoFlagsFixed` |
