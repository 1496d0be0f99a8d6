/**
 * The soldering-tip controller: one sampling cycle of `adc_work_handler`
 * (filter, calibration, compute-interval divider, PID, duty update), the
 * PWM duty arithmetic and the defaults set by `init_tip_controller`. The ADC
 * reading is an input; the cold-junction calibration is an abstract function.
 */
module HeaterController {
  import opened Common
  import MovingAverage
  import PidController

  /** `PID_MAX_OUTPUT`: the upper PID output limit the duty is scaled from. */
  const PID_MAX_OUTPUT: real := 450.0

  /** The moving-average window `init_tip_controller` sets. */
  const FILTER_WINDOW: U32 := 2

  /** Build-time settings of the controller (`CONFIG_*` symbols and the PWM period from the device tree). */
  datatype Config = Config(
    maxDutyCycle: nat,         // CONFIG_MAX_DUTY_CYCLE, a percentage
    pwmPeriodNs: nat,          // PWM_PERIOD_NS
    computeDivider: nat,       // CONFIG_PID_COMPUTE_INTERVAL / CONFIG_TIP_SAMPLING_PERIOD_MS
    runningSetpoint: real,     // CONFIG_RUNNING_SETPOINT_C
    sleepingSetpoint: real,    // CONFIG_SLEEPING_SETPOINT_C
    kp: real, ki: real, kd: real,  // CONFIG_PID_K*_1000X / 1000
    computeIntervalMs: U32     // CONFIG_PID_COMPUTE_INTERVAL_MS
  )

  /**
   * Settings the arithmetic relies on: the duty limit is a percentage, the
   * PID period is positive, and the C `int` product `percent * PWM_PERIOD_NS`
   * does not overflow for any percent up to the duty limit.
   */
  predicate ConfigOk(c: Config)
  {
    c.maxDutyCycle <= 100 && c.computeIntervalMs > 0 && IsI32(c.maxDutyCycle * c.pwmPeriodNs)
  }

  /** The outcome of `temp_read_adc_raw`: a conversion, or a failure that leaves the zero it pre-stored. */
  datatype AdcSample = Read(raw: U32) | ReadFailed

  /** The raw code `adc_work_handler` filters: the conversion, or 0 after a failed read. */
  function RawOf(s: AdcSample): (raw: U32)
    ensures s.ReadFailed? ==> raw == 0
    ensures s.Read? ==> raw == s.raw
  {
    match s
    case Read(r) => r
    case ReadFailed => 0
  }

  /** The pulse width `soldering_tip_pwm_set_duty_cycle` programs for a percentage already limited to the maximum. */
  function PulseNs(percent: nat, cfg: Config): (ns: nat)
    ensures percent <= 100 ==> ns <= cfg.pwmPeriodNs
    ensures percent == 0 ==> ns == 0
  {
    if percent <= 100 then PulseWithinPeriod(percent, cfg.pwmPeriodNs); percent * cfg.pwmPeriodNs / 100
    else percent * cfg.pwmPeriodNs / 100
  }

  /**
   * A larger duty never programs a shorter pulse, the largest allowed duty
   * programs at most one period, and the C `int` product stays in range.
   */
  /** At most 100 percent of a period is at most the period. */
  lemma PulseWithinPeriod(percent: nat, period: nat)
    requires percent <= 100
    ensures percent * period / 100 <= period
  {
    MulMonotone(percent, 100, period);
    DivMonotone(percent * period, 100 * period, 100);
    MulDiv(100, period);
  }

  lemma PulseBounded(p: nat, q: nat, cfg: Config)
    requires ConfigOk(cfg) && p <= q <= cfg.maxDutyCycle
    ensures PulseNs(p, cfg) <= PulseNs(q, cfg) <= PulseNs(cfg.maxDutyCycle, cfg) <= cfg.pwmPeriodNs
    ensures IsI32(p * cfg.pwmPeriodNs) && IsI32(q * cfg.pwmPeriodNs)
  {
    MulMonotone(p, q, cfg.pwmPeriodNs);
    MulMonotone(q, cfg.maxDutyCycle, cfg.pwmPeriodNs);
    MulMonotone(cfg.maxDutyCycle, 100, cfg.pwmPeriodNs);
    DivMonotone(p * cfg.pwmPeriodNs, q * cfg.pwmPeriodNs, 100);
    DivMonotone(q * cfg.pwmPeriodNs, cfg.maxDutyCycle * cfg.pwmPeriodNs, 100);
    DivMonotone(cfg.maxDutyCycle * cfg.pwmPeriodNs, 100 * cfg.pwmPeriodNs, 100);
    MulDiv(100, cfg.pwmPeriodNs);
  }

  /**
   * The duty `heater_update` requests: 0 with the heater off, otherwise the
   * PID output as a fraction of `PID_MAX_OUTPUT` times the maximum duty,
   * truncated to an integer percentage.
   */
  function HeaterDuty(heaterOn: bool, pidOut: real, maxDutyCycle: nat): (duty: nat)
    requires 0.0 <= pidOut <= PID_MAX_OUTPUT
    ensures !heaterOn ==> duty == 0
    ensures duty <= maxDutyCycle
    ensures heaterOn && pidOut == PID_MAX_OUTPUT ==> duty == maxDutyCycle
  {
    if heaterOn then
      FractionOfMax(pidOut / PID_MAX_OUTPUT, maxDutyCycle);
      ((pidOut / PID_MAX_OUTPUT) * maxDutyCycle as real).Floor
    else
      0
  }

  lemma FractionOfMax(f: real, m: nat)
    requires 0.0 <= f <= 1.0
    ensures 0.0 <= f * m as real <= m as real
    ensures 0 <= (f * m as real).Floor <= m
  {
    assert m as real - f * m as real == (1.0 - f) * m as real;
  }

  /** A larger PID output never requests a smaller duty. */
  lemma HeaterDutyMonotone(a: real, b: real, maxDutyCycle: nat)
    requires 0.0 <= a <= b <= PID_MAX_OUTPUT
    ensures HeaterDuty(true, a, maxDutyCycle) <= HeaterDuty(true, b, maxDutyCycle)
  {
    var fa, fb := a / PID_MAX_OUTPUT, b / PID_MAX_OUTPUT;
    assert fa <= fb;
    var x, y := fa * maxDutyCycle as real, fb * maxDutyCycle as real;
    assert x <= y by {
      assert y - x == (fb - fa) * maxDutyCycle as real;
    }
    assert x.Floor as real <= x && y < y.Floor as real + 1.0;
  }

  /**
   * One tick of the compute-interval divider with `n` samples per PID step:
   * when `n > 1` the static 8-bit counter `c` is incremented (wrapping at
   * 256) and the PID runs, if the heater is on, when `c` reaches `n`, which
   * resets `c`; when `n <= 1` the divider is compiled out and the PID runs on
   * every sample the heater is on.
   */
  function DividerTick(c: U8, n: nat, heaterOn: bool): (r: (U8, bool))
    ensures r.1 ==> heaterOn
    ensures n <= 1 ==> r == (c, heaterOn)
  {
    if n > 1 then
      var c' := (c + 1) % 256;
      if c' >= n then (0, heaterOn) else (c', false)
    else
      (c, heaterOn)
  }

  /** The divider counter after `k` ticks from 0. */
  function CountAfter(k: nat, n: nat): U8
  {
    if k == 0 then 0 else DividerTick(CountAfter(k - 1, n), n, true).0
  }

  /**
   * With `1 < n <= 255` samples per PID step and the heater on, the counter
   * after `k` ticks is `k mod n`, so the PID runs on tick `k + 1` exactly when
   * `k + 1` is a multiple of `n`.
   */
  lemma {:induction false} DividerSchedule(k: nat, n: nat)
    requires 1 < n <= 255
    ensures CountAfter(k, n) == k % n
    ensures DividerTick(CountAfter(k, n), n, true).1 <==> (k + 1) % n == 0
  {
    CountSchedule(k, n);
    TickBelow(k % n, n);
    ModStep(k + 1, n);
  }

  /** The counting half of `DividerSchedule`: after `k` ticks the counter holds `k mod n`. */
  lemma {:induction false} CountSchedule(k: nat, n: nat)
    requires 1 < n <= 255
    ensures CountAfter(k, n) == k % n
  {
    if k > 0 {
      CountSchedule(k - 1, n);
      var c := CountAfter(k - 1, n);
      assert c == (k - 1) % n < n;
      TickBelow(c, n);
      ModStep(k, n);
    }
  }

  /** Below `n <= 255` the 8-bit counter cannot wrap: a tick adds one, or fires and resets at `n`. */
  lemma TickBelow(c: U8, n: nat)
    requires 1 < n <= 255 && c < n
    ensures DividerTick(c, n, true) == if c + 1 == n then (0, true) else (c + 1, false)
  {
  }

  /** Counting one more: the remainder grows by one, or wraps to 0 at `n`. */
  lemma ModStep(k: nat, n: nat)
    requires k >= 1 && n > 1
    ensures k % n == if (k - 1) % n + 1 == n then 0 else (k - 1) % n + 1
  {
    var q, r := (k - 1) / n, (k - 1) % n;
    if r + 1 < n {
      DivModUnique(k, n, q, r + 1);
    } else {
      DivModUnique(k, n, q + 1, 0);
    }
  }

  /** With 256 or more samples per PID step the 8-bit counter wraps before reaching `n`: the PID never runs. */
  lemma DividerNeverFires(c: U8, n: nat, heaterOn: bool)
    requires n >= 256
    ensures !DividerTick(c, n, heaterOn).1
  {
  }

  /** The soldering-tip `struct controller` with its filter, its PID and the divider's static counter. */
  class Controller {
    const cfg: Config
    /** `temp_raw_to_temperature`: filtered ADC code to tip temperature, cold junction included. */
    const calibrate: U32 -> real
    const filter: MovingAverage.Filter
    const pid: PidController.Pid
    var curTemp: real
    var setpoint: real
    var isSleeping: bool
    var sleepSetpoint: real
    var heaterOn: bool
    /** The static counter `c` of `adc_work_handler`. */
    var divCount: U8

    ghost predicate Valid()
      reads this, filter, filter.history, pid
    {
      && ConfigOk(cfg)
      && filter.Valid()
      && pid.Valid()
      && pid.outMin == 0.0 && pid.outMax == PID_MAX_OUTPUT
    }

    /**
     * The defaults of `init_tip_controller`: filter window 2, running and
     * sleeping setpoints from the configuration, heater off, not sleeping,
     * a direct PID with the configured gains and period, limits [0, 450].
     */
    constructor (cfg: Config, calibrate: U32 -> real)
      requires ConfigOk(cfg)
      ensures Valid()
      ensures fresh(filter) && fresh(filter.history) && fresh(pid)
      ensures this.cfg == cfg && this.calibrate == calibrate
      ensures filter.windowLength == FILTER_WINDOW && filter.Window() == [0, 0]
      ensures filter.windowPointer == 0 && filter.sum == 0
      ensures setpoint == cfg.runningSetpoint && sleepSetpoint == cfg.sleepingSetpoint
      ensures !heaterOn && !isSleeping && divCount == 0 && curTemp == 0.0
      ensures pid.outMin == 0.0 && pid.outMax == PID_MAX_OUTPUT
      ensures pid.output == 0.0 && pid.outputSum == 0.0 && pid.lastInput == 0.0
      ensures pid.sampleTime == cfg.computeIntervalMs
      ensures cfg.kp >= 0.0 && cfg.ki >= 0.0 && cfg.kd >= 0.0 ==>
                pid.dispKp == cfg.kp && pid.dispKi == cfg.ki && pid.dispKd == cfg.kd
      ensures !(cfg.kp >= 0.0 && cfg.ki >= 0.0 && cfg.kd >= 0.0) ==>
                pid.dispKp == 0.0 && pid.dispKi == 0.0 && pid.dispKd == 0.0
      ensures pid.direction == PidController.PID_CD_DIRECT && pid.Tuned()
    {
      this.cfg := cfg;
      this.calibrate := calibrate;
      var f := new MovingAverage.Filter();
      f.Init(FILTER_WINDOW);
      var p := new PidController.Pid(cfg.kp, cfg.ki, cfg.kd, cfg.computeIntervalMs, PidController.PID_CD_DIRECT);
      p.SetOutputLimits(0.0, PID_MAX_OUTPUT);
      assert p.Valid() && p.Tuned();
      this.filter := f;
      this.pid := p;
      this.setpoint := cfg.runningSetpoint;
      this.heaterOn := false;
      this.sleepSetpoint := cfg.sleepingSetpoint;
      this.isSleeping := false;
      this.divCount := 0;
      this.curTemp := 0.0;
    }

    /**
     * `soldering_tip_pwm_set_duty_cycle`: limit the percentage to the
     * configured maximum and convert it to a pulse width in nanoseconds.
     */
    method SetDutyCycle(percent: U8) returns (pulseNs: nat)
      requires ConfigOk(cfg)
      ensures pulseNs == PulseNs(if percent > cfg.maxDutyCycle then cfg.maxDutyCycle else percent, cfg)
      ensures pulseNs <= PulseNs(cfg.maxDutyCycle, cfg) <= cfg.pwmPeriodNs
    ensures IsI32((if percent > cfg.maxDutyCycle then cfg.maxDutyCycle else percent) * cfg.pwmPeriodNs)
      ensures percent == 0 ==> pulseNs == 0
    {
      var p: nat := percent;
      if p > cfg.maxDutyCycle {
        p := cfg.maxDutyCycle;
      }
      pulseNs := (p * cfg.pwmPeriodNs) / 100;
      PulseBounded(p, cfg.maxDutyCycle, cfg);
    }

    /** `heater_update`: the pulse for the duty derived from the PID output, or none with the heater off. */
    method HeaterUpdate() returns (pulseNs: nat)
      requires Valid()
      ensures pulseNs == PulseNs(HeaterDuty(heaterOn, pid.output, cfg.maxDutyCycle), cfg)
      ensures !heaterOn ==> pulseNs == 0
      ensures pulseNs <= cfg.pwmPeriodNs
    {
      var duty: nat := HeaterDuty(heaterOn, pid.output, cfg.maxDutyCycle);
      pulseNs := SetDutyCycle(duty);
    }

    /**
     * `adc_work_handler`, one sampling cycle: filter the sample, advance the
     * divider, update the current temperature, run the PID towards the
     * sleeping or running setpoint when due, and reprogram the heater.
     */
    method AdcWorkHandler(sample: AdcSample) returns (pulseNs: nat, pidRan: bool)
      requires Valid()
      modifies this, filter, filter.history, pid
      ensures Valid()
      ensures filter.windowLength == old(filter.windowLength)
      ensures filter.history[..] == old(filter.history[..])[old(filter.windowPointer) := RawOf(sample)]
      ensures filter.Window() == old(filter.Window())[old(filter.windowPointer) := RawOf(sample)]
      ensures filter.windowPointer == MovingAverage.Advance(old(filter.windowPointer), filter.windowLength)
      ensures curTemp == calibrate(MovingAverage.Average(filter.Window()))
      ensures (divCount, pidRan) == DividerTick(old(divCount), cfg.computeDivider, heaterOn)
      ensures pidRan ==> pid.output == PidController.ControlOutput(pid.kp, pid.kd, pid.outputSum,
                                        (if isSleeping then sleepSetpoint else setpoint) - curTemp,
                                        curTemp - old(pid.lastInput), 0.0, PID_MAX_OUTPUT)
      ensures pidRan ==> pid.outputSum == PidController.IntegralStep(old(pid.outputSum), pid.ki,
                                           (if isSleeping then sleepSetpoint else setpoint) - curTemp,
                                           0.0, PID_MAX_OUTPUT)
      ensures pidRan ==> pid.lastInput == curTemp
      ensures !pidRan ==> pid.output == old(pid.output) && pid.outputSum == old(pid.outputSum) && pid.lastInput == old(pid.lastInput)
      ensures pulseNs == PulseNs(HeaterDuty(heaterOn, pid.output, cfg.maxDutyCycle), cfg)
      ensures setpoint == old(setpoint) && sleepSetpoint == old(sleepSetpoint)
      ensures heaterOn == old(heaterOn) && isSleeping == old(isSleeping)
      ensures pid.kp == old(pid.kp) && pid.ki == old(pid.ki) && pid.kd == old(pid.kd)
      ensures pid.dispKp == old(pid.dispKp) && pid.dispKi == old(pid.dispKi) && pid.dispKd == old(pid.dispKd)
      ensures pid.sampleTime == old(pid.sampleTime) && pid.direction == old(pid.direction)
    {
      var tempRaw := RawOf(sample);
      tempRaw := filter.Compute(tempRaw);
      var tick := DividerTick(divCount, cfg.computeDivider, heaterOn);
      divCount := tick.0;
      var needCompute := tick.1;
      var tt := calibrate(tempRaw);
      curTemp := tt;
      if needCompute {
        var _ := pid.Compute(tt, if isSleeping then sleepSetpoint else setpoint);
      }
      pidRan := needCompute;
      pulseNs := HeaterUpdate();
    }
  }
}
