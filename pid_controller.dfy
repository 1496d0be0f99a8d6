/**
 * The PID controller of the heater loop: a state record updated in place by
 * `pid_compute` and by setters that reject bad arguments. The firmware's
 * `float`s are modelled as `real`, so every identity below is exact.
 */
module PidController {
  import opened Common

  /** `PID_CD_DIRECT` and `PID_CD_REVERSE`. */
  const PID_CD_DIRECT: U8 := 0
  const PID_CD_REVERSE: U8 := 1

  /** `x` limited to `[lo, hi]`, tested in the firmware's order: the upper bound first. */
  function Clamp(x: real, lo: real, hi: real): (r: real)
    ensures x > hi ==> r == hi
    ensures x <= hi && x < lo ==> r == lo
    ensures lo <= hi ==> lo <= r <= hi
    ensures lo <= x <= hi ==> r == x
  {
    if x > hi then hi else if x < lo then lo else x
  }

  /** Clamping into fixed limits never reverses the order of two values. */
  lemma ClampMonotone(x: real, y: real, lo: real, hi: real)
    requires x <= y && lo <= hi
    ensures Clamp(x, lo, hi) <= Clamp(y, lo, hi)
  {
  }

  /** A gain signed as `pid_set_tunings` signs it: negated only for `PID_CD_REVERSE`. */
  function Signed(direction: U8, gain: real): (g: real)
    ensures g == gain || g == -gain
    ensures gain != 0.0 ==> (g == -gain <==> direction == PID_CD_REVERSE)
  {
    if direction == PID_CD_REVERSE then -gain else gain
  }

  /** The internal integral gain for display gain `gain` at a sample period of `ts` seconds. */
  function IntegralGain(direction: U8, gain: real, ts: real): real
  {
    Signed(direction, gain * ts)
  }

  /** The internal derivative gain for display gain `gain` at a sample period of `ts` seconds. */
  function DerivativeGain(direction: U8, gain: real, ts: real): real
    requires ts > 0.0
  {
    Signed(direction, gain / ts)
  }

  /** A gain after `pid_set_controller_direction(from -> to)`: negated exactly when the direction changes. */
  function Redirect(gain: real, from: U8, to: U8): (g: real)
    ensures g == gain || g == -gain
    ensures from == to ==> g == gain
    ensures from != to ==> g == -gain
  {
    if to != from then -gain else gain
  }

  /** Switching direction and switching back restores every gain. */
  lemma RedirectTwice(gain: real, a: U8, b: U8)
    ensures Redirect(Redirect(gain, a, b), b, a) == gain
  {
  }

  /** Between the two directions, switching moves the gain from one sign convention to the other. */
  lemma RedirectFollowsSign(gain: real, a: U8, b: U8)
    requires a <= PID_CD_REVERSE && b <= PID_CD_REVERSE
    ensures Redirect(Signed(a, gain), a, b) == Signed(b, gain)
  {
  }

  /** The integral term of `pid_compute` before clamping: the error weighted by `ki` is added to it. */
  function Accumulated(sum: real, ki: real, error: real): real
  {
    sum + ki * error
  }

  /** The integral term after one `pid_compute`: accumulated, then clamped into the output limits. */
  function IntegralStep(sum: real, ki: real, error: real, lo: real, hi: real): (r: real)
    ensures lo <= hi ==> lo <= r <= hi
  {
    Clamp(Accumulated(sum, ki, error), lo, hi)
  }

  /** The output of `pid_compute` before clamping: proportional on error, plus the integral, minus derivative on measurement. */
  function Unclamped(kp: real, kd: real, sum: real, error: real, dInput: real): real
  {
    kp * error + (sum - kd * dInput)
  }

  /** The output of one `pid_compute`: the unclamped output limited to the output range. */
  function ControlOutput(kp: real, kd: real, sum: real, error: real, dInput: real, lo: real, hi: real): (r: real)
    ensures lo <= hi ==> lo <= r <= hi
  {
    Clamp(Unclamped(kp, kd, sum, error, dInput), lo, hi)
  }

  /**
   * With non-negative gains (a direct-acting controller), a higher setpoint
   * never yields a smaller integral term or a smaller output for the same
   * measurement.
   */
  lemma HigherSetpointMoreOutput(kp: real, ki: real, kd: real, sum: real, input: real, lastInput: real,
                                 sp1: real, sp2: real, lo: real, hi: real)
    requires kp >= 0.0 && ki >= 0.0 && sp1 <= sp2 && lo <= hi
    ensures IntegralStep(sum, ki, sp1 - input, lo, hi) <= IntegralStep(sum, ki, sp2 - input, lo, hi)
    ensures ControlOutput(kp, kd, IntegralStep(sum, ki, sp1 - input, lo, hi), sp1 - input, input - lastInput, lo, hi)
         <= ControlOutput(kp, kd, IntegralStep(sum, ki, sp2 - input, lo, hi), sp2 - input, input - lastInput, lo, hi)
  {
    var e1, e2 := sp1 - input, sp2 - input;
    IntegralMonotone(sum, ki, e1, e2, lo, hi);
    var s1, s2 := IntegralStep(sum, ki, e1, lo, hi), IntegralStep(sum, ki, e2, lo, hi);
    ControlMonotone(kp, kd, s1, s2, e1, e2, input - lastInput, lo, hi);
  }

  /** With a non-negative integral gain, a larger error never yields a smaller integral term. */
  lemma IntegralMonotone(sum: real, ki: real, e1: real, e2: real, lo: real, hi: real)
    requires ki >= 0.0 && e1 <= e2 && lo <= hi
    ensures IntegralStep(sum, ki, e1, lo, hi) <= IntegralStep(sum, ki, e2, lo, hi)
  {
    AccumulatedMonotone(sum, ki, e1, e2);
    ClampMonotone(Accumulated(sum, ki, e1), Accumulated(sum, ki, e2), lo, hi);
  }

  lemma AccumulatedMonotone(sum: real, ki: real, e1: real, e2: real)
    requires ki >= 0.0 && e1 <= e2
    ensures Accumulated(sum, ki, e1) <= Accumulated(sum, ki, e2)
  {
    ScaleMonotone(ki, e1, e2);
  }

  /** With a non-negative proportional gain, a larger error and integral term never yield a smaller output. */
  lemma ControlMonotone(kp: real, kd: real, s1: real, s2: real, e1: real, e2: real, dInput: real, lo: real, hi: real)
    requires kp >= 0.0 && e1 <= e2 && s1 <= s2 && lo <= hi
    ensures ControlOutput(kp, kd, s1, e1, dInput, lo, hi) <= ControlOutput(kp, kd, s2, e2, dInput, lo, hi)
  {
    UnclampedMonotone(kp, kd, s1, s2, e1, e2, dInput);
    ClampMonotone(Unclamped(kp, kd, s1, e1, dInput), Unclamped(kp, kd, s2, e2, dInput), lo, hi);
  }

  lemma UnclampedMonotone(kp: real, kd: real, s1: real, s2: real, e1: real, e2: real, dInput: real)
    requires kp >= 0.0 && e1 <= e2 && s1 <= s2
    ensures Unclamped(kp, kd, s1, e1, dInput) <= Unclamped(kp, kd, s2, e2, dInput)
  {
    ScaleMonotone(kp, e1, e2);
  }

  /** A non-negative gain preserves the order of errors. */
  lemma ScaleMonotone(k: real, a: real, b: real)
    requires k >= 0.0 && a <= b
    ensures k * a <= k * b
  {
    assert k * b - k * a == k * (b - a);
  }

  /** The integral term after a run of `pid_compute` calls with the given errors. */
  function IntegralAfter(sum: real, ki: real, errors: seq<real>, lo: real, hi: real): (r: real)
    ensures lo <= hi && |errors| > 0 ==> lo <= r <= hi
    decreases |errors|
  {
    if |errors| == 0 then sum else IntegralAfter(IntegralStep(sum, ki, errors[0], lo, hi), ki, errors[1..], lo, hi)
  }

  /** Every error in the sequence adds at least `c` to the integral term. */
  ghost predicate EachAdds(ki: real, errors: seq<real>, c: real)
    decreases |errors|
  {
    |errors| == 0 || (ki * errors[0] >= c && EachAdds(ki, errors[1..], c))
  }

  /**
   * Anti-windup: when every step adds at least `c > 0` to the integral, `k`
   * steps raise it by `k * c` or pin it at the upper limit, never beyond.
   */
  lemma IntegralRises(sum: real, ki: real, errors: seq<real>, lo: real, hi: real, c: real)
    requires lo <= sum <= hi && c > 0.0
    requires EachAdds(ki, errors, c)
    ensures IntegralAfter(sum, ki, errors, lo, hi) <= hi
    ensures IntegralAfter(sum, ki, errors, lo, hi) >= hi || IntegralAfter(sum, ki, errors, lo, hi) >= sum + |errors| as real * c
  {
    IntegralRisesBy(sum, ki, errors, lo, hi, c);
    RiseIsProduct(|errors|, c);
  }

  /** `n` increments of `c`, added up one at a time. */
  function Rise(n: nat, c: real): (r: real)
    ensures c >= 0.0 ==> r >= 0.0
  {
    if n == 0 then 0.0 else Rise(n - 1, c) + c
  }

  /** Adding `c` up `n` times gives `n * c`. */
  lemma {:induction false} RiseIsProduct(n: nat, c: real)
    ensures Rise(n, c) == n as real * c
  {
    if n > 0 {
      RiseIsProduct(n - 1, c);
      assert n as real * c == (n - 1) as real * c + c;
    }
  }

  /** `IntegralRises` with the rise added up step by step. */
  lemma {:induction false} IntegralRisesBy(sum: real, ki: real, errors: seq<real>, lo: real, hi: real, c: real)
    requires lo <= sum <= hi && c > 0.0
    requires EachAdds(ki, errors, c)
    ensures IntegralAfter(sum, ki, errors, lo, hi) <= hi
    ensures IntegralAfter(sum, ki, errors, lo, hi) >= hi || IntegralAfter(sum, ki, errors, lo, hi) >= sum + Rise(|errors|, c)
    decreases |errors|
  {
    if |errors| > 0 {
      var rest := errors[1..];
      var next := StepRises(sum, ki, errors, lo, hi, c);
      IntegralRisesBy(next, ki, rest, lo, hi, c);
      var r := IntegralAfter(next, ki, rest, lo, hi);
      var risen := Rise(|rest|, c);
      RiseStep(sum, next, r, hi, c, risen);
      assert Rise(|errors|, c) == risen + c;
    }
  }

  /** One more rising step adds one more `c`, unless the limit was reached. */
  lemma RiseStep(sum: real, next: real, r: real, hi: real, c: real, risen: real)
    requires risen >= 0.0
    requires next >= hi || next >= sum + c
    requires r >= hi || r >= next + risen
    ensures r >= hi || r >= sum + (risen + c)
  {
  }

  /**
   * The first step of a rising run: the integral term `next` it leaves is
   * where the rest of the run starts, and it has risen by `c` or reached the
   * upper limit.
   */
  lemma StepRises(sum: real, ki: real, errors: seq<real>, lo: real, hi: real, c: real) returns (next: real)
    requires lo <= sum <= hi && |errors| > 0 && EachAdds(ki, errors, c)
    ensures IntegralAfter(sum, ki, errors, lo, hi) == IntegralAfter(next, ki, errors[1..], lo, hi)
    ensures lo <= next <= hi && EachAdds(ki, errors[1..], c)
    ensures next >= hi || next >= sum + c
  {
    next := IntegralStep(sum, ki, errors[0], lo, hi);
    assert Accumulated(sum, ki, errors[0]) >= sum + c;
  }

  /** The `pid_controller` struct. */
  class Pid {
    var output: real
    var kp: real
    var ki: real
    var kd: real
    var dispKp: real
    var dispKi: real
    var dispKd: real
    var outputSum: real
    var lastInput: real
    var sampleTime: U32
    var outMin: real
    var outMax: real
    var direction: U8

    /** The sample period in seconds, as `pid_set_tunings` computes it. */
    function SampleSeconds(): real
      reads this
    {
      sampleTime as real / 1000.0
    }

    /** Non-empty output limits hold both the output and the integral term. */
    ghost predicate Limited()
      reads this
    {
      outMin < outMax && outMin <= output <= outMax && outMin <= outputSum <= outMax
    }

    /** What every setter keeps: a positive sample period and non-negative display gains. */
    ghost predicate Settled()
      reads this
    {
      sampleTime > 0 && dispKp >= 0.0 && dispKi >= 0.0 && dispKd >= 0.0
    }

    ghost predicate Valid()
      reads this
    {
      Limited() && Settled()
    }

    /**
     * The internal gains are the display gains scaled to the sample period
     * and signed by the direction, which is one of the two defined values.
     */
    ghost predicate Tuned()
      reads this
    {
      && sampleTime > 0
      && direction <= PID_CD_REVERSE
      && kp == Signed(direction, dispKp)
      && ki == IntegralGain(direction, dispKi, SampleSeconds())
      && kd == DerivativeGain(direction, dispKd, SampleSeconds())
    }

    /**
     * `pid_init` applied to the zero-initialised static struct: output 0,
     * limits [0, 100], the given direction and, when none is negative, the
     * given gains; integral term and last input 0.
     */
    constructor (kp: real, ki: real, kd: real, sampleTime: U32, direction: U8)
      requires sampleTime > 0
      ensures Valid()
      ensures output == 0.0 && outputSum == 0.0 && lastInput == 0.0
      ensures outMin == 0.0 && outMax == 100.0
      ensures this.sampleTime == sampleTime && this.direction == direction
      ensures kp >= 0.0 && ki >= 0.0 && kd >= 0.0 ==> dispKp == kp && dispKi == ki && dispKd == kd
      ensures !(kp >= 0.0 && ki >= 0.0 && kd >= 0.0) ==> dispKp == 0.0 && dispKi == 0.0 && dispKd == 0.0
      ensures direction <= PID_CD_REVERSE ==> Tuned()
    {
      this.output := 0.0;
      this.kp, this.ki, this.kd := 0.0, 0.0, 0.0;
      this.dispKp, this.dispKi, this.dispKd := 0.0, 0.0, 0.0;
      this.outputSum, this.lastInput := 0.0, 0.0;
      this.sampleTime := 0;
      this.outMin, this.outMax := 0.0, 0.0;
      this.direction := PID_CD_DIRECT;
      new;
      this.output := 0.0;
      this.sampleTime := sampleTime;
      SetOutputLimits(0.0, 100.0);
      SetControllerDirection(direction);
      SetTunings(kp, ki, kd);
      this.outputSum := 0.0;
      this.lastInput := 0.0;
    }

    /**
     * `pid_compute`: accumulate `ki * error` into the integral term and clamp
     * it, then output `kp * error + integral - kd * (input - last_input)`,
     * clamped; remember the input.
     */
    method Compute(input: real, setpoint: real) returns (out: real)
      requires Valid()
      modifies this`outputSum, this`output, this`lastInput
      ensures Valid()
      ensures outputSum == IntegralStep(old(outputSum), ki, setpoint - input, outMin, outMax)
      ensures out == ControlOutput(kp, kd, outputSum, setpoint - input, input - old(lastInput), outMin, outMax)
      ensures output == out && lastInput == input
    {
      var error := setpoint - input;
      var dInput := input - lastInput;
      outputSum := Clamp(Accumulated(outputSum, ki, error), outMin, outMax);
      out := Clamp(Unclamped(kp, kd, outputSum, error, dInput), outMin, outMax);
      output := out;
      lastInput := input;
    }

    /**
     * `pid_set_output_limits`: an empty or inverted range is ignored;
     * otherwise the limits are replaced and the output and integral term are
     * clamped into them.
     */
    method SetOutputLimits(min: real, max: real)
      modifies this`outMin, this`outMax, this`output, this`outputSum
      ensures min >= max ==> outMin == old(outMin) && outMax == old(outMax) && output == old(output) && outputSum == old(outputSum)
      ensures min < max ==> outMin == min && outMax == max
      ensures min < max ==> output == Clamp(old(output), min, max) && outputSum == Clamp(old(outputSum), min, max)
      ensures min < max ==> Limited()
      ensures old(Limited()) ==> Limited()
      ensures old(Tuned()) ==> Tuned()
    {
      if min >= max {
        return;
      }
      outMin := min;
      outMax := max;
      output := Clamp(output, outMin, outMax);
      outputSum := Clamp(outputSum, outMin, outMax);
    }

    /**
     * `pid_set_tunings`: any negative gain rejects the whole call; otherwise
     * the display gains are stored as given and the internal gains become
     * `kp`, `ki * Ts` and `kd / Ts`, negated for `PID_CD_REVERSE`.
     */
    method SetTunings(kp: real, ki: real, kd: real)
      requires sampleTime > 0
      modifies this`dispKp, this`dispKi, this`dispKd, this`kp, this`ki, this`kd
      ensures kp < 0.0 || ki < 0.0 || kd < 0.0 ==>
        && dispKp == old(dispKp) && dispKi == old(dispKi) && dispKd == old(dispKd)
        && this.kp == old(this.kp) && this.ki == old(this.ki) && this.kd == old(this.kd)
      ensures kp >= 0.0 && ki >= 0.0 && kd >= 0.0 ==>
        && dispKp == kp && dispKi == ki && dispKd == kd
        && this.kp == Signed(direction, kp)
        && this.ki == IntegralGain(direction, ki, SampleSeconds())
        && this.kd == DerivativeGain(direction, kd, SampleSeconds())
      ensures kp >= 0.0 && ki >= 0.0 && kd >= 0.0 && direction <= PID_CD_REVERSE ==> Tuned()
      ensures old(Tuned()) ==> Tuned()
      ensures old(Settled()) ==> Settled()
    {
      if kp < 0.0 || ki < 0.0 || kd < 0.0 {
        return;
      }
      dispKp, dispKi, dispKd := kp, ki, kd;
      var sampleTimeInSec := sampleTime as real / 1000.0;
      this.kp := kp;
      this.ki := ki * sampleTimeInSec;
      this.kd := kd / sampleTimeInSec;
      if direction == PID_CD_REVERSE {
        this.kp := -this.kp;
        this.ki := -this.ki;
        this.kd := -this.kd;
      }
    }

    /**
     * `pid_set_sample_time`: 0 is ignored; otherwise `ki` is scaled by
     * new/old and `kd` by old/new, which keeps the internal gains matched to
     * the display gains at the new period.
     */
    method SetSampleTime(newSampleTime: U32)
      requires Valid()
      modifies this`ki, this`kd, this`sampleTime
      ensures Valid()
      ensures newSampleTime == 0 ==> sampleTime == old(sampleTime) && ki == old(ki) && kd == old(kd)
      ensures newSampleTime > 0 ==> sampleTime == newSampleTime
      ensures newSampleTime > 0 ==> ki == old(ki) * (newSampleTime as real / old(sampleTime) as real)
      ensures newSampleTime > 0 ==> kd == old(kd) / (newSampleTime as real / old(sampleTime) as real)
      ensures old(Tuned()) ==> Tuned()
    {
      if newSampleTime > 0 {
        var ratio := newSampleTime as real / sampleTime as real;
        ghost var wasTuned, oldKi, oldKd, oldMs := Tuned(), ki, kd, sampleTime;
        ki := ki * ratio;
        kd := kd / ratio;
        sampleTime := newSampleTime;
        if wasTuned {
          RescaledIsTuned(oldKi, oldKd, oldMs, ratio);
        }
      }
    }

    /** Gains that were matched to a period of `oldMs` and rescaled to the current period are matched again. */
    lemma RescaledIsTuned(oldKi: real, oldKd: real, oldMs: nat, ratio: real)
      requires sampleTime > 0 && oldMs > 0 && direction <= PID_CD_REVERSE
      requires ratio == sampleTime as real / oldMs as real
      requires kp == Signed(direction, dispKp)
      requires oldKi == IntegralGain(direction, dispKi, oldMs as real / 1000.0)
      requires oldKd == DerivativeGain(direction, dispKd, oldMs as real / 1000.0)
      requires ki == oldKi * ratio && kd == oldKd / ratio
      ensures Tuned()
    {
      RetuneIntegral(direction, dispKi, oldKi, oldMs, sampleTime, ratio);
      RetuneDerivative(direction, dispKd, oldKd, oldMs, sampleTime, ratio);
    }

    /**
     * `pid_set_controller_direction`: the internal gains are negated exactly
     * when the direction changes; the display gains are untouched.
     */
    method SetControllerDirection(direction: U8)
      modifies this`kp, this`ki, this`kd, this`direction
      ensures this.direction == direction
      ensures kp == Redirect(old(kp), old(this.direction), direction)
      ensures ki == Redirect(old(ki), old(this.direction), direction)
      ensures kd == Redirect(old(kd), old(this.direction), direction)
      ensures old(Tuned()) && direction <= PID_CD_REVERSE ==> Tuned()
    {
      if direction != this.direction {
        kp := -kp;
        ki := -ki;
        kd := -kd;
      }
      this.direction := direction;
      if old(Tuned()) && direction <= PID_CD_REVERSE {
        RedirectFollowsSign(dispKp, old(this.direction), direction);
        RedirectFollowsSign(dispKi * SampleSeconds(), old(this.direction), direction);
        RedirectFollowsSign(dispKd / SampleSeconds(), old(this.direction), direction);
      }
    }

    /** `pid_get_kp`: the display gain, which the internal gain is derived from. */
    function GetKp(): (r: real)
      reads this
      ensures Valid() ==> r >= 0.0
      ensures Tuned() ==> kp == Signed(direction, r)
    {
      dispKp
    }

    /** `pid_get_ki`: the display gain, before scaling to the sample period. */
    function GetKi(): (r: real)
      reads this
      ensures Valid() ==> r >= 0.0
      ensures Tuned() ==> ki == IntegralGain(direction, r, SampleSeconds())
    {
      dispKi
    }

    /** `pid_get_kd`: the display gain, before scaling to the sample period. */
    function GetKd(): (r: real)
      reads this
      ensures Valid() ==> r >= 0.0
      ensures Tuned() ==> kd == DerivativeGain(direction, r, SampleSeconds())
    {
      dispKd
    }

    /** `pid_get_direction`. */
    function GetDirection(): (r: U8)
      reads this
      ensures Tuned() ==> r <= PID_CD_REVERSE
    {
      direction
    }

    /** `pid_get_output`: the last clamped output. */
    function GetOutput(): (r: real)
      reads this
      ensures Valid() ==> outMin <= r <= outMax
    {
      output
    }
  }

  /** The ratio of two periods in milliseconds is the ratio of the same periods in seconds. */
  lemma PeriodRatio(oldMs: nat, newMs: nat)
    requires oldMs > 0
    ensures newMs as real / oldMs as real == (newMs as real / 1000.0) / (oldMs as real / 1000.0)
  {
  }

  /**
   * An integral gain matched to a period of `oldMs` milliseconds and scaled
   * by `newMs / oldMs` is matched to a period of `newMs` milliseconds.
   */
  lemma RetuneIntegral(direction: U8, dispKi: real, ki: real, oldMs: nat, newMs: nat, ratio: real)
    requires oldMs > 0 && newMs > 0 && ratio == newMs as real / oldMs as real
    requires ki == IntegralGain(direction, dispKi, oldMs as real / 1000.0)
    ensures ki * ratio == IntegralGain(direction, dispKi, newMs as real / 1000.0)
  {
    var oldTs, newTs := oldMs as real / 1000.0, newMs as real / 1000.0;
    PeriodRatio(oldMs, newMs);
    Rescale(dispKi, oldTs, newTs, ratio);
    var g := dispKi * oldTs;
    SignedScale(direction, g, ratio);
  }

  /**
   * A derivative gain matched to a period of `oldMs` milliseconds and
   * divided by `newMs / oldMs` is matched to a period of `newMs` milliseconds.
   */
  lemma RetuneDerivative(direction: U8, dispKd: real, kd: real, oldMs: nat, newMs: nat, ratio: real)
    requires oldMs > 0 && newMs > 0 && ratio == newMs as real / oldMs as real
    requires kd == DerivativeGain(direction, dispKd, oldMs as real / 1000.0)
    ensures kd / ratio == DerivativeGain(direction, dispKd, newMs as real / 1000.0)
  {
    var oldTs, newTs := oldMs as real / 1000.0, newMs as real / 1000.0;
    PeriodRatio(oldMs, newMs);
    Rescale(dispKd, oldTs, newTs, ratio);
    var g := dispKd / oldTs;
    SignedScale(direction, g, ratio);
  }

  /** Scaling a signed gain scales the gain under the same sign. */
  lemma SignedScale(direction: U8, gain: real, ratio: real)
    requires ratio > 0.0
    ensures Signed(direction, gain) * ratio == Signed(direction, gain * ratio)
    ensures Signed(direction, gain) / ratio == Signed(direction, gain / ratio)
  {
  }

  /** Rescaling by `ratio = new/old` turns `x * old` into `x * new` and `x / old` into `x / new`. */
  lemma Rescale(x: real, oldTs: real, newTs: real, ratio: real)
    requires oldTs > 0.0 && newTs > 0.0 && ratio == newTs / oldTs
    ensures x * oldTs * ratio == x * newTs
    ensures x / oldTs / ratio == x / newTs
  {
    assert oldTs * ratio == newTs;
    assert x * oldTs * ratio == x * (oldTs * ratio);
    assert (x / oldTs) / ratio == x / (oldTs * ratio);
  }
}
