/**
 * The posture supervisor of `src/sleep_detection.c`: each accelerometer
 * sample either keeps the handle "still" (lying down, not shaken), which
 * runs a timer on the 32-bit millisecond uptime, or not, which resets it.
 * Five seconds of stillness put the tip to sleep; ten minutes also send the
 * UI to PREVIEW, which switches the heater off. A failed sensor read skips
 * the sample.
 */
module SleepDetection {
  import opened Common
  import AppUi

  /** `SLEEP_TIMEOUT`, ms. */
  const SLEEP_TIMEOUT: nat := 5000

  /** `STOP_TIMEOUT`, ms: ten minutes. */
  const STOP_TIMEOUT: nat := 1000 * 10 * 60

  /**
   * One pass of the thread loop. A still sample carries the two uptime
   * readings the loop may take: `startNow` when the timer is not running,
   * and `now` for the elapsed time.
   */
  datatype PostureSample = ReadFailed | Moving | Still(startNow: U32, now: U32)

  /** The supervisor's state: the static `sleep_timer_start` and the controller's `is_sleeping`. */
  datatype Posture = Posture(timerStart: U32, sleeping: bool)

  /** The outcome of one sample: the new posture and whether ENTER_PREVIEW is raised. */
  datatype Outcome = Outcome(posture: Posture, enterPreview: bool)

  /** `time_diff`: uptime subtraction in `uint32_t`, correct across the 49-day wrap. */
  function Elapsed(start: U32, now: U32): (d: U32)
    ensures start <= now ==> d == now - start
    ensures now < start ==> d == now + U32_MODULUS - start
  {
    Wrap32(now - start)
  }

  /** The per-sample decision of `posture_detection_thread`. */
  function Decide(p: Posture, s: PostureSample): (o: Outcome)
    ensures o.enterPreview ==> s.Still? && o.posture.sleeping
    ensures s.Still? && p.timerStart != 0 ==> o.posture.timerStart == p.timerStart
    ensures s.Moving? ==> o.posture.timerStart == 0 && !o.posture.sleeping
  {
    match s
    case ReadFailed => Outcome(p, false)
    case Moving => Outcome(Posture(0, false), false)
    case Still(startNow, now) =>
      var start := if p.timerStart == 0 then startNow else p.timerStart;
      var d := Elapsed(start, now);
      if start > 0 && d >= STOP_TIMEOUT then Outcome(Posture(start, true), true)
      else if start > 0 && d >= SLEEP_TIMEOUT then Outcome(Posture(start, true), false)
      else Outcome(Posture(start, p.sleeping), false)
  }

  /** A failed read changes nothing and raises nothing. */
  lemma FailedReadSkips(p: Posture)
    ensures Decide(p, ReadFailed) == Outcome(p, false)
  {
  }

  /** A moving sample stops the timer and wakes the tip. */
  lemma MovingResets(p: Posture)
    ensures Decide(p, Moving) == Outcome(Posture(0, false), false)
  {
  }

  /**
   * A still sample keeps a running timer and starts a stopped one at the
   * uptime read then; it sleeps once 5 s have passed, raises ENTER_PREVIEW
   * (and sleeps) once 10 min have passed, and leaves the sleep flag alone
   * before 5 s.
   */
  lemma StillSample(p: Posture, startNow: U32, now: U32)
    ensures var o := Decide(p, Still(startNow, now));
      var start := o.posture.timerStart;
      && (p.timerStart != 0 ==> start == p.timerStart)
      && (p.timerStart == 0 ==> start == startNow)
      && (o.enterPreview <==> start > 0 && Elapsed(start, now) >= STOP_TIMEOUT)
      && (start > 0 && Elapsed(start, now) >= SLEEP_TIMEOUT ==> o.posture.sleeping)
      && (start == 0 || Elapsed(start, now) < SLEEP_TIMEOUT ==> o.posture.sleeping == p.sleeping)
  {
  }

  /** Raising ENTER_PREVIEW always comes with sleeping. */
  lemma PreviewImpliesSleeping(p: Posture, s: PostureSample)
    ensures Decide(p, s).enterPreview ==> Decide(p, s).posture.sleeping
  {
  }

  /** The posture after a run of samples, in order. */
  function Run(p: Posture, samples: seq<PostureSample>): Posture
    decreases |samples|
  {
    if |samples| == 0 then p
    else Decide(Run(p, samples[..|samples| - 1]), samples[|samples| - 1]).posture
  }

  /** No moving sample in a run. */
  predicate Undisturbed(samples: seq<PostureSample>)
  {
    forall i :: 0 <= i < |samples| ==> !samples[i].Moving?
  }

  /**
   * Once running, the timer keeps its start through any run of still
   * samples and failed reads, and the sleep flag is never cleared.
   */
  lemma {:induction false} TimerHeldWhileStill(p: Posture, samples: seq<PostureSample>)
    requires p.timerStart > 0 && Undisturbed(samples)
    ensures Run(p, samples).timerStart == p.timerStart
    ensures p.sleeping ==> Run(p, samples).sleeping
    decreases |samples|
  {
    if |samples| > 0 {
      var init := samples[..|samples| - 1];
      assert Undisturbed(init) by {
        forall i | 0 <= i < |init| ensures !init[i].Moving? {
          assert init[i] == samples[i];
        }
      }
      TimerHeldWhileStill(p, init);
    }
  }

  /**
   * A run that starts with the timer running and ends with a still sample
   * 5 s or more after it started ends asleep.
   */
  lemma SleepsAfterTimeout(p: Posture, samples: seq<PostureSample>, startNow: U32, now: U32)
    requires p.timerStart > 0 && Undisturbed(samples)
    requires Elapsed(p.timerStart, now) >= SLEEP_TIMEOUT
    ensures Run(p, samples + [Still(startNow, now)]).sleeping
  {
    TimerHeldWhileStill(p, samples);
    assert (samples + [Still(startNow, now)])[..|samples|] == samples;
  }

  /** The supervisor thread's state, bound to the application it reports to. */
  class Supervisor {
    var sleepTimerStart: U32
    const app: AppUi.App

    /** `sleep_detection_init`: the timer is stopped. */
    constructor (app: AppUi.App)
      ensures this.app == app && sleepTimerStart == 0
    {
      this.app := app;
      sleepTimerStart := 0;
    }

    /**
     * One iteration of `posture_detection_thread`: update the timer and the
     * controller's sleep flag, and on a ten-minute stillness send
     * ENTER_PREVIEW to the UI, which switches the heater off.
     */
    method Step(s: PostureSample)
      requires app.Valid()
      modifies this`sleepTimerStart, app.ctrl`isSleeping
      modifies app`state, app`pAdj, app`req, app.ctrl`setpoint, app.ctrl`heaterOn
      modifies app.ctrl.pid`dispKp, app.ctrl.pid`dispKi, app.ctrl.pid`dispKd
      modifies app.ctrl.pid`kp, app.ctrl.pid`ki, app.ctrl.pid`kd
      ensures app.Valid()
      ensures var o := Decide(old(Posture(sleepTimerStart, app.ctrl.isSleeping)), s);
        && sleepTimerStart == o.posture.timerStart
        && app.ctrl.isSleeping == o.posture.sleeping
        && (o.enterPreview ==> app.state == AppUi.Preview && !app.ctrl.heaterOn
                               && (app.req == AppUi.FullScreen <==> old(app.state) != AppUi.Preview)
                               && app.ctrl.setpoint == old(app.ctrl.setpoint)
                               && app.pAdj == old(app.pAdj)
                               && unchanged(app.ctrl.pid))
        && (!o.enterPreview ==> unchanged(app, app.ctrl.pid)
                                && app.ctrl.heaterOn == old(app.ctrl.heaterOn)
                                && app.ctrl.setpoint == old(app.ctrl.setpoint))
    {
      ghost var o := Decide(Posture(sleepTimerStart, app.ctrl.isSleeping), s);
      match s {
        case ReadFailed =>
        case Moving =>
          sleepTimerStart := 0;
          if app.ctrl.isSleeping {
            app.ctrl.isSleeping := false;
          }
        case Still(startNow, now) =>
          ghost var sleeping := app.ctrl.isSleeping;
          if sleepTimerStart == 0 {
            sleepTimerStart := startNow;
          }
          var timeDiff := Wrap32(now - sleepTimerStart);
          assert timeDiff == Elapsed(sleepTimerStart, now);
          if sleepTimerStart > 0 && timeDiff >= STOP_TIMEOUT {
            assert o == Outcome(Posture(sleepTimerStart, true), true);
            app.ctrl.isSleeping := true;
            var _ := app.HandleEvent(AppUi.EnterPreview, 0);
          } else if sleepTimerStart > 0 && timeDiff >= SLEEP_TIMEOUT {
            assert o == Outcome(Posture(sleepTimerStart, true), false);
            app.ctrl.isSleeping := true;
          } else {
            assert o == Outcome(Posture(sleepTimerStart, sleeping), false);
          }
      }
    }
  }
}
