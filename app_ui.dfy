/**
 * The UI state machine of `src/app_ui.c`: events from the keys and from the
 * sleep supervisor drive three screens, MAIN, PID_TUNING and PREVIEW. The
 * entry actions switch the heater on (MAIN) or off (PREVIEW), MAIN nudges
 * the setpoint, PID_TUNING nudges one gain at a time, and PREVIEW is left
 * only once power delivery is ready at the requested voltage.
 */
module AppUi {
  import opened Common
  import HeaterController
  import PidController
  import UsbPd

  /** `enum event`. */
  datatype Event = Next | Up | Down | Ok | Back | Home | EnterPreview | Empty

  /** `enum ui_state`, without the `UI_STATE_COUNT` sentinel. */
  datatype UiState = Main | PidTuning | Preview

  /** `enum pid_adj`: the gain PID_TUNING changes. */
  datatype PidAdj = AdjKp | AdjKi | AdjKd

  /** `enum draw_mode`: what the next redraw request asks for. */
  datatype DrawMode = Normal | FullScreen

  /** `UI_STATE_COUNT`. */
  const UI_STATE_COUNT: nat := 3

  /** The largest distance, exclusive, between requested and measured bus voltage. */
  const VOLTAGE_TOLERANCE_MV: int := 2000

  /** The setpoint step of MAIN's UP and DOWN keys, in degrees Celsius. */
  const SETPOINT_STEP: real := 10.0

  /** The position of a state in `enum ui_state`. */
  function StateIndex(s: UiState): (i: nat)
    ensures i < UI_STATE_COUNT
  {
    match s
    case Main => 0
    case PidTuning => 1
    case Preview => 2
  }

  /** The state at a position of `enum ui_state`. */
  function StateAt(i: nat): (s: UiState)
    requires i < UI_STATE_COUNT
    ensures StateIndex(s) == i
  {
    if i == 0 then Main else if i == 1 then PidTuning else Preview
  }

  /** NEXT: `state++`, wrapping from the last state to MAIN. */
  function NextState(s: UiState): (t: UiState)
    ensures StateIndex(t) == (StateIndex(s) + 1) % UI_STATE_COUNT
  {
    var i := StateIndex(s) + 1;
    StateAt(if i >= UI_STATE_COUNT then StateIndex(Main) else i)
  }

  /** BACK as intended: `state--`, wrapping from MAIN to the last state. */
  function BackState(s: UiState): (t: UiState)
    ensures StateIndex(t) == (StateIndex(s) + UI_STATE_COUNT - 1) % UI_STATE_COUNT
  {
    var i := StateIndex(s);
    StateAt(if i == StateIndex(Main) then UI_STATE_COUNT - 1 else i - 1)
  }

  /** NEXT and BACK undo each other, and NEXT visits every state in three steps. */
  lemma NextBackInverse(s: UiState)
    ensures BackState(NextState(s)) == s && NextState(BackState(s)) == s
    ensures NextState(s) != s && NextState(NextState(NextState(s))) == s
  {
    assert StateAt(StateIndex(s)) == s;
  }

  /**
   * BACK as written: the enum has no negative constants, so the compiler
   * gives it an unsigned type, `state--` wraps MAIN to that type's maximum
   * and `state < UI_MAIN` never holds. The type is taken to be 32 bits wide.
   */
  function BackIndexAsWritten(i: U32): (r: U32)
    ensures 0 < i <= UI_STATE_COUNT ==> r == i - 1
    ensures i == StateIndex(Main) ==> r >= UI_STATE_COUNT
  {
    var d := Wrap32(i - 1);
    var last: U32 := UI_STATE_COUNT - 1;
    if d < StateIndex(Main) then last else d
  }

  /** BACK from MAIN as written selects an index past the end of `ui_states`. */
  lemma BackFromMainOverruns()
    ensures BackIndexAsWritten(StateIndex(Main)) == 0xFFFF_FFFF
    ensures BackIndexAsWritten(StateIndex(Main)) >= UI_STATE_COUNT
  {
  }

  /** Everywhere else BACK as written agrees with the intended BACK. */
  lemma BackAsWrittenAgreesAwayFromMain(s: UiState)
    requires s != Main
    ensures BackIndexAsWritten(StateIndex(s)) == StateIndex(BackState(s))
  {
  }

  /** An event after PREVIEW's substitution, and whether a PD hard reset was sent. */
  datatype Arbitrated = Arbitrated(evt: Event, hardReset: bool)

  /**
   * `preview_event`: with power ready and the bus within 2 V of the
   * requested voltage, HOME; with power ready but outside it, a hard reset
   * and no event; without power, no event.
   */
  function PreviewEvent(ready: bool, requestedMv: int, measuredMv: int): (a: Arbitrated)
    ensures a.evt == Home <==> ready && Abs(requestedMv - measuredMv) < VOLTAGE_TOLERANCE_MV
    ensures a.evt != Home ==> a.evt == Empty
    ensures a.hardReset <==> ready && Abs(requestedMv - measuredMv) >= VOLTAGE_TOLERANCE_MV
  {
    if ready then
      if Abs(requestedMv - measuredMv) < VOLTAGE_TOLERANCE_MV then Arbitrated(Home, false)
      else Arbitrated(Empty, true)
    else Arbitrated(Empty, false)
  }

  /** In PREVIEW every event but ENTER_PREVIEW is replaced by `preview_event`'s answer. */
  function Arbitrate(s: UiState, evt: Event, ready: bool, requestedMv: int, measuredMv: int): (a: Arbitrated)
    ensures s != Preview || evt == EnterPreview ==> a == Arbitrated(evt, false)
    ensures s == Preview && evt != EnterPreview ==> a == PreviewEvent(ready, requestedMv, measuredMv)
  {
    if s == Preview && evt != EnterPreview then PreviewEvent(ready, requestedMv, measuredMv)
    else Arbitrated(evt, false)
  }

  /**
   * The screen `app_event_handler` switches to for an arbitrated event, if
   * any. BACK uses the corrected `BackState`, not `BackIndexAsWritten`.
   */
  function Target(s: UiState, e: Event): (t: Option<UiState>)
    ensures t.Some? ==> t.value != s
  {
    match e
    case Next => Some(NextState(s))
    case Back => Some(BackState(s))
    case Home => if s != Main then Some(Main) else None
    case Ok => if s == Main then Some(Preview) else None
    case EnterPreview => if s != Preview then Some(Preview) else None
    case _ => None
  }

  /** The screen after an arbitrated event. */
  function After(s: UiState, e: Event): (t: UiState)
    ensures t == s <==> Target(s, e).None?
  {
    if Target(s, e).Some? then Target(s, e).value else s
  }

  /**
   * The power interlock: PREVIEW is left only for MAIN, and exactly when a
   * non-ENTER_PREVIEW event arrives with power ready and the bus voltage
   * within tolerance.
   */
  lemma PreviewLeftOnlyWhenPowered(evt: Event, ready: bool, requestedMv: int, measuredMv: int)
    ensures var e := Arbitrate(Preview, evt, ready, requestedMv, measuredMv).evt;
      && (After(Preview, e) != Preview
          <==> evt != EnterPreview && ready && Abs(requestedMv - measuredMv) < VOLTAGE_TOLERANCE_MV)
      && (After(Preview, e) == Preview || After(Preview, e) == Main)
  {
  }

  /** The selected gain after OK in PID_TUNING: KP, KI, KD, then KP again. */
  function NextAdj(a: PidAdj): (b: PidAdj)
    ensures b != a
  {
    match a
    case AdjKp => AdjKi
    case AdjKi => AdjKd
    case AdjKd => AdjKp
  }

  /** Three presses of OK come back to the gain that was selected. */
  lemma NextAdjCycles(a: PidAdj)
    ensures NextAdj(NextAdj(NextAdj(a))) == a
  {
  }

  /** The three display gains `pid_tuning_event` hands to `pid_set_tunings`. */
  datatype Gains = Gains(kp: real, ki: real, kd: real)

  /** The step of each gain: 0.1 for KP and KD, 0.01 for KI. */
  function Step(a: PidAdj): real
  {
    if a == AdjKi then 0.01 else 0.1
  }

  /** `pid_tuning_event` on UP or DOWN: only the selected gain moves, by its step. */
  function Nudge(a: PidAdj, e: Event, g: Gains): (n: Gains)
    requires e == Up || e == Down
    ensures a != AdjKp ==> n.kp == g.kp
    ensures a != AdjKi ==> n.ki == g.ki
    ensures a != AdjKd ==> n.kd == g.kd
    ensures e == Up ==> n.kp + n.ki + n.kd == g.kp + g.ki + g.kd + Step(a)
    ensures e == Down ==> n.kp + n.ki + n.kd == g.kp + g.ki + g.kd - Step(a)
  {
    var d := if e == Up then Step(a) else -Step(a);
    match a
    case AdjKp => g.(kp := g.kp + d)
    case AdjKi => g.(ki := g.ki + d)
    case AdjKd => g.(kd := g.kd + d)
  }

  /** `pid_set_tunings` takes gains only when none is negative. */
  predicate Accepted(g: Gains)
  {
    g.kp >= 0.0 && g.ki >= 0.0 && g.kd >= 0.0
  }

  /** A nudge up from accepted gains is accepted, so only DOWN can be refused. */
  lemma NudgeUpAccepted(a: PidAdj, g: Gains)
    requires Accepted(g)
    ensures Accepted(Nudge(a, Up, g))
  {
  }

  /** MAIN's UP and DOWN: the setpoint moves by 10 degrees; every other case keeps it. */
  function SetpointAfter(s: UiState, e: Event, setpoint: real): (r: real)
    ensures s == Main && e == Up ==> r == setpoint + SETPOINT_STEP
    ensures s == Main && e == Down ==> r == setpoint - SETPOINT_STEP
    ensures !(s == Main && (e == Up || e == Down)) ==> r == setpoint
  {
    if s == Main && e == Up then setpoint + SETPOINT_STEP
    else if s == Main && e == Down then setpoint - SETPOINT_STEP
    else setpoint
  }

  /** `struct app`: the current screen, the gain being tuned and the redraw request. */
  class App {
    const ctrl: HeaterController.Controller
    /** `pd_data`: the power-delivery port whose ready flag and requested voltage PREVIEW checks. */
    const pd: UsbPd.Port0Data
    var state: UiState
    var pAdj: PidAdj
    var req: DrawMode

    /** The controller is consistent and the heater is on exactly outside PREVIEW. */
    ghost predicate Valid()
      reads this, ctrl, ctrl.filter, ctrl.filter.history, ctrl.pid
    {
      ctrl.Valid() && (ctrl.heaterOn <==> state != Preview)
    }

    /**
     * `app_init` after `init_tip_controller` has attached the controller:
     * PREVIEW, tuning KP, a normal redraw, and the heater off.
     */
    constructor (ctrl: HeaterController.Controller, pd: UsbPd.Port0Data)
      requires ctrl.Valid() && !ctrl.heaterOn
      ensures Valid()
      ensures this.ctrl == ctrl && this.pd == pd
      ensures state == Preview && pAdj == AdjKp && req == Normal
    {
      this.ctrl := ctrl;
      this.pd := pd;
      state := Preview;
      pAdj := AdjKp;
      req := Normal;
    }

    /**
     * `ui_set_state` and the entry action of the new screen: MAIN switches
     * the heater on, PREVIEW switches it off, PID_TUNING leaves it alone.
     */
    method EnterState(t: UiState)
      modifies this`state, ctrl`heaterOn
      ensures state == t
      ensures t == Main ==> ctrl.heaterOn
      ensures t == Preview ==> !ctrl.heaterOn
      ensures t == PidTuning ==> ctrl.heaterOn == old(ctrl.heaterOn)
    {
      state := t;
      if t == Main {
        ctrl.heaterOn := true;
      } else if t == Preview {
        ctrl.heaterOn := false;
      }
    }

    /** `pid_tuning_event`: OK selects the next gain; UP and DOWN retune with the selected gain nudged. */
    method PidTuningEvent(e: Event)
      requires e == Up || e == Down || e == Ok
      requires ctrl.pid.Valid()
      modifies this`pAdj, ctrl.pid`dispKp, ctrl.pid`dispKi, ctrl.pid`dispKd, ctrl.pid`kp, ctrl.pid`ki, ctrl.pid`kd
      ensures ctrl.pid.Valid()
      ensures e == Ok ==> pAdj == NextAdj(old(pAdj)) && unchanged(ctrl.pid)
      ensures e != Ok ==> pAdj == old(pAdj)
      ensures e != Ok && Accepted(Nudge(pAdj, e, old(Gains(ctrl.pid.dispKp, ctrl.pid.dispKi, ctrl.pid.dispKd)))) ==>
        Gains(ctrl.pid.dispKp, ctrl.pid.dispKi, ctrl.pid.dispKd)
          == Nudge(pAdj, e, old(Gains(ctrl.pid.dispKp, ctrl.pid.dispKi, ctrl.pid.dispKd)))
      ensures e != Ok && !Accepted(Nudge(pAdj, e, old(Gains(ctrl.pid.dispKp, ctrl.pid.dispKi, ctrl.pid.dispKd)))) ==>
        unchanged(ctrl.pid)
      ensures old(ctrl.pid.Tuned()) ==> ctrl.pid.Tuned()
    {
      if e == Ok {
        pAdj := NextAdj(pAdj);
        return;
      }
      var g := Nudge(pAdj, e, Gains(ctrl.pid.GetKp(), ctrl.pid.GetKi(), ctrl.pid.GetKd()));
      ctrl.pid.SetTunings(g.kp, g.ki, g.kd);
    }

    /**
     * The UP, DOWN and OK keys outside PREVIEW that do not change screen:
     * `main_event` moves the setpoint, `pid_tuning_event` the gains.
     */
    method KeyEvent(e: Event)
      requires e == Up || e == Down || e == Ok
      requires Target(state, e).None? && state != Preview
      requires ctrl.pid.Valid()
      modifies this`pAdj, ctrl`setpoint
      modifies ctrl.pid`dispKp, ctrl.pid`dispKi, ctrl.pid`dispKd, ctrl.pid`kp, ctrl.pid`ki, ctrl.pid`kd
      ensures ctrl.pid.Valid()
      ensures ctrl.setpoint == SetpointAfter(state, e, old(ctrl.setpoint))
      ensures pAdj == (if state == PidTuning && e == Ok then NextAdj(old(pAdj)) else old(pAdj))
      ensures !(state == PidTuning && (e == Up || e == Down)) ==> unchanged(ctrl.pid)
      ensures state == PidTuning && (e == Up || e == Down) ==>
        var n := Nudge(pAdj, e, old(Gains(ctrl.pid.dispKp, ctrl.pid.dispKi, ctrl.pid.dispKd)));
        (Accepted(n) ==> Gains(ctrl.pid.dispKp, ctrl.pid.dispKi, ctrl.pid.dispKd) == n)
        && (!Accepted(n) ==> unchanged(ctrl.pid))
      ensures old(ctrl.pid.Tuned()) ==> ctrl.pid.Tuned()
    {
      if state == Main {
        if e == Up {
          ctrl.setpoint := ctrl.setpoint + SETPOINT_STEP;
        } else if e == Down {
          ctrl.setpoint := ctrl.setpoint - SETPOINT_STEP;
        }
      } else {
        PidTuningEvent(e);
      }
    }

    /**
     * `app_event_handler`: arbitrate the event in PREVIEW, then change
     * screen, setpoint, selected gain or gains as the event asks. A screen
     * change, and nothing else, requests a full-screen redraw. The result
     * says whether a PD hard reset was sent.
     */
    method HandleEvent(evt: Event, measuredMv: int) returns (hardReset: bool)
      requires Valid()
      modifies this`state, this`pAdj, this`req, ctrl`setpoint, ctrl`heaterOn
      modifies ctrl.pid`dispKp, ctrl.pid`dispKi, ctrl.pid`dispKd, ctrl.pid`kp, ctrl.pid`ki, ctrl.pid`kd
      ensures Valid()
      ensures hardReset == Arbitrate(old(state), evt, pd.psReady, pd.maxRequestedMv, measuredMv).hardReset
      ensures var e := Arbitrate(old(state), evt, pd.psReady, pd.maxRequestedMv, measuredMv).evt;
        && state == After(old(state), e)
        && (req == FullScreen <==> state != old(state))
        && ctrl.setpoint == SetpointAfter(old(state), e, old(ctrl.setpoint))
        && pAdj == (if old(state) == PidTuning && e == Ok then NextAdj(old(pAdj)) else old(pAdj))
        && (!(old(state) == PidTuning && (e == Up || e == Down)) ==> unchanged(ctrl.pid))
      ensures var e := Arbitrate(old(state), evt, pd.psReady, pd.maxRequestedMv, measuredMv).evt;
        old(state) == PidTuning && (e == Up || e == Down) ==>
          var n := Nudge(old(pAdj), e, old(Gains(ctrl.pid.dispKp, ctrl.pid.dispKi, ctrl.pid.dispKd)));
          (Accepted(n) ==> Gains(ctrl.pid.dispKp, ctrl.pid.dispKi, ctrl.pid.dispKd) == n)
          && (!Accepted(n) ==> unchanged(ctrl.pid))
      ensures old(ctrl.pid.Tuned()) ==> ctrl.pid.Tuned()
    {
      req := Normal;
      var a := Arbitrate(state, evt, pd.psReady, pd.maxRequestedMv, measuredMv);
      hardReset := a.hardReset;
      var t := Target(state, a.evt);
      if t.Some? {
        EnterState(t.value);
        req := FullScreen;
      } else if a.evt == Up || a.evt == Down || a.evt == Ok {
        if state != Preview {
          KeyEvent(a.evt);
        }
      }
    }
  }
}
