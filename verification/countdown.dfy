/**
 The work/break countdown controller of the timer page: the closure state it
 keeps, the helpers that rewrite it, and a total transition function over the
 events the page delivers (interval callbacks, button clicks, duration
 choices). Interval callbacks are explicit `Tick` events; sound, tips and
 purely cosmetic styling are not part of the state.
 */
module Countdown {
  import opened TimeFormat
  import opened ButtonStyle

  datatype Phase = Work | Break

  /** What the `timer` variable holds: no interval id, or the id of an
      interval whose callback counts down the given phase. */
  datatype Interval = Disarmed | Armed(phase: Phase)

  /** The controller's state. `orphanedIntervals` counts intervals that were
      started while `timer` still held a live one: their id was overwritten,
      so no `clearInterval` can stop them. */
  datatype State = State(
    workTime: int,
    breakTime: int,
    selectedWorkTime: nat,
    selectedBreakTime: nat,
    isWork: bool,
    isPaused: bool,
    timer: Interval,
    orphanedIntervals: nat,
    workButton: Button,
    breakButton: Button,
    workDisplay: string,
    breakDisplay: string)

  datatype Event =
    | Tick                      // the callback of the interval in `timer` fires
    | ClickWork                 // the work start/pause button is clicked
    | ClickBreak                // the break start/pause button is clicked
    | Reset                     // the reset button is clicked
    | SelectWork(minutes: nat)  // a work duration button is clicked
    | SelectBreak(minutes: nat) // a break duration button is clicked

  const DefaultWorkTime: nat := 25 * 60
  const DefaultBreakTime: nat := 5 * 60

  function Other(p: Phase): Phase {
    if p == Work then Break else Work
  }

  function Remaining(s: State, p: Phase): int {
    if p == Work then s.workTime else s.breakTime
  }

  function Selected(s: State, p: Phase): nat {
    if p == Work then s.selectedWorkTime else s.selectedBreakTime
  }

  function ButtonOf(s: State, p: Phase): Button {
    if p == Work then s.workButton else s.breakButton
  }

  function DisplayOf(s: State, p: Phase): string {
    if p == Work then s.workDisplay else s.breakDisplay
  }

  /** Number of intervals whose callbacks are still scheduled. */
  function LiveIntervals(s: State): nat {
    s.orphanedIntervals + (if s.timer.Armed? then 1 else 0)
  }

  /** `updateTimerDisplay(t, p)`: writes the `m:ss` text of `t` to the
      display of phase `p`. */
  function ShowTime(s: State, t: nat, p: Phase): (r: State)
    ensures DisplayOf(r, p) == Format(t) && DisplayOf(r, Other(p)) == DisplayOf(s, Other(p))
    ensures r == s.(workDisplay := r.workDisplay, breakDisplay := r.breakDisplay)
  {
    if p == Work then s.(workDisplay := Format(t)) else s.(breakDisplay := Format(t))
  }

  /** `clearInterval(timer); timer = null`: stops the interval `timer` holds,
      and only that one. */
  function ClearTimer(s: State): (r: State)
    ensures r.timer == Disarmed
    ensures LiveIntervals(r) == s.orphanedIntervals
  {
    s.(timer := Disarmed)
  }

  /** `timer = setInterval(...)`: schedules a new interval for `p` without
      stopping the one `timer` held, which thereby becomes unreachable. */
  function SetInterval(s: State, p: Phase): (r: State)
    ensures r.timer == Armed(p)
    ensures LiveIntervals(r) == LiveIntervals(s) + 1
  {
    s.(timer := Armed(p),
       orphanedIntervals := s.orphanedIntervals + (if s.timer.Armed? then 1 else 0))
  }

  /** `startTimer(p)`: the started phase's button reads "Pause", the other's
      "Start"; an interval for `p` is scheduled and the controller is no
      longer paused. Starting work also enables the break button. */
  function StartTimer(s: State, p: Phase): (r: State)
    ensures r.timer == Armed(p) && !r.isPaused && r.isWork == (p == Work)
    ensures ButtonOf(r, p).text == "Pause" && ButtonOf(r, Other(p)).text == "Start"
    ensures PauseColor in ButtonOf(r, p).classes && StartColor in ButtonOf(r, Other(p)).classes
    ensures p == Work ==> !r.breakButton.disabled
    ensures p == Break ==> r.breakButton.disabled == s.breakButton.disabled
    ensures r.workButton.disabled == s.workButton.disabled
    ensures LiveIntervals(r) == LiveIntervals(s) + 1
    ensures r.workTime == s.workTime && r.breakTime == s.breakTime
    ensures r.selectedWorkTime == s.selectedWorkTime && r.selectedBreakTime == s.selectedBreakTime
    ensures r.workDisplay == s.workDisplay && r.breakDisplay == s.breakDisplay
  {
    match p
    case Work =>
      var s1 := s.(workButton := UpdateButton(s.workButton, "Pause", PauseColor),
                   breakButton := UpdateButton(s.breakButton, "Start", StartColor),
                   isWork := true);
      var s2 := SetInterval(s1, Work);
      s2.(breakButton := s2.breakButton.(disabled := false), isPaused := false)
    case Break =>
      var s1 := s.(breakButton := UpdateButton(s.breakButton, "Pause", PauseColor),
                   workButton := UpdateButton(s.workButton, "Start", StartColor),
                   isWork := false);
      SetInterval(s1, Break).(isPaused := false)
  }

  /** `stopTimer(p)`: whatever interval `timer` holds is stopped, the button
      of `p` (not necessarily the running phase) reads "Start" again and the
      controller is paused. */
  function StopTimer(s: State, p: Phase): (r: State)
    ensures r.timer == Disarmed && r.isPaused
    ensures ButtonOf(r, p).text == "Start" && StartColor in ButtonOf(r, p).classes
    ensures ButtonOf(r, p).disabled == ButtonOf(s, p).disabled
    ensures ButtonOf(r, Other(p)) == ButtonOf(s, Other(p))
    ensures LiveIntervals(r) == s.orphanedIntervals
    ensures r.isWork == s.isWork
    ensures r.workTime == s.workTime && r.breakTime == s.breakTime
    ensures r.selectedWorkTime == s.selectedWorkTime && r.selectedBreakTime == s.selectedBreakTime
    ensures r.workDisplay == s.workDisplay && r.breakDisplay == s.breakDisplay
  {
    var s1 := ClearTimer(s);
    var s2 := if p == Work
              then s1.(workButton := UpdateButton(s1.workButton, "Start", StartColor))
              else s1.(breakButton := UpdateButton(s1.breakButton, "Start", StartColor));
    s2.(isPaused := true)
  }

  /** `startBreak()`: enables the break button, then starts the break. */
  function StartBreak(s: State): (r: State)
    ensures r.timer == Armed(Break) && !r.isPaused && !r.isWork
    ensures !r.breakButton.disabled
    ensures r.breakButton.text == "Pause" && r.workButton.text == "Start"
    ensures PauseColor in r.breakButton.classes && StartColor in r.workButton.classes
    ensures r.workButton.disabled == s.workButton.disabled
    ensures LiveIntervals(r) == LiveIntervals(s) + 1
    ensures r.workTime == s.workTime && r.breakTime == s.breakTime
    ensures r.selectedWorkTime == s.selectedWorkTime && r.selectedBreakTime == s.selectedBreakTime
    ensures r.workDisplay == s.workDisplay && r.breakDisplay == s.breakDisplay
  {
    StartTimer(s.(breakButton := s.breakButton.(disabled := false)), Break)
  }

  /** `resetTimers()`: both remaining times go back to the chosen durations,
      the interval is stopped, both buttons read "Start", the break button is
      disabled and the controller is back in its unpaused work state. */
  function ResetTimers(s: State): (r: State)
    ensures r.workTime == s.selectedWorkTime && r.breakTime == s.selectedBreakTime
    ensures r.selectedWorkTime == s.selectedWorkTime && r.selectedBreakTime == s.selectedBreakTime
    ensures r.timer == Disarmed && LiveIntervals(r) == s.orphanedIntervals
    ensures !r.isPaused && r.isWork
    ensures r.workButton.text == "Start" && r.breakButton.text == "Start"
    ensures r.breakButton.disabled && r.workButton.disabled == s.workButton.disabled
    ensures r.workDisplay == Format(s.selectedWorkTime) && r.breakDisplay == Format(s.selectedBreakTime)
  {
    var s1 := ClearTimer(s.(workTime := s.selectedWorkTime, breakTime := s.selectedBreakTime));
    var s2 := ShowTime(ShowTime(s1, s.selectedWorkTime, Work), s.selectedBreakTime, Break);
    s2.(workButton := UpdateButton(s2.workButton, "Start", StartColor),
        breakButton := UpdateButton(s2.breakButton, "Start", StartColor).(disabled := true),
        isPaused := false,
        isWork := true)
  }

  /** The callback of the interval `timer` holds. While the phase has time
      left it counts down one second; at zero it stops its own interval and
      starts the other phase (work via `startBreak`, break directly). The
      finished phase's time is left at zero. */
  function TickTimer(s: State): (r: State)
    ensures r.selectedWorkTime == s.selectedWorkTime && r.selectedBreakTime == s.selectedBreakTime
    ensures r.workButton.disabled == s.workButton.disabled
    ensures s.workTime >= 0 && s.breakTime >= 0 ==> r.workTime >= 0 && r.breakTime >= 0
  {
    match s.timer
    case Disarmed => s
    case Armed(Work) =>
      if s.workTime > 0 then ShowTime(s.(workTime := s.workTime - 1), s.workTime - 1, Work)
      else StartBreak(ClearTimer(s))
    case Armed(Break) =>
      if s.breakTime > 0 then ShowTime(s.(breakTime := s.breakTime - 1), s.breakTime - 1, Break)
      else StartTimer(ClearTimer(s), Work)
  }

  /** The click handler of phase `p`'s start/pause button. A disabled button
      delivers no click. */
  function Click(s: State, p: Phase): (r: State)
    ensures r.workTime == s.workTime && r.breakTime == s.breakTime
    ensures r.selectedWorkTime == s.selectedWorkTime && r.selectedBreakTime == s.selectedBreakTime
    ensures r.workDisplay == s.workDisplay && r.breakDisplay == s.breakDisplay
    ensures r.workButton.disabled == s.workButton.disabled
  {
    if ButtonOf(s, p).disabled then s
    else if s.isPaused || s.timer.Disarmed? then StartTimer(s, p)
    else StopTimer(s, p)
  }

  /** A duration button of phase `p`: the chosen duration and the remaining
      time both become `minutes` minutes, whether or not `p` is running. */
  function Select(s: State, p: Phase, minutes: nat): (r: State)
    ensures r.timer == s.timer && r.orphanedIntervals == s.orphanedIntervals
    ensures r.isPaused == s.isPaused && r.isWork == s.isWork
    ensures r.workButton == s.workButton && r.breakButton == s.breakButton
    ensures Selected(r, Other(p)) == Selected(s, Other(p))
    ensures Remaining(r, Other(p)) == Remaining(s, Other(p))
  {
    var t := minutes * 60;
    if p == Work then ShowTime(s.(selectedWorkTime := t, workTime := t), t, Work)
    else ShowTime(s.(selectedBreakTime := t, breakTime := t), t, Break)
  }

  /** One event. Only a duration button changes a chosen duration, and no
      event changes the work button's disabled flag. */
  function Step(s: State, e: Event): (r: State)
    ensures r.workButton.disabled == s.workButton.disabled
    ensures !e.SelectWork? && !e.SelectBreak? ==>
              r.selectedWorkTime == s.selectedWorkTime && r.selectedBreakTime == s.selectedBreakTime
  {
    match e
    case Tick => TickTimer(s)
    case ClickWork => Click(s, Work)
    case ClickBreak => Click(s, Break)
    case Reset => ResetTimers(s)
    case SelectWork(m) => Select(s, Work, m)
    case SelectBreak(m) => Select(s, Break, m)
  }

  /** The state after a sequence of events. */
  function Run(s: State, events: seq<Event>): (r: State)
    ensures r.workButton.disabled == s.workButton.disabled
    ensures (forall i :: 0 <= i < |events| ==> !events[i].SelectWork? && !events[i].SelectBreak?) ==>
              r.selectedWorkTime == s.selectedWorkTime && r.selectedBreakTime == s.selectedBreakTime
    decreases |events|
  {
    if |events| == 0 then s else Run(Step(s, events[0]), events[1..])
  }

  /** `initializeApp()` applied to the page's initial variables: 25 and 5
      minutes, no interval, both buttons reading "Start" and the break button
      disabled. The buttons' classes and the work button's disabled flag come
      from the page markup and are parameters. */
  function Init(workButton: Button, breakButton: Button): (r: State)
    ensures r.workTime == r.selectedWorkTime == DefaultWorkTime
    ensures r.breakTime == r.selectedBreakTime == DefaultBreakTime
    ensures r.timer == Disarmed && LiveIntervals(r) == 0
    ensures r.isWork && !r.isPaused
    ensures r.workButton.text == "Start" && r.breakButton.text == "Start"
    ensures r.breakButton.disabled && r.workButton.disabled == workButton.disabled
    ensures r.workDisplay == Format(DefaultWorkTime) && r.breakDisplay == Format(DefaultBreakTime)
  {
    var s := State(DefaultWorkTime, DefaultBreakTime, DefaultWorkTime, DefaultBreakTime,
                   true, false, Disarmed, 0, workButton, breakButton, "", "");
    var s1 := ShowTime(ShowTime(s, DefaultWorkTime, Work), DefaultBreakTime, Break);
    s1.(workButton := UpdateButton(s1.workButton, "Start", StartColor),
        breakButton := UpdateButton(s1.breakButton, "Start", StartColor).(disabled := true))
  }
}
