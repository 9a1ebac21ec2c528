/**
 What the countdown controller guarantees: the invariant every reachable
 state keeps (at most one live interval, non-negative remaining times,
 displays in step with the times, buttons in step with the running phase),
 and the effect of each event on a state that satisfies it.
 */
module CountdownProperties {
  import opened TimeFormat
  import opened ButtonStyle
  import opened Countdown

  /** The invariant of every state reachable from page load. */
  predicate Inv(s: State) {
    // remaining times never go negative, and the displays show them
    && s.workTime >= 0 && s.breakTime >= 0
    && s.workDisplay == Format(s.workTime) && s.breakDisplay == Format(s.breakTime)
    // no interval is ever orphaned, so at most one countdown runs
    && s.orphanedIntervals == 0
    // a paused controller has no interval
    && (s.isPaused ==> s.timer.Disarmed?)
    // the running interval's phase is the one `isWork` names, and its button reads "Pause"
    && (s.timer.Armed? ==>
          && s.isWork == (s.timer.phase == Work)
          && ButtonOf(s, s.timer.phase).text == "Pause"
          && ButtonOf(s, Other(s.timer.phase)).text == "Start")
    // the break button is disabled only in the idle work state of page load and reset
    && (s.breakButton.disabled ==> s.timer.Disarmed? && s.isWork && !s.isPaused)
  }

  /** Page load establishes the invariant, whatever the markup's buttons. */
  lemma InitSatisfiesInv(workButton: Button, breakButton: Button)
    ensures Inv(Init(workButton, breakButton))
  {
  }

  lemma WorkCountDownPreservesInv(s: State)
    requires Inv(s) && s.timer == Armed(Work) && s.workTime > 0
    ensures Inv(TickTimer(s))
  {
    TickCountsDown(s, Work);
    var r := TickTimer(s);
    assert r.workDisplay == Format(r.workTime);
    assert r.timer == s.timer && r.isPaused == s.isPaused && r.isWork == s.isWork;
    assert r.workButton == s.workButton && r.breakButton == s.breakButton;
    assert r.orphanedIntervals == 0;
  }

  lemma BreakCountDownPreservesInv(s: State)
    requires Inv(s) && s.timer == Armed(Break) && s.breakTime > 0
    ensures Inv(TickTimer(s))
  {
    TickCountsDown(s, Break);
    var r := TickTimer(s);
    assert r.breakDisplay == Format(r.breakTime);
    assert r.timer == s.timer && r.isPaused == s.isPaused && r.isWork == s.isWork;
    assert r.workButton == s.workButton && r.breakButton == s.breakButton;
    assert r.orphanedIntervals == 0;
  }

  lemma WorkDonePreservesInv(s: State)
    requires Inv(s) && s.timer == Armed(Work) && s.workTime == 0
    ensures Inv(TickTimer(s))
  {
    var c := ClearTimer(s);
    var r := StartBreak(c);
    assert TickTimer(s) == r;
    assert LiveIntervals(r) == 1;
  }

  lemma BreakDonePreservesInv(s: State)
    requires Inv(s) && s.timer == Armed(Break) && s.breakTime == 0
    ensures Inv(TickTimer(s))
  {
    var c := ClearTimer(s);
    var r := StartTimer(c, Work);
    assert TickTimer(s) == r;
    assert LiveIntervals(r) == 1;
  }

  lemma TickPreservesInv(s: State)
    requires Inv(s)
    ensures Inv(TickTimer(s))
  {
    match s.timer
    case Disarmed =>
    case Armed(p) =>
      if p == Work && s.workTime > 0 {
        WorkCountDownPreservesInv(s);
      } else if p == Break && s.breakTime > 0 {
        BreakCountDownPreservesInv(s);
      } else if p == Work {
        WorkDonePreservesInv(s);
      } else {
        BreakDonePreservesInv(s);
      }
  }

  lemma ClickPreservesInv(s: State, p: Phase)
    requires Inv(s)
    ensures Inv(Click(s, p))
  {
    if !ButtonOf(s, p).disabled && !(s.isPaused || s.timer.Disarmed?) {
      var r := StopTimer(s, p);
      assert r.timer == Disarmed && r.isPaused;
    }
  }

  lemma SelectPreservesInv(s: State, p: Phase, m: nat)
    requires Inv(s)
    ensures Inv(Select(s, p, m))
  {
  }

  /** Every event preserves the invariant. */
  lemma StepPreservesInv(s: State, e: Event)
    requires Inv(s)
    ensures Inv(Step(s, e))
  {
    match e
    case Tick => TickPreservesInv(s);
    case ClickWork => ClickPreservesInv(s, Work);
    case ClickBreak => ClickPreservesInv(s, Break);
    case Reset =>
    case SelectWork(m) => SelectPreservesInv(s, Work, m);
    case SelectBreak(m) => SelectPreservesInv(s, Break, m);
  }

  lemma {:induction false} RunPreservesInv(s: State, events: seq<Event>)
    requires Inv(s)
    ensures Inv(Run(s, events))
    decreases |events|
  {
    if |events| > 0 {
      StepPreservesInv(s, events[0]);
      RunPreservesInv(Step(s, events[0]), events[1..]);
    }
  }

  /** Whatever the user clicks and however many ticks elapse, the invariant
      holds: at most one interval is ever live, and a paused controller has
      none. */
  lemma ReachableInv(workButton: Button, breakButton: Button, events: seq<Event>)
    ensures Inv(Run(Init(workButton, breakButton), events))
    ensures LiveIntervals(Run(Init(workButton, breakButton), events)) <= 1
    ensures Run(Init(workButton, breakButton), events).isPaused ==>
              LiveIntervals(Run(Init(workButton, breakButton), events)) == 0
  {
    InitSatisfiesInv(workButton, breakButton);
    RunPreservesInv(Init(workButton, breakButton), events);
  }

  /** In every reachable state the remaining times are non-negative and each
      display reads back as its remaining time. */
  lemma ReachableDisplays(workButton: Button, breakButton: Button, events: seq<Event>)
    ensures var s := Run(Init(workButton, breakButton), events);
            && s.workTime >= 0 && s.breakTime >= 0
            && Parse(s.workDisplay) == Some(s.workTime as nat)
            && Parse(s.breakDisplay) == Some(s.breakTime as nat)
  {
    ReachableInv(workButton, breakButton, events);
    var s := Run(Init(workButton, breakButton), events);
    ParseFormat(s.workTime);
    ParseFormat(s.breakTime);
  }

  /** A click only ever calls `startTimer` when no interval is live, so the
      `setInterval` inside it never overwrites a live id. */
  lemma StartOnlyWhenDisarmed(s: State, p: Phase)
    requires Inv(s)
    requires s.isPaused || s.timer.Disarmed?
    ensures s.timer.Disarmed? && LiveIntervals(s) == 0
    ensures LiveIntervals(Click(s, p)) <= 1
  {
  }

  // ---------------------------------------------------------------------
  // Tick

  /** A tick while phase `p` has time left counts it down by exactly one
      second and touches nothing but that time and its display. */
  lemma TickCountsDown(s: State, p: Phase)
    requires s.timer == Armed(p) && Remaining(s, p) > 0
    ensures var r := Step(s, Tick);
            && Remaining(r, p) == Remaining(s, p) - 1
            && DisplayOf(r, p) == Format(Remaining(s, p) - 1)
            && (p == Work ==> r == s.(workTime := r.workTime, workDisplay := r.workDisplay))
            && (p == Break ==> r == s.(breakTime := r.breakTime, breakDisplay := r.breakDisplay))
  {
    if p == Work {
      assert Step(s, Tick) == s.(workTime := s.workTime - 1, workDisplay := Format(s.workTime - 1));
    } else {
      assert Step(s, Tick) == s.(breakTime := s.breakTime - 1, breakDisplay := Format(s.breakTime - 1));
    }
  }

  /** A tick when phase `p` has reached zero stops its interval and starts
      the other phase. The finished phase stays at zero, the other phase
      resumes from whatever it had left, and exactly one interval is live. */
  lemma TickCompletesPhase(s: State, p: Phase)
    requires Inv(s) && s.timer == Armed(p) && Remaining(s, p) == 0
    ensures var r := Step(s, Tick);
            && r.timer == Armed(Other(p))
            && LiveIntervals(r) == 1
            && !r.isPaused
            && r.isWork == (p == Break)
            && ButtonOf(r, Other(p)).text == "Pause" && ButtonOf(r, p).text == "Start"
            && !r.breakButton.disabled
            && Remaining(r, p) == 0
            && Remaining(r, Other(p)) == Remaining(s, Other(p))
            && r.selectedWorkTime == s.selectedWorkTime && r.selectedBreakTime == s.selectedBreakTime
  {
  }

  /** With no interval there is no callback: a tick changes nothing. */
  lemma TickWithoutInterval(s: State)
    requires s.timer.Disarmed?
    ensures Step(s, Tick) == s
  {
  }

  /** Since a finished phase keeps zero remaining time, once both phases
      have run out each later tick flips to the other phase: the next work
      period lasts a single tick. */
  lemma FinishedPhasesAlternateEachTick(s: State)
    requires Inv(s) && s.timer == Armed(Break) && s.breakTime == 0 && s.workTime == 0
    ensures Step(s, Tick).timer == Armed(Work)
    ensures Step(Step(s, Tick), Tick).timer == Armed(Break)
    ensures Step(Step(s, Tick), Tick).workTime == 0
    ensures Step(Step(s, Tick), Tick).breakTime == 0
  {
    var r := Step(s, Tick);
    TickCompletesPhase(s, Break);
    TickCompletesPhase(r, Work);
  }

  // ---------------------------------------------------------------------
  // Start/pause buttons

  /** Clicking an enabled button while paused or with no interval starts
      that phase. */
  lemma ClickStarts(s: State, p: Phase)
    requires Inv(s) && !ButtonOf(s, p).disabled
    requires s.isPaused || s.timer.Disarmed?
    ensures var r := Click(s, p);
            && r.timer == Armed(p) && LiveIntervals(r) == 1
            && !r.isPaused && r.isWork == (p == Work)
            && ButtonOf(r, p).text == "Pause" && ButtonOf(r, Other(p)).text == "Start"
            && Remaining(r, Work) == Remaining(s, Work) && Remaining(r, Break) == Remaining(s, Break)
  {
  }

  /** Otherwise, clicking either button stops the running interval and
      pauses; only the clicked button is relabelled. */
  lemma ClickStops(s: State, p: Phase)
    requires Inv(s) && !ButtonOf(s, p).disabled
    requires !s.isPaused && s.timer.Armed?
    ensures var r := Click(s, p);
            && r.timer == Disarmed && LiveIntervals(r) == 0
            && r.isPaused && r.isWork == s.isWork
            && ButtonOf(r, p).text == "Start"
            && ButtonOf(r, Other(p)) == ButtonOf(s, Other(p))
            && Remaining(r, Work) == Remaining(s, Work) && Remaining(r, Break) == Remaining(s, Break)
  {
  }

  /** Clicking the idle phase's button while the other phase runs does not
      start it: the running phase is paused instead, its button still reads
      "Pause", and its own button resumes it where it stopped. */
  lemma ClickOtherPhasePausesRunning(s: State, p: Phase)
    requires Inv(s) && s.timer == Armed(Other(p))
    requires !s.workButton.disabled  // as in the page markup
    ensures var r := Click(s, p);
            && r.timer == Disarmed && r.isPaused
            && r.isWork == (Other(p) == Work)
            && ButtonOf(r, Other(p)).text == "Pause"
    ensures var r := Click(Click(s, p), Other(p));
            && r.timer == Armed(Other(p))
            && Remaining(r, Other(p)) == Remaining(s, Other(p))
  {
    var r1 := Click(s, p);
    assert r1 == StopTimer(s, p);
    assert ButtonOf(r1, Other(p)) == ButtonOf(s, Other(p));
    assert !ButtonOf(s, p).disabled && !ButtonOf(s, Other(p)).disabled;
    assert Click(r1, Other(p)) == StartTimer(r1, Other(p));
  }

  /** A disabled button delivers no click. */
  lemma DisabledClickIgnored(s: State, p: Phase)
    requires ButtonOf(s, p).disabled
    ensures Click(s, p) == s
  {
  }

  // ---------------------------------------------------------------------
  // Reset

  /** Reset from any state at all, even one outside the invariant: both
      remaining times are the chosen durations, nothing the controller can
      reach is live, and the controller is in its unpaused work state. */
  lemma ResetFromAnyState(s: State)
    ensures var r := Step(s, Reset);
            && r.workTime == s.selectedWorkTime && r.breakTime == s.selectedBreakTime
            && r.timer == Disarmed && !r.isPaused && r.isWork
            && r.workButton.text == "Start" && r.breakButton.text == "Start"
            && r.breakButton.disabled
            && (s.orphanedIntervals == 0 ==> Inv(r))
  {
  }

  lemma ResetIdempotent(s: State)
    ensures Step(Step(s, Reset), Reset) == Step(s, Reset)
  {
    UpdateButtonColorIdempotent(s.workButton.classes, StartColor);
    UpdateButtonColorIdempotent(s.breakButton.classes, StartColor);
  }

  // ---------------------------------------------------------------------
  // Duration selection

  /** Choosing `m` minutes for phase `p` sets both its chosen duration and
      its remaining time, even while `p` is counting down; the other phase,
      the interval, the pause flag and the buttons are untouched. */
  lemma SelectSetsDuration(s: State, p: Phase, m: nat)
    ensures var r := Step(s, if p == Work then SelectWork(m) else SelectBreak(m));
            && Selected(r, p) == m * 60 && Remaining(r, p) == m * 60
            && DisplayOf(r, p) == Format(m * 60)
            && Selected(r, Other(p)) == Selected(s, Other(p))
            && Remaining(r, Other(p)) == Remaining(s, Other(p))
            && DisplayOf(r, Other(p)) == DisplayOf(s, Other(p))
            && r.timer == s.timer && r.isPaused == s.isPaused && r.isWork == s.isWork
            && r.workButton == s.workButton && r.breakButton == s.breakButton
  {
  }

  // ---------------------------------------------------------------------
  // The break button's disabled flag

  /** Only a work start enables the break button: from the disabled state no
      tick can fire and the break button cannot be clicked. */
  lemma BreakButtonEnabledOnlyByWorkStart(s: State, e: Event)
    requires Inv(s) && s.breakButton.disabled
    ensures !Step(s, e).breakButton.disabled <==> e == ClickWork && !s.workButton.disabled
  {
  }

  /** Only reset disables the break button again. */
  lemma BreakButtonDisabledOnlyByReset(s: State, e: Event)
    requires !s.breakButton.disabled && e != Reset
    ensures !Step(s, e).breakButton.disabled
  {
  }

  /** The script never writes the work button's disabled flag, so in every
      state reachable from page load it is still the one the markup gave it.
      A work button the markup enables therefore meets the precondition of
      `ClickOtherPhasePausesRunning` in every reachable state. */
  lemma WorkButtonDisabledFixed(workButton: Button, breakButton: Button, events: seq<Event>)
    ensures Run(Init(workButton, breakButton), events).workButton.disabled == workButton.disabled
  {
  }
}
