# Work/break countdown controller, modelled in Dafny

The timer page keeps two countdowns: a work period (25 minutes by default)
and a break (5 minutes by default). Each has a start/pause button. There is
a reset button, and there are buttons that choose each duration in minutes.
Starting a phase schedules a `setInterval` callback for it, once per second.
There are two such callbacks, one per phase (app.js:179 and 210). At most
one of them is live at a time. When a phase reaches zero, its callback
starts the other phase.

This project models that controller as a pure state machine:

- `TimeFormat` (`time_format.dfy`) is the `m:ss` text shown on the two
  displays. `Parse` is a strict parser proved to invert it.
- `ButtonStyle` (`button_style.dfy`) is a start/pause button: its label, its
  set of CSS classes and its disabled flag. It also holds the class-list
  rewrite done by `updateButtonColor` and `updateButton`.
- `Countdown` (`countdown.dfy`) is the closure state of the page script:
  `workTime`, `breakTime`, `selectedWorkTime`, `selectedBreakTime`,
  `isWork`, `isPaused`, `timer`, both buttons and both displays. It has
  one function per helper of the script (`startTimer`, `stopTimer`,
  `startBreak`, `resetTimers`, `updateTimerDisplay`) and a total
  `Step(state, event)`. The events are `Tick`, `ClickWork`, `ClickBreak`,
  `Reset`, `SelectWork(m)` and `SelectBreak(m)`. `Init` is the state
  after `initializeApp`.
- `CountdownProperties` (`countdown_properties.dfy`) holds the invariant
  `Inv` that every reachable state keeps, and the lemmas about each event.

The `timer` variable is modelled as `Interval`. It is either `Disarmed`
(null) or `Armed(p)`, an interval whose callback counts down phase `p`.
`setInterval` does not clear the interval that `timer` already holds. So
the state also counts `orphanedIntervals`: intervals whose id was
overwritten while they were still live. `Inv` proves that this count stays
0. It also proves that `Armed(p)` always agrees with `isWork`. Together
these mean at most one countdown ever runs, and a plain "armed" flag would
describe `timer` completely.

The model follows the script as written:

- A finished phase keeps 0 seconds remaining (app.js:180-188, 211-217).
  Once both phases have run out, the two phases swap on every tick
  (`FinishedPhasesAlternateEachTick`).
- Choosing a duration overwrites the remaining time, even while that phase
  is counting down (app.js:285-286, 295-296).
- Clicking one phase's button while the other phase runs pauses the running
  phase; it does not start the clicked one (app.js:302-317). The running
  phase's button still reads "Pause" afterwards.
- The pause colour `bg-yellow-600` is not in the palette that
  `updateButtonColor` strips, so it stays on a button once added.
- The next phase starts inside the same callback, with no delay
  (app.js:184-188, 215-217).
- Reset sets `isWork = true` (app.js:274), so there is no "no phase" state.
- Tips are picked locally with `Math.random` (app.js:115).

## Model

| member | source | states |
|---|---|---|
| TimeFormat.FormatShape | app.js:139-142 | the display text is the whole minutes in decimal, then a colon, then exactly two digits whose value is the seconds within the minute |
| TimeFormat.Format | app.js:140-142 | the display text has at least four characters, the colon third from the end, before the two seconds digits; FormatShape states its shape and ParseFormat, FormatParse and FormatInverse that it is inverted by Parse |
| TimeFormat.Decimal | app.js:142 | the minutes are printed as a decimal numeral with no leading zero, one digit exactly when the value is below ten |
| TimeFormat.Seconds | app.js:141-142 | padding with "0" below ten always yields two digits, the first at most 5, reading back as the seconds value |
| TimeFormat.DigitsValueOfDecimal | app.js:142 | the printed minutes numeral reads back as the minutes value |
| TimeFormat.DecimalOfDigitsValue | app.js:142 | every canonical numeral is the printed form of its value, so the minutes field is determined by its value |
| TimeFormat.ParseFormat | app.js:140-142 | parsing the display text of t gives back t |
| TimeFormat.FormatParse | app.js:140-142 | every string the strict parser accepts is exactly the display text of the value it returns |
| TimeFormat.FormatInverse | app.js:140-142 | parsing s gives t if and only if t is displayed as s |
| TimeFormat.FormatInjective | app.js:140-142 | two different remaining times are never displayed with the same text |
| TimeFormat.FormatExamples | app.js:140-142 | 65 s shows "1:05", 5 s shows "0:05", 0 s shows "0:00", 25 minutes shows "25:00" |
| ButtonStyle.UpdateButtonColor | app.js:125-132 | the new colour is present afterwards; every other class left is non-palette and was there before; no non-palette class is removed |
| ButtonStyle.UpdateButton | app.js:134-137 | an empty text or colour leaves that field unchanged, a non-empty one replaces the label or recolours; the disabled flag never changes |
| ButtonStyle.LastPaletteColorWins | app.js:125-132 | recolouring after a palette colour gives the same classes as recolouring the original set |
| ButtonStyle.ForeignColorSurvives | app.js:125-132 | a class outside the palette, such as bg-yellow-600, survives every later recolouring |
| ButtonStyle.UpdateButtonColorIdempotent | app.js:125-132 | recolouring twice with the same colour equals recolouring once |
| ButtonStyle.StartColorIsOnlyPaletteClass | app.js:125-132 | after a green recolouring, green is the only palette class left |
| ButtonStyle.PauseColorLingers | app.js:167-175 | a button that showed "Pause" and then "Start" carries both bg-yellow-600 and bg-green-500 |
| Countdown.ShowTime | app.js:139-149 | the display of the named phase shows the m:ss text of the time; the other display and all other state are unchanged |
| Countdown.ClearTimer | app.js:228-230 | afterwards no interval is held and the only live intervals are the orphaned ones |
| Countdown.SetInterval | app.js:179-190 | the new interval is held and the number of live intervals grows by one, whatever was held before |
| Countdown.StartTimer | app.js:162-226 | the phase's interval is armed, not paused, isWork names the phase, its button reads "Pause" and the other "Start"; starting work enables the break button; times and choices unchanged |
| Countdown.StopTimer | app.js:228-246 | no interval is held, the controller is paused, the clicked phase's button reads "Start", the other button and isWork are unchanged |
| Countdown.StartBreak | app.js:248-252 | the break interval is armed, not paused, the break button is enabled and reads "Pause", the work button reads "Start"; the work button's disabled flag, both times, both choices and both displays are unchanged |
| Countdown.ResetTimers | app.js:254-277 | remaining times equal the chosen durations, no interval is held, not paused, work phase, both buttons "Start", break button disabled, displays show the chosen durations |
| Countdown.TickTimer | app.js:179-219 | a callback never changes the chosen durations or the work button's disabled flag, and keeps both times non-negative; TickCountsDown, TickCompletesPhase and TickWithoutInterval carry its behaviour |
| Countdown.Click | app.js:302-317 | a start/pause click changes neither remaining time, nor a chosen duration, nor a display, nor the work button's disabled flag; ClickStarts, ClickStops and DisabledClickIgnored carry its branches |
| Countdown.Select | app.js:284-298 | choosing a duration leaves the interval, the pause and phase flags, both buttons and the other phase's times alone; SelectSetsDuration carries the new duration |
| Countdown.Step | app.js:282-320 | only a duration button changes a chosen duration, and no event changes the work button's disabled flag; StepPreservesInv carries the invariant |
| Countdown.Run | app.js:282-320 | over any event sequence the work button's disabled flag is fixed, and a sequence without duration choices keeps both chosen durations; RunPreservesInv and ReachableInv carry the invariant |
| Countdown.Init | app.js:343-356 | page load: 25 and 5 minutes remaining and chosen, no interval, work phase, unpaused, both buttons "Start", break button disabled, each display shows the m:ss text of its time |
| CountdownProperties.InitSatisfiesInv | app.js:343-356 | the state after `initializeApp`, starting from the variables of app.js:3-9, satisfies the invariant whatever buttons the markup supplies |
| CountdownProperties.TickPreservesInv | app.js:179-219 | an interval callback keeps the invariant |
| CountdownProperties.ClickPreservesInv | app.js:302-317 | a start/pause click keeps the invariant |
| CountdownProperties.SelectPreservesInv | app.js:284-298 | choosing a duration keeps the invariant |
| CountdownProperties.StepPreservesInv | app.js:162-320 | every event keeps the invariant: non-negative times, displays matching times, no orphaned interval, paused implies no interval, the held interval agrees with isWork and its button reads "Pause" |
| CountdownProperties.RunPreservesInv | app.js:162-320 | any sequence of events keeps the invariant |
| CountdownProperties.ReachableInv | app.js:162-320 | every state reachable from page load satisfies the invariant, has at most one live interval, and has none while paused |
| CountdownProperties.ReachableDisplays | app.js:139-149 | in every reachable state both remaining times are non-negative and each display parses back to its remaining time |
| CountdownProperties.StartOnlyWhenDisarmed | app.js:302-304 | the start branch of a click is only taken with no interval live, so starting never orphans one |
| CountdownProperties.TickCountsDown | app.js:179-214 | a tick with time left decrements that phase by exactly one and changes nothing but its time and display |
| CountdownProperties.TickCompletesPhase | app.js:184-217 | a tick at zero arms the other phase with exactly one live interval, the finished phase stays at zero and the other keeps its remaining time |
| CountdownProperties.TickWithoutInterval | app.js:179-219 | with no interval held, no callback fires, so a tick changes nothing |
| CountdownProperties.FinishedPhasesAlternateEachTick | app.js:184-217 | once both phases are at zero, two ticks go from break to work and back to break, both still at zero |
| CountdownProperties.ClickStarts | app.js:302-317 | when paused or with no interval, clicking a phase's button arms it, unpauses, sets isWork, labels it "Pause" and the other "Start", and keeps both times |
| CountdownProperties.ClickStops | app.js:302-317 | otherwise the click disarms and pauses, labels the clicked button "Start" and leaves the other button and isWork unchanged |
| CountdownProperties.ClickOtherPhasePausesRunning | app.js:302-317 | clicking the idle phase while the other runs pauses the running one, whose button still reads "Pause"; clicking that one resumes it with its time intact |
| CountdownProperties.DisabledClickIgnored | app.js:302-317 | a click on a disabled start/pause button is not delivered to its handler, so it changes nothing |
| CountdownProperties.ResetFromAnyState | app.js:254-277 | from any state, reset restores both chosen durations, disarms, unpauses, selects work, labels both buttons "Start", disables the break button, and re-establishes the invariant when no interval is orphaned |
| CountdownProperties.ResetIdempotent | app.js:254-277 | resetting twice equals resetting once |
| CountdownProperties.SelectSetsDuration | app.js:284-298 | choosing m minutes sets that phase's chosen and remaining time to m*60 and its display, even while it runs; the other phase, the interval, the pause flag and both buttons are unchanged |
| CountdownProperties.BreakButtonEnabledOnlyByWorkStart | app.js:192 | from the disabled state, the break button becomes enabled if and only if the event is a click on the enabled work button |
| CountdownProperties.BreakButtonDisabledOnlyByReset | app.js:272 | no event but reset disables an enabled break button |
| CountdownProperties.WorkButtonDisabledFixed | app.js:162-277 | in every state reachable from page load the work button's disabled flag is the one the markup gave it, so a work button the markup enables stays clickable |

## Left out

- Sound (app.js:22-87): the start and completion sounds use the browser's
  Web Audio API and floating-point envelopes. They have no effect on the
  state.
- Design tips (app.js:90-123, 208, 249): the tip is picked with
  `Math.random` and written to the page. No controller state depends on it.
- Opacity and ambient background (app.js:151-159, 193-194, 221-222, 245,
  275-276), and the dark-mode toggle (app.js:322-340): these only change
  styling when the elements exist.
- Timing: `setInterval` fires about once per second, with drift. Each firing
  is one `Tick` event here.
- Orphaned intervals would keep firing, but their callbacks are not `Tick`
  sources here. `ReachableInv` proves that no reachable state has one.
- Duration buttons: `parseInt(button.dataset.time)` (app.js:285, 295) reads
  the page markup. The duration is a natural number of minutes given to the
  event, so a non-numeric attribute (NaN) is not modelled.
- Page markup: the buttons' initial classes and the work button's disabled
  flag come from the HTML, which is not part of this model. They are
  parameters of `Init`. The model also assumes that every element the script
  looks up at app.js:12-19 exists, and the invariant depends on it. The
  script never checks for null. Without `#ambientBackground`, for instance,
  `startTimer` throws at app.js:194, after `setInterval` (app.js:179) and
  before `isPaused = false` (app.js:225). That leaves a paused state with a
  live interval, and the next click starts a second interval. A missing
  `#challengeDisplay` child throws the same way (app.js:116, called at 208
  and 249). Script errors are not modelled.
- TimeFormat.Format: times are unbounded integers. JavaScript numbers lose
  precision above 2^53 and print in exponent form from 10^21, far beyond any
  duration the page offers.
- CountdownProperties.ClickOtherPhasePausesRunning: this lemma requires the
  work button to be enabled. The script never disables it, but its initial
  flag comes from the markup.
