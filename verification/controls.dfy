/** The decisions of `ExerciseDetailScreen` that depend on the timer: which
    button `TimerControls` shows, with which label and click handler, and the
    status line under the clock. Layout, colours and icons are not modelled. */
module TimerScreen {
  import opened Wrappers
  import opened Domain
  import opened ExerciseTimer

  /** A button: its text and the view-model call its click makes. */
  datatype Button = Button(text: string, onClick: Event)

  /** The text names the call the button makes. */
  predicate LabelMatchesAction(b: Button) {
    && (b.text == "Reset" <==> b.onClick == OnReset)
    && (b.text == "Pause" <==> b.onClick == OnPause)
    && (b.text == "Resume" <==> b.onClick == OnResume)
    && (b.text == "Start" <==> b.onClick == OnStart)
  }

  /** The `when` of `TimerControls`: Reset once completed or at 0, else Pause
      while running, else, with time left, one play button whose text and
      handler are chosen by two separate `remainingTime < totalDuration`
      tests; nothing at all otherwise. */
  function TimerControls(isTimerRunning: bool, remainingTime: int32, totalDuration: int32, isCompleted: bool)
    : (r: Option<Button>)
    ensures isCompleted || remainingTime == 0 ==> r == Some(Button("Reset", OnReset))
    ensures r == Some(Button("Pause", OnPause)) <==> !(isCompleted || remainingTime == 0) && isTimerRunning
    ensures !isTimerRunning && !isCompleted && remainingTime > 0 ==>
              r == Some(if remainingTime < totalDuration then Button("Resume", OnResume) else Button("Start", OnStart))
    ensures r.None? <==> !isCompleted && !isTimerRunning && remainingTime < 0
    ensures r.Some? ==> LabelMatchesAction(r.value)
  {
    if isCompleted || remainingTime == 0 then Some(Button("Reset", OnReset))
    else if isTimerRunning then Some(Button("Pause", OnPause))
    else if remainingTime > 0 then
      Some(Button(if remainingTime < totalDuration then "Resume" else "Start",
                  if remainingTime < totalDuration then OnResume else OnStart))
    else None
  }

  /** The status line: "Completed!" exactly at 0, else whether it runs. */
  function StatusLabel(remainingTime: int32, isTimerRunning: bool): (status: string)
    ensures status == "Completed!" <==> remainingTime == 0
    ensures remainingTime != 0 ==> (status == "Exercise in Progress..." <==> isTimerRunning)
    ensures status == "Ready to Start" <==> remainingTime != 0 && !isTimerRunning
  {
    if remainingTime == 0 then "Completed!"
    else if isTimerRunning then "Exercise in Progress..."
    else "Ready to Start"
  }

  /** The controls the screen shows for a view-model state; the screen only
      shows them once an exercise is bound. */
  function ControlsFor(s: TimerState): (b: Option<Button>)
    requires s.exercise.Some?
  {
    TimerControls(s.isTimerRunning, s.remainingTime, s.exercise.value.durationSeconds, s.exercise.value.isCompleted)
  }

  /** In every state the invariant allows, some button is shown, and Start
      (rather than Resume) only at the full duration. */
  lemma ReachableStatesOfferAControl(s: TimerState)
    requires Inv(s) && s.exercise.Some?
    ensures ControlsFor(s).Some?
    ensures ControlsFor(s) == Some(Button("Start", OnStart)) ==> s.remainingTime == s.exercise.value.durationSeconds
  {
  }

  /** Clicking the shown button does what its label says: Start and Resume
      set the timer running from the same value (and do the same thing
      there), Pause stops it at the same value, Reset stops it at the full
      duration. */
  lemma ShownButtonActs(s: TimerState)
    requires Inv(s) && s.exercise.Some? && ControlsFor(s).Some?
    ensures var b := ControlsFor(s).value;
            var r := Step(s, b.onClick);
            && (b.onClick == OnStart || b.onClick == OnResume ==>
                  r.isTimerRunning && r.remainingTime == s.remainingTime && StartTimer(s) == ResumeTimer(s))
            && (b.onClick == OnPause ==> !r.isTimerRunning && r.remainingTime == s.remainingTime)
            && (b.onClick == OnReset ==> !r.isTimerRunning && r.remainingTime == s.exercise.value.durationSeconds)
  {
  }

  /** After a countdown runs out the screen says "Completed!" and offers Reset. */
  lemma FinishedScreen(s: TimerState)
    requires s.isTimerRunning && s.remainingTime > 0 && s.exercise.Some?
    ensures var r := Run(s, Ticks(s.remainingTime as nat));
            && r.exercise.Some?
            && StatusLabel(r.remainingTime, r.isTimerRunning) == "Completed!"
            && ControlsFor(r) == Some(Button("Reset", OnReset))
  {
    TicksUntilDone(s);
  }
}
