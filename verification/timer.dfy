/** The countdown of `ExerciseDetailViewModel` as a step function on an
    immutable state. The view-model keeps no status enum: only the loaded
    exercise, the remaining seconds and a running flag. The two persistence
    calls it makes are appended to an effect log instead of being executed.
    The coroutine loop `while (remainingTime > 0) { delay(1000); ... }` becomes
    an explicit tick event that only applies while the timer runs; the loop
    exit (stop, mark completed) happens in the step that ends the loop. */
module ExerciseTimer {
  import opened Wrappers
  import opened Domain

  /** The use-case calls the view-model makes. */
  datatype Effect = MarkCompleted(id: string) | ResetCompletion(id: string)

  /** The view-model's observable state plus the log of persistence calls. */
  datatype TimerState = TimerState(
    exercise: Option<Exercise>,
    remainingTime: int32,
    isTimerRunning: bool,
    effects: seq<Effect>)

  /** A freshly constructed view-model. */
  const Initial := TimerState(None, 0, false, [])

  /** `loadExercise`, once the exercise has been fetched: binds it and sets the
      counter to its duration, or to 0 when absent. It neither stops the
      running flag nor a countdown in progress. */
  function LoadExercise(s: TimerState, fetched: Option<Exercise>): (r: TimerState)
    ensures r.exercise == fetched
    ensures fetched.Some? ==> r.remainingTime == fetched.value.durationSeconds
    ensures fetched.None? ==> r.remainingTime == 0
    ensures r.isTimerRunning == s.isTimerRunning && r.effects == s.effects
  {
    s.(exercise := fetched, remainingTime := if fetched.Some? then fetched.value.durationSeconds else 0)
  }

  /** The code after the countdown loop: stop, then, if an exercise is bound,
      mark it completed in storage and locally. */
  function Complete(s: TimerState): (r: TimerState)
    ensures !r.isTimerRunning && r.remainingTime == s.remainingTime
    ensures s.exercise.None? ==> r.exercise.None? && r.effects == s.effects
    ensures s.exercise.Some? ==>
              && r.exercise == Some(s.exercise.value.(isCompleted := true))
              && r.effects == s.effects + [MarkCompleted(s.exercise.value.id)]
  {
    match s.exercise
    case None => s.(isTimerRunning := false)
    case Some(e) =>
      s.(isTimerRunning := false, exercise := Some(e.(isCompleted := true)),
         effects := s.effects + [MarkCompleted(e.id)])
  }

  /** `startTimer`: ignored while running; otherwise sets the flag and starts
      the countdown, whose loop exits at once when nothing is left. */
  function StartTimer(s: TimerState): (r: TimerState)
    ensures s.isTimerRunning ==> r == s
    ensures r.remainingTime == s.remainingTime
    ensures r.isTimerRunning <==> s.isTimerRunning || s.remainingTime > 0
    ensures !s.isTimerRunning && s.remainingTime > 0 ==> r.exercise == s.exercise && r.effects == s.effects
    ensures !s.isTimerRunning && s.remainingTime <= 0 ==> r == Complete(s)
  {
    if s.isTimerRunning then s
    else if s.remainingTime > 0 then s.(isTimerRunning := true)
    else Complete(s)
  }

  /** One elapsed second of the countdown loop: while running, the counter
      drops by one if positive, and the loop ends when it is no longer. */
  function Tick(s: TimerState): (r: TimerState)
    ensures !s.isTimerRunning ==> r == s
    ensures s.isTimerRunning && s.remainingTime > 0 ==> r.remainingTime == s.remainingTime - 1
    ensures s.isTimerRunning && s.remainingTime <= 0 ==> r.remainingTime == s.remainingTime
    ensures r.isTimerRunning <==> s.isTimerRunning && s.remainingTime > 1
    ensures s.isTimerRunning && s.remainingTime > 1 ==> r.exercise == s.exercise && r.effects == s.effects
    ensures s.isTimerRunning && s.remainingTime <= 1 ==> r == Complete(s.(remainingTime := r.remainingTime))
  {
    if !s.isTimerRunning then s
    else
      var t := s.(remainingTime := if s.remainingTime > 0 then s.remainingTime - 1 else s.remainingTime);
      if t.remainingTime > 0 then t else Complete(t)
  }

  /** `pauseTimer`: cancels the countdown and clears the flag. */
  function PauseTimer(s: TimerState): (r: TimerState)
    ensures !r.isTimerRunning
    ensures r.remainingTime == s.remainingTime && r.exercise == s.exercise && r.effects == s.effects
  {
    s.(isTimerRunning := false)
  }

  /** `resumeTimer`: `startTimer`, but only with time left and while stopped. */
  function ResumeTimer(s: TimerState): (r: TimerState)
    ensures s.remainingTime > 0 && !s.isTimerRunning ==> r == StartTimer(s) && r.isTimerRunning
    ensures !(s.remainingTime > 0 && !s.isTimerRunning) ==> r == s
    ensures r.remainingTime == s.remainingTime && r.effects == s.effects
  {
    if s.remainingTime > 0 && !s.isTimerRunning then StartTimer(s) else s
  }

  /** `resetTimer`: always stops; with an exercise bound, restores its full
      duration, resets its completion in storage and locally. */
  function ResetTimer(s: TimerState): (r: TimerState)
    ensures !r.isTimerRunning
    ensures s.exercise.None? ==> r == s.(isTimerRunning := false)
    ensures s.exercise.Some? ==>
              && r.remainingTime == s.exercise.value.durationSeconds
              && r.exercise == Some(s.exercise.value.(isCompleted := false))
              && r.effects == s.effects + [ResetCompletion(s.exercise.value.id)]
  {
    match s.exercise
    case None => s.(isTimerRunning := false)
    case Some(e) =>
      s.(isTimerRunning := false, remainingTime := e.durationSeconds,
         exercise := Some(e.(isCompleted := false)), effects := s.effects + [ResetCompletion(e.id)])
  }

  /** What can happen to the view-model: a (re)load, a button, a second. */
  datatype Event = OnLoad(fetched: Option<Exercise>) | OnStart | OnPause | OnResume | OnReset | OnTick

  function Step(s: TimerState, ev: Event): (r: TimerState) {
    match ev
    case OnLoad(fetched) => LoadExercise(s, fetched)
    case OnStart => StartTimer(s)
    case OnPause => PauseTimer(s)
    case OnResume => ResumeTimer(s)
    case OnReset => ResetTimer(s)
    case OnTick => Tick(s)
  }

  /** The state after a sequence of events, applied first to last. */
  function Run(s: TimerState, evs: seq<Event>): (r: TimerState)
    decreases |evs|
  {
    if |evs| == 0 then s else Step(Run(s, evs[..|evs| - 1]), evs[|evs| - 1])
  }

  /** `n` elapsed seconds. */
  function Ticks(n: nat): (evs: seq<Event>)
    ensures |evs| == n && forall i :: 0 <= i < n ==> evs[i] == OnTick
  {
    seq(n, _ => OnTick)
  }

  lemma {:induction false} RunAppend(s: TimerState, a: seq<Event>, b: seq<Event>)
    ensures Run(s, a + b) == Run(Run(s, a), b)
    decreases |b|
  {
    if |b| == 0 {
      assert a + b == a;
    } else {
      var n := |b| - 1;
      assert (a + b)[..|a + b| - 1] == a + b[..n];
      RunAppend(s, a, b[..n]);
    }
  }

  /** The counter lies between 0 and the bound exercise's duration. */
  predicate Inv(s: TimerState) {
    && s.remainingTime >= 0
    && (s.exercise.Some? ==> s.remainingTime <= s.exercise.value.durationSeconds)
  }

  /** An event that loads an exercise with a negative duration is the only
      way to break the invariant. */
  predicate Sane(ev: Event) {
    ev.OnLoad? && ev.fetched.Some? ==> ev.fetched.value.durationSeconds >= 0
  }

  lemma StepKeepsInv(s: TimerState, ev: Event)
    requires Inv(s) && Sane(ev)
    ensures Inv(Step(s, ev))
  {
  }

  /** Every run of sane events from the initial state keeps the counter in
      `[0, durationSeconds]`. */
  lemma {:induction false} RunKeepsInv(s: TimerState, evs: seq<Event>)
    requires Inv(s)
    requires forall i :: 0 <= i < |evs| ==> Sane(evs[i])
    ensures Inv(Run(s, evs))
    decreases |evs|
  {
    if |evs| > 0 {
      var n := |evs| - 1;
      RunKeepsInv(s, evs[..n]);
      StepKeepsInv(Run(s, evs[..n]), evs[n]);
    }
  }

  /** While stopped, any number of seconds changes nothing. */
  lemma {:induction false} TicksWhileStopped(s: TimerState, n: nat)
    requires !s.isTimerRunning
    ensures Run(s, Ticks(n)) == s
    decreases n
  {
    if n > 0 {
      assert Ticks(n)[..n - 1] == Ticks(n - 1);
      TicksWhileStopped(s, n - 1);
    }
  }

  /** While running, `k` seconds short of the end remove exactly `k` seconds. */
  lemma {:induction false} CountDown(s: TimerState, k: nat)
    requires s.isTimerRunning && k < s.remainingTime as int
    ensures Run(s, Ticks(k)) == s.(remainingTime := s.remainingTime - k as int32)
    decreases k
  {
    if k > 0 {
      assert Ticks(k)[..k - 1] == Ticks(k - 1);
      CountDown(s, k - 1);
    }
  }

  /** Running with `n > 0` seconds left, `n` seconds bring the counter to 0,
      stop the timer and fire the completion. */
  lemma TicksUntilDone(s: TimerState)
    requires s.isTimerRunning && s.remainingTime > 0
    ensures Run(s, Ticks(s.remainingTime as nat)) == Complete(s.(remainingTime := 0))
  {
    var n := s.remainingTime as nat;
    assert Ticks(n)[..n - 1] == Ticks(n - 1);
    CountDown(s, n - 1);
  }

  /** No double completion: seconds after the countdown ended add nothing. */
  lemma CountdownCompletesOnce(s: TimerState, extra: nat)
    requires s.isTimerRunning && s.remainingTime > 0 && s.exercise.Some?
    ensures var r := Run(s, Ticks(s.remainingTime as nat + extra));
            && r.remainingTime == 0 && !r.isTimerRunning
            && r.effects == s.effects + [MarkCompleted(s.exercise.value.id)]
            && r.exercise == Some(s.exercise.value.(isCompleted := true))
  {
    var n := s.remainingTime as nat;
    assert Ticks(n + extra) == Ticks(n) + Ticks(extra);
    RunAppend(s, Ticks(n), Ticks(extra));
    TicksUntilDone(s);
    TicksWhileStopped(Complete(s.(remainingTime := 0)), extra);
  }

  /** Pausing twice is pausing once, and no second elapses while paused. */
  lemma PauseLaws(s: TimerState)
    ensures PauseTimer(PauseTimer(s)) == PauseTimer(s)
    ensures Tick(PauseTimer(s)) == PauseTimer(s)
  {
  }

  /** Pausing then resuming with time left continues from the paused value:
      the next second removes exactly one. */
  lemma PauseResumeContinues(s: TimerState)
    requires s.isTimerRunning && s.remainingTime > 0
    ensures ResumeTimer(PauseTimer(s)) == s
    ensures Tick(ResumeTimer(PauseTimer(s))).remainingTime == s.remainingTime - 1
  {
  }

  /** `loadExercise` does not cancel a running countdown: the next second
      counts down the newly bound exercise. */
  lemma LoadDoesNotCancel(s: TimerState, e: Exercise)
    requires s.isTimerRunning && e.durationSeconds > 1
    ensures Tick(LoadExercise(s, Some(e))).isTimerRunning
    ensures Tick(LoadExercise(s, Some(e))).remainingTime == e.durationSeconds - 1
  {
  }

  /** Starting a stopped timer at 0 fires the completion again. */
  lemma StartAtZeroCompletesAgain(s: TimerState)
    requires !s.isTimerRunning && s.remainingTime == 0 && s.exercise.Some?
    ensures StartTimer(s).effects == s.effects + [MarkCompleted(s.exercise.value.id)]
  {
  }

  /** Resetting always restores the full duration and logs one reset, from
      any state with an exercise bound; without one it only stops. */
  lemma ResetRestores(s: TimerState, evs: seq<Event>)
    ensures var r := Run(s, evs + [OnReset]);
            && !r.isTimerRunning
            && (Run(s, evs).exercise.Some? ==>
                  r.remainingTime == Run(s, evs).exercise.value.durationSeconds
                  && r.effects == Run(s, evs).effects + [ResetCompletion(Run(s, evs).exercise.value.id)])
            && (Run(s, evs).exercise.None? ==> r == Run(s, evs).(isTimerRunning := false))
  {
    RunAppend(s, evs, [OnReset]);
  }

  lemma RunSnoc(s: TimerState, evs: seq<Event>, ev: Event)
    ensures Run(s, evs + [ev]) == Step(Run(s, evs), ev)
  {
    assert (evs + [ev])[..|evs|] == evs;
  }

  /** Load a 5-second exercise, start, 2 seconds, pause, resume, 3 seconds:
      the counter shows 3 running, 3 paused, then 0 stopped, and exactly one
      completion was logged. */
  lemma EndToEndScenario(e: Exercise)
    requires e.durationSeconds == 5
    ensures var s := Run(Initial, [OnLoad(Some(e)), OnStart, OnTick, OnTick]);
            s.remainingTime == 3 && s.isTimerRunning
    ensures var s := Run(Initial, [OnLoad(Some(e)), OnStart, OnTick, OnTick, OnPause]);
            s.remainingTime == 3 && !s.isTimerRunning
    ensures var s := Run(Initial, [OnLoad(Some(e)), OnStart, OnTick, OnTick, OnPause, OnResume, OnTick, OnTick, OnTick]);
            s.remainingTime == 0 && !s.isTimerRunning && s.effects == [MarkCompleted(e.id)]
  {
    var L := [OnLoad(Some(e)), OnStart, OnTick, OnTick, OnPause, OnResume, OnTick, OnTick, OnTick];
    assert L[..0] == [];
    assert L[..1] == L[..0] + [L[0]]; RunSnoc(Initial, L[..0], L[0]);
    assert L[..2] == L[..1] + [L[1]]; RunSnoc(Initial, L[..1], L[1]);
    assert L[..3] == L[..2] + [L[2]]; RunSnoc(Initial, L[..2], L[2]);
    assert L[..4] == L[..3] + [L[3]]; RunSnoc(Initial, L[..3], L[3]);
    assert L[..5] == L[..4] + [L[4]]; RunSnoc(Initial, L[..4], L[4]);
    assert L[..6] == L[..5] + [L[5]]; RunSnoc(Initial, L[..5], L[5]);
    assert L[..7] == L[..6] + [L[6]]; RunSnoc(Initial, L[..6], L[6]);
    assert L[..8] == L[..7] + [L[7]]; RunSnoc(Initial, L[..7], L[7]);
    assert L[..9] == L[..8] + [L[8]]; RunSnoc(Initial, L[..8], L[8]);
    assert L[..4] == [OnLoad(Some(e)), OnStart, OnTick, OnTick];
    assert L[..5] == [OnLoad(Some(e)), OnStart, OnTick, OnTick, OnPause];
    assert L[..9] == L;
  }

  /** 10 seconds, 3 elapse, pause at 7, resume, 2 more: 5 left, running. */
  lemma ResumeScenario(e: Exercise)
    requires e.durationSeconds == 10
    ensures var s := Run(Initial, [OnLoad(Some(e)), OnStart, OnTick, OnTick, OnTick, OnPause]);
            s.remainingTime == 7 && !s.isTimerRunning
    ensures var s := Run(Initial, [OnLoad(Some(e)), OnStart, OnTick, OnTick, OnTick, OnPause, OnResume, OnTick, OnTick]);
            s.remainingTime == 5 && s.isTimerRunning && s.effects == []
  {
    var L := [OnLoad(Some(e)), OnStart, OnTick, OnTick, OnTick, OnPause, OnResume, OnTick, OnTick];
    assert L[..0] == [];
    assert L[..1] == L[..0] + [L[0]]; RunSnoc(Initial, L[..0], L[0]);
    assert L[..2] == L[..1] + [L[1]]; RunSnoc(Initial, L[..1], L[1]);
    assert L[..3] == L[..2] + [L[2]]; RunSnoc(Initial, L[..2], L[2]);
    assert L[..4] == L[..3] + [L[3]]; RunSnoc(Initial, L[..3], L[3]);
    assert L[..5] == L[..4] + [L[4]]; RunSnoc(Initial, L[..4], L[4]);
    assert L[..6] == L[..5] + [L[5]]; RunSnoc(Initial, L[..5], L[5]);
    assert L[..7] == L[..6] + [L[6]]; RunSnoc(Initial, L[..6], L[6]);
    assert L[..8] == L[..7] + [L[7]]; RunSnoc(Initial, L[..7], L[7]);
    assert L[..9] == L[..8] + [L[8]]; RunSnoc(Initial, L[..8], L[8]);
    assert L[..6] == [OnLoad(Some(e)), OnStart, OnTick, OnTick, OnTick, OnPause];
    assert L[..9] == L;
  }
}
