/** The view-model's persistence calls carried out against the database:
    `MarkExerciseCompletedUseCase` passes its call straight to the repository,
    and the reset call is taken to end in `resetExerciseCompletion` likewise. */
module Session {
  import opened Entities
  import opened Repository
  import opened ExerciseTimer

  /** Carries out one logged call: `markExerciseCompleted` or
      `resetExerciseCompletion` on the named row. */
  function ApplyEffect(db: Database, e: Effect): (r: Database)
    ensures r.sets == db.sets && r.exercises.Keys == db.exercises.Keys
    ensures db.Valid() ==> r.Valid()
    ensures e.id in db.exercises ==> r.exercises[e.id] == db.exercises[e.id].(isCompleted := e.MarkCompleted?)
    ensures forall k :: k in db.exercises && k != e.id ==> r.exercises[k] == db.exercises[k]
    ensures forall k :: k in db.exercises ==> r.exercises[k] == db.exercises[k].(isCompleted := r.exercises[k].isCompleted)
  {
    match e
    case MarkCompleted(id) => MarkExerciseCompleted(db, id)
    case ResetCompletion(id) => ResetExerciseCompletion(db, id)
  }

  /** Applies logged calls, oldest first. */
  function ApplyEffects(db: Database, effects: seq<Effect>): (r: Database)
    ensures r.sets == db.sets && r.exercises.Keys == db.exercises.Keys
    ensures db.Valid() ==> r.Valid()
    ensures forall k :: k in db.exercises && (forall i :: 0 <= i < |effects| ==> effects[i].id != k) ==>
              r.exercises[k] == db.exercises[k]
    ensures forall k :: k in db.exercises ==> r.exercises[k] == db.exercises[k].(isCompleted := r.exercises[k].isCompleted)
    decreases |effects|
  {
    if |effects| == 0 then db
    else
      var prefix := effects[..|effects| - 1];
      assert forall i :: 0 <= i < |prefix| ==> prefix[i] == effects[i];
      ApplyEffect(ApplyEffects(db, prefix), effects[|effects| - 1])
  }

  /** A row named by a call ends with the completion flag the last call
      naming it sets. */
  lemma {:induction false} ApplyEffectsLastWins(db: Database, effects: seq<Effect>, i: nat)
    requires i < |effects| && effects[i].id in db.exercises && LastNaming(effects, i)
    ensures ApplyEffects(db, effects).exercises[effects[i].id]
              == db.exercises[effects[i].id].(isCompleted := effects[i].MarkCompleted?)
    decreases |effects|
  {
    var n := |effects| - 1;
    var prefix := effects[..n];
    var before := ApplyEffects(db, prefix);
    var k := effects[i].id;
    var r := ApplyEffect(before, effects[n]);
    assert ApplyEffects(db, effects) == r;
    assert k in before.exercises;
    if i < n {
      LastNamingPrefix(effects, i);
      ApplyEffectsLastWins(db, prefix, i);
      assert before.exercises[k] == db.exercises[k].(isCompleted := effects[i].MarkCompleted?);
      assert r.exercises[k] == before.exercises[k];
    } else {
      FlagOverwrite(db.exercises[k], before.exercises[k], effects[n].MarkCompleted?);
    }
  }

  /** Setting the completion flag of a row that differs from another only
      in that flag gives the same row as setting it on the other. */
  lemma FlagOverwrite(x: ExerciseEntity, y: ExerciseEntity, done: bool)
    requires y == x.(isCompleted := y.isCompleted)
    ensures y.(isCompleted := done) == x.(isCompleted := done)
  {
  }

  /** The call at index `i` is the last one naming its row. */
  predicate LastNaming(effects: seq<Effect>, i: nat)
    requires i < |effects|
  {
    forall j :: i < j < |effects| ==> effects[j].id != effects[i].id
  }

  /** A call before the last one that is the last to name its row is also
      the last to name it in the prefix, and names another row than the last call. */
  lemma LastNamingPrefix(effects: seq<Effect>, i: nat)
    requires i < |effects| - 1 && LastNaming(effects, i)
    ensures LastNaming(effects[..|effects| - 1], i)
    ensures effects[..|effects| - 1][i] == effects[i]
    ensures effects[i].id != effects[|effects| - 1].id
  {
  }

  /** Running a countdown out and persisting what it logged leaves the bound
      exercise's row completed in storage and every other row as it was. */
  lemma CountdownPersistsCompletion(db: Database, s: TimerState)
    requires s.isTimerRunning && s.remainingTime > 0 && s.exercise.Some? && s.effects == []
    requires s.exercise.value.id in db.exercises
    ensures var r := ApplyEffects(db, Run(s, Ticks(s.remainingTime as nat)).effects);
            && r.exercises[s.exercise.value.id] == db.exercises[s.exercise.value.id].(isCompleted := true)
            && forall k :: k in db.exercises && k != s.exercise.value.id ==> r.exercises[k] == db.exercises[k]
  {
    CountdownCompletesOnce(s, 0);
    var effects := [MarkCompleted(s.exercise.value.id)];
    assert Run(s, Ticks(s.remainingTime as nat)).effects == effects;
    assert effects[..0] == [];
  }
}
