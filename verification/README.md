# Back-pain exercise app: timer, progress and storage core, in Dafny

This project models the sequential logic of an Android app that presents timed
back-pain exercises grouped into sets and tracks which exercises are completed:

- the countdown of `ExerciseDetailViewModel` (`loadExercise`, `startTimer` with its
  one-second loop and completion, `pauseTimer`, `resumeTimer`, `resetTimer`,
  `formatTime`), as a pure step function over an immutable state
  `(exercise, remainingTime, isTimerRunning)` plus a log of the two persistence
  calls it makes (`MarkCompleted(id)`, `ResetCompletion(id)`);
- the button and status-line choices of `ExerciseDetailScreen` that depend on that state;
- `completionProgress` of `ExerciseSetDetailViewModel`, over exact reals;
- the entity/domain mappers, with the difficulty enum stored as its name;
- `ExerciseRepositoryImpl` over the two Room tables, modelled as maps from primary
  key to row, with REPLACE inserts, the completion `UPDATE` and `WHERE id IN`;
- the built-in content of `ExerciseDataSeeder`.

Files: `wrappers.dfy` (Option, Result), `domain.dfy` (`Exercise`, `ExerciseSet`,
`DifficultyLevel`, Kotlin `Int` as `int32`), `entities.dfy` (table rows),
`mappers.dfy`, `tables.dfy` (DAO statement meanings), `repository.dfy`,
`seeder.dfy`, `timer.dfy` (the view-model), `timeformat.dfy`, `controls.dfy`
(the screen's decisions), `progress.dfy`, `session.dfy` (the logged calls carried
out against the database).

A tick (`OnTick`) is one iteration of the `delay(1000)` loop. It applies only while
`isTimerRunning` holds, since the loop's job is alive exactly then. The loop exit
(stop, mark completed, local `isCompleted := true`) happens in the same step as
the tick that leaves nothing to count down. When `startTimer` finds nothing left,
the exit happens at once.

The model follows the code in these points:
- `loadExercise` does not cancel a running countdown and does not clear
  `isTimerRunning`. The next tick counts down the newly bound exercise
  (`ExerciseTimer.LoadDoesNotCancel`).
- `startTimer` only refuses when already running. Starting at 0 fires the
  completion call again (`ExerciseTimer.StartAtZeroCompletesAgain`).
- `resetTimer` with no exercise bound only stops the timer and logs no reset call.
- The timer's state is only the running flag and the counter; paused and finished are read off them.
- `formatTime` is not clamped for negative input. It prints what
  `String.format("%02d:%02d", s / 60, s % 60)` prints with Kotlin's truncating
  `/` and `%`, e.g. `-90` gives `-1:-30`.

## Model

| member | source | states |
|---|---|---|
| Domain.ValueOf | app/src/main/java/com/backpain/exercise/data/mapper/ExerciseMapper.kt:17 | `valueOf` succeeds exactly on the name of a difficulty constant, and then returns the constant with that name |
| Domain.ValueOfName | app/src/main/java/com/backpain/exercise/data/mapper/ExerciseMapper.kt:17-31 | `valueOf` inverts the enum's `name` for every constant |
| Mappers.ExerciseToDomain | app/src/main/java/com/backpain/exercise/data/mapper/ExerciseMapper.kt:9-21 | a row maps to a domain exercise iff its difficulty string is a constant's name; every other field is copied unchanged (null video id and empty instruction lists included); otherwise it fails with that string |
| Mappers.ExerciseToEntity | app/src/main/java/com/backpain/exercise/data/mapper/ExerciseMapper.kt:23-35 | every field is copied unchanged, and the difficulty becomes a string that `valueOf` reads back to the same constant |
| Mappers.ExerciseRoundTrip | app/src/main/java/com/backpain/exercise/data/mapper/ExerciseMapper.kt:9-35 | domain → row → domain is the identity on every exercise |
| Mappers.ExerciseEntityRoundTrip | app/src/main/java/com/backpain/exercise/data/mapper/ExerciseMapper.kt:17-31 | row → domain succeeds iff the difficulty is BEGINNER, INTERMEDIATE or ADVANCED, and then row → domain → row is the identity |
| Mappers.ExerciseToEntityInjective | app/src/main/java/com/backpain/exercise/data/mapper/ExerciseMapper.kt:23-35 | distinct exercises are stored as distinct rows |
| Mappers.SetToDomain | app/src/main/java/com/backpain/exercise/data/mapper/ExerciseSetMapper.kt:8-17 | all six fields are copied, the exercise id list in order and length |
| Mappers.SetToEntity | app/src/main/java/com/backpain/exercise/data/mapper/ExerciseSetMapper.kt:19-28 | all six fields are copied, the exercise id list in order and length |
| Mappers.SetRoundTrips | app/src/main/java/com/backpain/exercise/data/mapper/ExerciseSetMapper.kt:8-28 | both compositions of the set mappers are the identity |
| Mappers.SharedExerciseIdKept | app/src/main/java/com/backpain/exercise/data/mapper/ExerciseSetMapper.kt:19-28 | an exercise id shared by two sets stays, at its position, in both mapped rows |
| Tables.InsertAll | app/src/main/java/com/backpain/exercise/data/database/dao/ExerciseDao.kt:19-23 | a REPLACE batch insert adds exactly the batch's keys; rows whose key is not in the batch are untouched; for each key, the batch's last row with it is stored |
| Tables.InsertAllIsUnion | app/src/main/java/com/backpain/exercise/data/database/dao/ExerciseDao.kt:22-23 | a batch insert equals map union with the batch on the winning side |
| Tables.InsertAllIdempotent | app/src/main/java/com/backpain/exercise/data/database/dao/ExerciseDao.kt:22-23 | inserting the same batch twice leaves the table as one insert does |
| Tables.InsertAllDistinctSize | app/src/main/java/com/backpain/exercise/data/database/dao/ExerciseDao.kt:22-23 | a batch of n rows with distinct keys fills an empty table with exactly n rows |
| Tables.LastWithKey | app/src/main/java/com/backpain/exercise/data/database/dao/ExerciseDao.kt:22-23 | every key of a batch has a last occurrence, at or after any row with that key and with no later row sharing the key, and that row is the one stored |
| Tables.InsertAllKeepsKeyed | app/src/main/java/com/backpain/exercise/data/database/dao/ExerciseDao.kt:19-23 | REPLACE inserts keep every row stored under its own primary key, for the exercise table here and equally for the set table (ExerciseSetDao.kt:16-20) |
| Tables.UpdateCompletion | app/src/main/java/com/backpain/exercise/data/database/dao/ExerciseDao.kt:25-26 | the UPDATE changes only the completion flag of the row with that id; every other row and field is unchanged, and so is the key set |
| Tables.UpdateCompletionLaws | app/src/main/java/com/backpain/exercise/data/database/dao/ExerciseDao.kt:25-26 | the UPDATE is idempotent, the later of two updates on a row wins, and an unknown id changes nothing |
| Tables.SelectByIds | app/src/main/java/com/backpain/exercise/data/database/dao/ExerciseDao.kt:16-17 | `WHERE id IN` returns each stored row whose id is listed exactly once; no other row is returned |
| Repository.MapExercises | app/src/main/java/com/backpain/exercise/data/repository/ExerciseRepositoryImpl.kt:35 | mapping a list of rows succeeds iff every row's difficulty parses, and then maps each row, keeping order and length; a failure comes from some row |
| Repository.GetExerciseSets | app/src/main/java/com/backpain/exercise/data/repository/ExerciseRepositoryImpl.kt:21-25 | every stored set is returned, mapped; every returned set is the mapping of the stored row with its id; one result per row, so an empty table gives none |
| Repository.GetExerciseById | app/src/main/java/com/backpain/exercise/data/repository/ExerciseRepositoryImpl.kt:40-44 | an unknown id gives null; a stored id gives a present exercise exactly when its difficulty parses, namely the one whose row is the stored one (so its id is the requested one); otherwise it fails with that difficulty string |
| Repository.GetExercisesBySet | app/src/main/java/com/backpain/exercise/data/repository/ExerciseRepositoryImpl.kt:27-38 | an unknown set gives the empty list; for a known set, the result's ids are exactly the set's listed ids that are stored, each once, and each element maps back to its stored row |
| Repository.MarkExerciseCompleted | app/src/main/java/com/backpain/exercise/data/repository/ExerciseRepositoryImpl.kt:46-48 | only that row's completion flag becomes true; all other rows and both tables' key sets are unchanged |
| Repository.ResetExerciseCompletion | app/src/main/java/com/backpain/exercise/data/repository/ExerciseRepositoryImpl.kt:50-52 | only that row's completion flag becomes false; all other rows and both tables' key sets are unchanged |
| Repository.CompletionUpdateLaws | app/src/main/java/com/backpain/exercise/data/repository/ExerciseRepositoryImpl.kt:46-52 | mark and reset are idempotent, change nothing for an unknown id, and a reset undoes a mark of an uncompleted row |
| Repository.MarkThenRead | app/src/main/java/com/backpain/exercise/data/repository/ExerciseRepositoryImpl.kt:40-48 | after a mark, reading that exercise gives the same exercise with `isCompleted` true, and every other id reads as before |
| Seeder.SeedExercises | app/src/main/java/com/backpain/exercise/data/database/ExerciseDataSeeder.kt:13-198 | seeding stores each seeded exercise under its id and leaves rows with other ids untouched |
| Seeder.SeedExerciseSets | app/src/main/java/com/backpain/exercise/data/database/ExerciseDataSeeder.kt:200-244 | seeding stores each seeded set under its id and leaves rows with other ids untouched |
| Seeder.SeedAllData | app/src/main/java/com/backpain/exercise/data/database/ExerciseDataSeeder.kt:246-249 | both tables gain exactly the seeded keys; every seeded row is stored under its id; rows with other ids are untouched; a well-keyed database stays well-keyed |
| Seeder.SeedExercisesDistinct | app/src/main/java/com/backpain/exercise/data/database/ExerciseDataSeeder.kt:14-195 | exactly 11 exercises are seeded, with pairwise distinct ids |
| Seeder.SeedSetsDistinct | app/src/main/java/com/backpain/exercise/data/database/ExerciseDataSeeder.kt:201-241 | exactly 3 sets are seeded, with distinct ids and 4 exercise ids each |
| Seeder.SeedExercisesWellFormed | app/src/main/java/com/backpain/exercise/data/database/ExerciseDataSeeder.kt:21-29 | every seeded exercise has a positive duration, is not completed, has instructions, and has a difficulty `toDomainModel` accepts |
| Seeder.SeedSetsReferToSeededExercises | app/src/main/java/com/backpain/exercise/data/database/ExerciseDataSeeder.kt:207-238 | every id a seeded set lists is the id of a seeded exercise |
| Seeder.ChildPoseShared | app/src/main/java/com/backpain/exercise/data/database/ExerciseDataSeeder.kt:208-237 | `child_pose_001` is listed by the beginner and the flexibility set and by no other |
| Seeder.PlankSeeded | app/src/main/java/com/backpain/exercise/data/database/ExerciseDataSeeder.kt:15-30 | after seeding, `plank_001` reads back as "Plank", 30 seconds, BEGINNER, with instructions, not completed |
| Seeder.SeedTwice | app/src/main/java/com/backpain/exercise/data/database/ExerciseDataSeeder.kt:197 | seeding exercises, sets or everything twice gives the same database as seeding once |
| Seeder.SeededDatabaseSize | app/src/main/java/com/backpain/exercise/data/database/ExerciseDataSeeder.kt:246-249 | seeding an empty database gives a well-keyed database of 11 exercises and 3 sets, and seeding it again still leaves 11 exercises |
| Seeder.SeededDatabaseIntegrity | app/src/main/java/com/backpain/exercise/data/database/ExerciseDataSeeder.kt:201-241 | in the database seeded from empty every set refers only to stored exercises, and every stored exercise maps to the domain without error |
| Progress.CountCompleted | app/src/main/java/com/backpain/exercise/presentation/viewmodel/ExerciseSetDetailViewModel.kt:30 | the number of completed exercises never exceeds the number of exercises |
| Progress.CountExtremes | app/src/main/java/com/backpain/exercise/presentation/viewmodel/ExerciseSetDetailViewModel.kt:30 | the completed count is 0 iff no exercise is completed, and the list length iff every exercise is |
| Progress.CountAppend | app/src/main/java/com/backpain/exercise/presentation/viewmodel/ExerciseSetDetailViewModel.kt:30 | the completed count is additive over concatenation |
| Progress.CompletionProgress | app/src/main/java/com/backpain/exercise/presentation/viewmodel/ExerciseSetDetailViewModel.kt:26-33 | progress lies in [0, 100]; it is 0 iff the list is empty or nothing is completed, and 100 iff the list is non-empty and all are completed; times the size it equals 100 times the completed count |
| Progress.InitialProgressIsEmptyProgress | app/src/main/java/com/backpain/exercise/presentation/viewmodel/ExerciseSetDetailViewModel.kt:27-33 | the initial value before any load equals the progress of the empty list |
| Progress.CompleteOneCount | app/src/main/java/com/backpain/exercise/presentation/viewmodel/ExerciseSetDetailViewModel.kt:30 | completing one uncompleted exercise raises the count by exactly one |
| Progress.CompleteOneRaisesProgress | app/src/main/java/com/backpain/exercise/presentation/viewmodel/ExerciseSetDetailViewModel.kt:30-31 | completing one uncompleted exercise raises the progress by exactly 100 / size |
| Progress.TwoOfThree | app/src/main/java/com/backpain/exercise/presentation/viewmodel/ExerciseSetDetailViewModel.kt:30-31 | two of three completed gives 200/3, which is 66.67 within 0.01 |
| TimeFormat.QuotRem | app/src/main/java/com/backpain/exercise/presentation/viewmodel/ExerciseDetailViewModel.kt:100-101 | the minutes and seconds fields recombine to the input; the seconds field has the input's sign and magnitude below 60 |
| TimeFormat.Pad2 | app/src/main/java/com/backpain/exercise/presentation/viewmodel/ExerciseDetailViewModel.kt:102 | `%02d` gives at least two characters denoting the value: below 10 a zero then the digit, from 10 on the digits without a leading zero, and a negative value as a minus sign and the digits of its magnitude, again without a leading zero |
| TimeFormat.ParsePad2 | app/src/main/java/com/backpain/exercise/presentation/viewmodel/ExerciseDetailViewModel.kt:102 | a field printed by `%02d` reads back to its value |
| TimeFormat.FormatTime | app/src/main/java/com/backpain/exercise/presentation/viewmodel/ExerciseDetailViewModel.kt:99-103 | reading the two fields back gives the input for every 32-bit value; the seconds field is below 60 in magnitude and has the input's sign, so the minutes field is the truncated quotient; from 0 to 5999 the result is exactly `MM:SS` with two digits each side; for non-negative input both fields are plain digits, and from 600 on the minutes field has no leading zero (6000 gives "100:00"); for non-negative input the seconds field has two characters |
| TimeFormat.FormatExamples | app/src/main/java/com/backpain/exercise/presentation/viewmodel/ExerciseDetailViewModel.kt:99-103 | 30 and 0 seconds format as "00:30" and "00:00" |
| TimeFormat.FormatMinuteExamples | app/src/main/java/com/backpain/exercise/presentation/viewmodel/ExerciseDetailViewModel.kt:99-103 | 60 and 150 seconds format as "01:00" and "02:30" |
| ExerciseTimer.LoadExercise | app/src/main/java/com/backpain/exercise/presentation/viewmodel/ExerciseDetailViewModel.kt:39-53 | the counter becomes the fetched exercise's duration, or 0 when it is absent; the running flag and the log are untouched |
| ExerciseTimer.Complete | app/src/main/java/com/backpain/exercise/presentation/viewmodel/ExerciseDetailViewModel.kt:67-73 | the loop exit stops the timer and keeps the counter; with an exercise bound it logs exactly one completion for it and marks it completed locally; without one it logs nothing |
| ExerciseTimer.StartTimer | app/src/main/java/com/backpain/exercise/presentation/viewmodel/ExerciseDetailViewModel.kt:55-75 | a no-op while running; never changes the counter; afterwards the timer runs iff it ran before or time was left; with nothing left it completes at once |
| ExerciseTimer.Tick | app/src/main/java/com/backpain/exercise/presentation/viewmodel/ExerciseDetailViewModel.kt:60-73 | nothing changes while stopped; while running a positive counter drops by exactly 1 and never below 0; the timer keeps running iff more than one second was left; when it stops, the completion happens in the same step |
| ExerciseTimer.PauseTimer | app/src/main/java/com/backpain/exercise/presentation/viewmodel/ExerciseDetailViewModel.kt:77-80 | the timer stops with counter, exercise and log unchanged |
| ExerciseTimer.ResumeTimer | app/src/main/java/com/backpain/exercise/presentation/viewmodel/ExerciseDetailViewModel.kt:82-86 | with time left and stopped it acts as `startTimer` and runs; otherwise it changes nothing; it never changes the counter or the log |
| ExerciseTimer.ResetTimer | app/src/main/java/com/backpain/exercise/presentation/viewmodel/ExerciseDetailViewModel.kt:88-97 | the timer always stops; with an exercise bound the counter becomes its duration, one reset is logged and it is un-completed locally; with none nothing else changes |
| ExerciseTimer.StepKeepsInv | app/src/main/java/com/backpain/exercise/presentation/viewmodel/ExerciseDetailViewModel.kt:39-97 | every operation keeps `0 <= remainingTime <= durationSeconds`, as long as a loaded exercise has a non-negative duration |
| ExerciseTimer.RunKeepsInv | app/src/main/java/com/backpain/exercise/presentation/viewmodel/ExerciseDetailViewModel.kt:39-97 | so does every sequence of such events |
| ExerciseTimer.TicksWhileStopped | app/src/main/java/com/backpain/exercise/presentation/viewmodel/ExerciseDetailViewModel.kt:77-80 | while stopped, any number of seconds changes nothing |
| ExerciseTimer.CountDown | app/src/main/java/com/backpain/exercise/presentation/viewmodel/ExerciseDetailViewModel.kt:60-65 | while running, k seconds short of the end remove exactly k from the counter and change nothing else |
| ExerciseTimer.TicksUntilDone | app/src/main/java/com/backpain/exercise/presentation/viewmodel/ExerciseDetailViewModel.kt:60-73 | with n seconds left, n seconds reach 0 and end in the completion |
| ExerciseTimer.CountdownCompletesOnce | app/src/main/java/com/backpain/exercise/presentation/viewmodel/ExerciseDetailViewModel.kt:60-73 | however many seconds pass after the end, the counter is 0, the timer stopped, exactly one completion logged, and the exercise completed locally |
| ExerciseTimer.PauseLaws | app/src/main/java/com/backpain/exercise/presentation/viewmodel/ExerciseDetailViewModel.kt:77-80 | pausing twice equals pausing once, and no second elapses while paused |
| ExerciseTimer.PauseResumeContinues | app/src/main/java/com/backpain/exercise/presentation/viewmodel/ExerciseDetailViewModel.kt:77-86 | with any time left, pause then resume returns to the same running state; the next second removes exactly one |
| ExerciseTimer.LoadDoesNotCancel | app/src/main/java/com/backpain/exercise/presentation/viewmodel/ExerciseDetailViewModel.kt:39-53 | loading while running leaves the countdown going on the new exercise's duration |
| ExerciseTimer.StartAtZeroCompletesAgain | app/src/main/java/com/backpain/exercise/presentation/viewmodel/ExerciseDetailViewModel.kt:55-73 | starting a stopped timer at 0 logs one more completion |
| ExerciseTimer.ResetRestores | app/src/main/java/com/backpain/exercise/presentation/viewmodel/ExerciseDetailViewModel.kt:88-97 | after any history, a fresh view-model's included, a reset stops the timer; if an exercise is bound it restores its full duration and logs exactly one more reset, for it; if none is bound nothing else changes |
| ExerciseTimer.EndToEndScenario | app/src/main/java/com/backpain/exercise/presentation/viewmodel/ExerciseDetailViewModel.kt:55-86 | 5 s: start, 2 s → 3 running; pause → 3 stopped; resume, 3 s → 0 stopped with exactly one completion logged |
| ExerciseTimer.ResumeScenario | app/src/main/java/com/backpain/exercise/presentation/viewmodel/ExerciseDetailViewModel.kt:77-86 | 10 s: start, 3 s, pause → 7 stopped; resume, 2 s → 5 running, nothing logged |
| TimerScreen.TimerControls | app/src/main/java/com/backpain/exercise/presentation/screens/exercise/ExerciseDetailScreen.kt:292-343 | Reset whenever completed or at 0; Pause iff not so and running; stopped with time left gives Resume below the full duration, else Start; nothing iff not completed, stopped and negative; the text always names the call made |
| TimerScreen.StatusLabel | app/src/main/java/com/backpain/exercise/presentation/screens/exercise/ExerciseDetailScreen.kt:177-179 | "Completed!" iff the counter is 0; otherwise "Exercise in Progress..." iff running, and "Ready to Start" iff stopped |
| TimerScreen.ReachableStatesOfferAControl | app/src/main/java/com/backpain/exercise/presentation/screens/exercise/ExerciseDetailScreen.kt:188-197 | in every state the timer invariant allows, a button is shown, and Start only at the full duration |
| TimerScreen.ShownButtonActs | app/src/main/java/com/backpain/exercise/presentation/screens/exercise/ExerciseDetailScreen.kt:292-343 | the shown button does what its text says: Start/Resume run the timer from the same value and behave identically, Pause stops it in place, Reset stops it at full duration |
| TimerScreen.FinishedScreen | app/src/main/java/com/backpain/exercise/presentation/screens/exercise/ExerciseDetailScreen.kt:177-179 | once a countdown runs out the screen says "Completed!" and offers Reset |
| Session.ApplyEffect | app/src/main/java/com/backpain/exercise/data/repository/ExerciseRepositoryImpl.kt:46-52 | one logged call sets the named row's completion flag (true for a mark, false for a reset) and changes nothing else |
| Session.ApplyEffects | app/src/main/java/com/backpain/exercise/presentation/viewmodel/ExerciseDetailViewModel.kt:67-97 | carrying out logged calls in order keeps both tables' keys and validity, changes no field but completion flags, and leaves every row no call names untouched |
| Session.ApplyEffectsLastWins | app/src/main/java/com/backpain/exercise/data/repository/ExerciseRepositoryImpl.kt:46-52 | a row named by logged calls ends with the flag the last call naming it sets: completed after a mark, not completed after a reset |
| Session.CountdownPersistsCompletion | app/src/main/java/com/backpain/exercise/data/repository/ExerciseRepositoryImpl.kt:46-48 | a countdown run out and persisted leaves its exercise's row completed and every other row as it was |

## Left out

- Coroutines, `Flow`/`StateFlow`, `viewModelScope`, `Job.cancel` and `delay` are replaced by explicit events; real-time scheduling and cancellation races are not modelled. Each query reads the database once: a Room `Flow` re-emitting after a later write would be another `OnLoad` event. In the app, the completion write itself makes the detail query re-emit, and that reload sets the counter back to the full duration, so "Completed!" shows only briefly; `TimerScreen.FinishedScreen` describes the state before that reload.
- `isLoading` and the `try`/`catch` blocks are loading plumbing. A fetch that throws sets nothing, which is the same as no `OnLoad` event.
- `onCleared` (cancels the job when the screen goes away) is not modelled; there is no disposal.
- The use cases (`GetExerciseDetailUseCase`, `GetExerciseSetsUseCase`, `GetExercisesBySetUseCase`, `MarkExerciseCompletedUseCase`) are one-line pass-throughs to the repository and are not modelled separately.
- Session.ApplyEffect: `ResetExerciseCompletionUseCase` is not part of this model; the model assumes it ends in `resetExerciseCompletion` of the repository (ExerciseRepositoryImpl.kt:50-52) and completes before the next event, although `resetTimer` invokes it outside any coroutine.
- The `DifficultyLevel` source file is not part of this model; the three constants are the ones the mapper tests use.
- The `List<String>` columns (`instructions`, `exerciseIds`) are stored through the `Converters` type converters named in `AppDatabase`; that class is not part of this model, and the model assumes they read back unchanged.
- The default argument `isCompleted = false` of the data classes is not a separate constructor.
- Compose layout, icons, colours, the animation, the other screens, navigation, dependency injection and `AppDatabase` are UI or framework wiring.
- The DAO statements the core never calls (`getAllExercises`, `clearAll...`) are not modelled.
- Repository.GetExerciseSets: returns a set, because the `ORDER BY name` of the query is not modelled.
- Repository.GetExercisesBySet: the order of `WHERE id IN` is unspecified in SQL; the model picks first-listed order, and only its contents are stated.
- Tables.SelectByIds: likewise states contents and no order.
- Progress.CompletionProgress: computed over exact reals, not IEEE doubles, so 200/3 is exact rather than the nearest double.
- TimeFormat.FormatTime: prints ASCII digits; `String.format` uses the default locale, whose digits might differ.
