/** The domain layer: `Exercise`, `ExerciseSet` and `DifficultyLevel`. */
module Domain {
  import opened Wrappers

  /** Kotlin's `Int`: a signed 32-bit integer. */
  newtype int32 = x: int | -0x8000_0000 <= x < 0x8000_0000

  /** The three difficulty constants of the app, in declaration order. */
  datatype DifficultyLevel = Beginner | Intermediate | Advanced {

    /** The enum constant's `name`, the form in which it is stored. */
    function Name(): (n: string) {
      match this
      case Beginner => "BEGINNER"
      case Intermediate => "INTERMEDIATE"
      case Advanced => "ADVANCED"
    }
  }

  /** `DifficultyLevel.valueOf`: exact, case-sensitive lookup by name; `None`
      stands for the `IllegalArgumentException` thrown for any other string. */
  function ValueOf(name: string): (r: Option<DifficultyLevel>)
    ensures r.Some? ==> r.value.Name() == name
    ensures r.None? ==> forall l: DifficultyLevel :: l.Name() != name
  {
    if name == "BEGINNER" then Some(Beginner)
    else if name == "INTERMEDIATE" then Some(Intermediate)
    else if name == "ADVANCED" then Some(Advanced)
    else None
  }

  /** Distinct constants have distinct names, so `valueOf` inverts `name`. */
  lemma ValueOfName(l: DifficultyLevel)
    ensures ValueOf(l.Name()) == Some(l)
  {
  }

  /** One exercise as the presentation layer sees it. The source gives
      `isCompleted` the default `false`. */
  datatype Exercise = Exercise(
    id: string,
    title: string,
    description: string,
    illustrationResourceId: int32,
    youtubeVideoId: Option<string>,
    durationSeconds: int32,
    difficultyLevel: DifficultyLevel,
    instructions: seq<string>,
    isCompleted: bool)

  /** A named, ordered group of exercise ids. */
  datatype ExerciseSet = ExerciseSet(
    id: string,
    name: string,
    description: string,
    iconResourceId: int32,
    exerciseIds: seq<string>,
    estimatedDurationMinutes: int32)
}
