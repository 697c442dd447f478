/** Conversions between Room rows and domain values. */
module Mappers {
  import opened Wrappers
  import opened Domain
  import opened Entities

  /** What `toDomainModel` can throw: `valueOf` rejecting a stored difficulty. */
  datatype MappingError = UnknownDifficulty(name: string)

  /** True when every field of `x` but the difficulty equals the row's field. */
  predicate SameExerciseFields(x: Exercise, e: ExerciseEntity) {
    && x.id == e.id
    && x.title == e.title
    && x.description == e.description
    && x.illustrationResourceId == e.illustrationResourceId
    && x.youtubeVideoId == e.youtubeVideoId
    && x.durationSeconds == e.durationSeconds
    && x.instructions == e.instructions
    && x.isCompleted == e.isCompleted
  }

  /** `ExerciseEntity.toDomainModel`: copies every field; the stored
      difficulty string goes through `valueOf`, which throws on any string
      that is not a constant's name. */
  function ExerciseToDomain(e: ExerciseEntity): (r: Result<Exercise, MappingError>)
    ensures r.Success? <==> ValueOf(e.difficultyLevel).Some?
    ensures r.Success? ==> SameExerciseFields(r.value, e) && r.value.difficultyLevel.Name() == e.difficultyLevel
    ensures r.Failure? ==> r.error == UnknownDifficulty(e.difficultyLevel)
  {
    match ValueOf(e.difficultyLevel)
    case Some(level) =>
      Success(Exercise(e.id, e.title, e.description, e.illustrationResourceId, e.youtubeVideoId,
                       e.durationSeconds, level, e.instructions, e.isCompleted))
    case None => Failure(UnknownDifficulty(e.difficultyLevel))
  }

  /** `Exercise.toEntity`: copies every field; the difficulty becomes its name. */
  function ExerciseToEntity(x: Exercise): (e: ExerciseEntity)
    ensures SameExerciseFields(x, e)
    ensures e.difficultyLevel == x.difficultyLevel.Name()
    ensures ValueOf(e.difficultyLevel) == Some(x.difficultyLevel)
  {
    ValueOfName(x.difficultyLevel);
    ExerciseEntity(x.id, x.title, x.description, x.illustrationResourceId, x.youtubeVideoId,
                   x.durationSeconds, x.difficultyLevel.Name(), x.instructions, x.isCompleted)
  }

  /** Domain -> row -> domain is the identity on every exercise. */
  lemma ExerciseRoundTrip(x: Exercise)
    ensures ExerciseToDomain(ExerciseToEntity(x)) == Success(x)
  {
  }

  /** Row -> domain -> row is the identity on every row whose difficulty is a
      constant's name, and only on those. */
  lemma ExerciseEntityRoundTrip(e: ExerciseEntity)
    ensures ExerciseToDomain(e).Success? <==> e.difficultyLevel in {"BEGINNER", "INTERMEDIATE", "ADVANCED"}
    ensures ExerciseToDomain(e).Success? ==> ExerciseToEntity(ExerciseToDomain(e).value) == e
  {
  }

  /** Two domain exercises with the same row are the same exercise. */
  lemma ExerciseToEntityInjective(x: Exercise, y: Exercise)
    requires ExerciseToEntity(x) == ExerciseToEntity(y)
    ensures x == y
  {
    ExerciseRoundTrip(x);
    ExerciseRoundTrip(y);
  }

  /** `ExerciseSetEntity.toDomainModel`: copies all six fields. */
  function SetToDomain(e: ExerciseSetEntity): (s: ExerciseSet)
    ensures s.id == e.id && s.name == e.name && s.description == e.description
    ensures s.iconResourceId == e.iconResourceId && s.estimatedDurationMinutes == e.estimatedDurationMinutes
    ensures s.exerciseIds == e.exerciseIds
  {
    ExerciseSet(e.id, e.name, e.description, e.iconResourceId, e.exerciseIds, e.estimatedDurationMinutes)
  }

  /** `ExerciseSet.toEntity`: copies all six fields. */
  function SetToEntity(s: ExerciseSet): (e: ExerciseSetEntity)
    ensures e.id == s.id && e.name == s.name && e.description == s.description
    ensures e.iconResourceId == s.iconResourceId && e.estimatedDurationMinutes == s.estimatedDurationMinutes
    ensures e.exerciseIds == s.exerciseIds
  {
    ExerciseSetEntity(s.id, s.name, s.description, s.iconResourceId, s.exerciseIds, s.estimatedDurationMinutes)
  }

  /** Both compositions of the set mappers are the identity. */
  lemma SetRoundTrips(s: ExerciseSet, e: ExerciseSetEntity)
    ensures SetToDomain(SetToEntity(s)) == s
    ensures SetToEntity(SetToDomain(e)) == e
  {
  }

  /** Mapping two sets that share an exercise id keeps that id, at the same
      position, in both mapped rows. */
  lemma SharedExerciseIdKept(a: ExerciseSet, b: ExerciseSet, i: nat, j: nat)
    requires i < |a.exerciseIds| && j < |b.exerciseIds|
    requires a.exerciseIds[i] == b.exerciseIds[j]
    ensures SetToEntity(a).exerciseIds[i] == SetToEntity(b).exerciseIds[j] == a.exerciseIds[i]
  {
  }
}
