/** The two Room table rows. The difficulty is stored as its enum name. */
module Entities {
  import opened Wrappers
  import opened Domain

  /** A row of the `exercises` table; `id` is the primary key. */
  datatype ExerciseEntity = ExerciseEntity(
    id: string,
    title: string,
    description: string,
    illustrationResourceId: int32,
    youtubeVideoId: Option<string>,
    durationSeconds: int32,
    difficultyLevel: string,
    instructions: seq<string>,
    isCompleted: bool)

  /** A row of the `exercise_sets` table; `id` is the primary key. */
  datatype ExerciseSetEntity = ExerciseSetEntity(
    id: string,
    name: string,
    description: string,
    iconResourceId: int32,
    exerciseIds: seq<string>,
    estimatedDurationMinutes: int32)
}
