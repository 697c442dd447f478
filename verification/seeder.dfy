/** `ExerciseDataSeeder`: the built-in content, written with REPLACE inserts. */
module Seeder {
  import opened Wrappers
  import opened Domain
  import opened Entities
  import opened Mappers
  import opened Tables
  import opened Repository

  /** The exercise rows of `seedExercises`. */
  const Plank: ExerciseEntity :=
    ExerciseEntity(
      "plank_001", "Plank", "Core strengthening exercise", 2131165184, Some("ASdvN_XEl_c"), 30, "BEGINNER",
      [
        "Start in push-up position with hands shoulder-width apart",
        "Engage your core muscles and keep your body in a straight line",
        "Hold the position without letting your hips drop",
        "Breathe normally throughout the exercise"],
      false)

  const BackArch: ExerciseEntity :=
    ExerciseEntity(
      "back_arch_001", "Back Arch", "Extension and flexibility exercise", 2131165185, Some("Rm3sEjqXpLk"), 45, "BEGINNER",
      [
        "Lie on your stomach with hands under your shoulders",
        "Gently press up, lifting your chest off the floor",
        "Keep your hips on the ground and look forward",
        "Hold for a few seconds, then slowly lower back down"],
      false)

  const BirdDog: ExerciseEntity :=
    ExerciseEntity(
      "bird_dog_001", "Bird Dog", "Balance and core stability exercise", 2131165186, Some("LrBQPOQ3QGs"), 60, "BEGINNER",
      [
        "Start on all fours with hands under shoulders and knees under hips",
        "Extend your right arm forward and left leg backward",
        "Keep your back straight and core engaged",
        "Hold for 3 seconds, then return to start position",
        "Alternate sides and repeat"],
      false)

  const TablePose: ExerciseEntity :=
    ExerciseEntity(
      "table_pose_001", "Table Pose", "Strength and stability exercise", 2131165187, Some("M9kA8X3k-wE"), 40, "BEGINNER",
      [
        "Start on all fours with hands under shoulders",
        "Lift your knees off the floor, keeping your back parallel to ground",
        "Hold the position while maintaining core engagement",
        "Slowly lower knees back to starting position"],
      false)

  const ChildPose: ExerciseEntity :=
    ExerciseEntity(
      "child_pose_001", "Child Pose", "Gentle stretch and relaxation", 2131165188, Some("9kGLBpoIFQ8"), 60, "BEGINNER",
      [
        "Kneel on the floor with big toes touching",
        "Sit back on your heels and fold forward",
        "Rest your forehead on the floor and extend arms forward",
        "Breathe deeply and relax into the stretch"],
      false)

  const Extension: ExerciseEntity :=
    ExerciseEntity(
      "extension_001", "Extension Exercise", "Back extension movement", 2131165189, Some("Gb98g5V8Ie4"), 50, "INTERMEDIATE",
      [
        "Lie face down with hands behind your head",
        "Gently lift your chest off the floor using back muscles",
        "Keep your neck in line with your spine",
        "Lower slowly and repeat the movement"],
      false)

  const CatPose: ExerciseEntity :=
    ExerciseEntity(
      "cat_pose_001", "Cat Pose", "Spinal flexibility exercise", 2131165190, Some("YRQk6TmPjSc"), 45, "BEGINNER",
      [
        "Start on all fours with hands under shoulders",
        "Arch your back up toward the ceiling like a cat",
        "Tuck your chin to your chest",
        "Hold for a few seconds, then return to neutral",
        "Repeat the movement rhythmically"],
      false)

  const PelvicTilt: ExerciseEntity :=
    ExerciseEntity(
      "pelvic_tilt_001", "Pelvic Tilt", "Core and lower back engagement", 2131165191, Some("M7Z13tj_9e0"), 35, "BEGINNER",
      [
        "Lie on your back with knees bent and feet flat on floor",
        "Tighten your abdominal muscles and flatten your lower back against floor",
        "Hold for 5 seconds, then relax",
        "Repeat the movement in a controlled manner"],
      false)

  const GlutealStretch: ExerciseEntity :=
    ExerciseEntity(
      "gluteal_stretch_001", "Gluteal Stretch", "Hip and glute flexibility", 2131165192, Some("pexiK2j9I_4"), 55, "BEGINNER",
      [
        "Lie on your back with knees bent",
        "Cross one ankle over the opposite knee",
        "Gently pull the bottom leg toward your chest",
        "Feel the stretch in your glute and hip area",
        "Hold and switch sides"],
      false)

  const SidePlank: ExerciseEntity :=
    ExerciseEntity(
      "side_plank_001", "Side Plank", "Lateral core strengthening", 2131165193, Some("EiU1i6sYb8M"), 30, "INTERMEDIATE",
      [
        "Lie on your side with legs straight",
        "Prop yourself up on your forearm",
        "Lift your hips to create a straight line",
        "Engage your core and hold the position",
        "Switch sides and repeat"],
      false)

  const Bridge: ExerciseEntity :=
    ExerciseEntity(
      "bridge_001", "Bridge", "Glute and lower back strengthening", 2131165194, Some("A5-tE0c_5V0"), 60, "INTERMEDIATE",
      [
        "Lie on your back with knees bent and feet flat",
        "Lift your hips off the floor until body forms straight line",
        "Squeeze your glutes at the top of the movement",
        "Hold for a few seconds, then slowly lower back down"],
      false)

  /** The eleven exercise rows `seedExercises` inserts, in source order. */
  const SeedExerciseRows: seq<ExerciseEntity> := [
    Plank, BackArch, BirdDog, TablePose, ChildPose, Extension,
    CatPose, PelvicTilt, GlutealStretch, SidePlank, Bridge]

  /** The set rows of `seedExerciseSets`. */
  const BeginnerSetRow: ExerciseSetEntity :=
    ExerciseSetEntity(
      "beginner_set", "Beginner Set", "Gentle movements for pain relief", 2131165195,
      ["child_pose_001", "cat_pose_001", "pelvic_tilt_001", "gluteal_stretch_001"],
      15)

  const CoreStrengthSetRow: ExerciseSetEntity :=
    ExerciseSetEntity(
      "core_strength_set", "Core Strength", "Building support muscles", 2131165196,
      ["plank_001", "side_plank_001", "bridge_001", "bird_dog_001"],
      20)

  const FlexibilitySetRow: ExerciseSetEntity :=
    ExerciseSetEntity(
      "flexibility_set", "Flexibility", "Improving range of motion", 2131165197,
      ["back_arch_001", "extension_001", "table_pose_001", "child_pose_001"],
      18)

  /** The three set rows `seedExerciseSets` inserts, in source order. */
  const SeedSetRows: seq<ExerciseSetEntity> := [BeginnerSetRow, CoreStrengthSetRow, FlexibilitySetRow]

  /** `seedExercises`: one batch REPLACE insert into the `exercises` table. */
  function SeedExercises(db: Database): (r: Database)
    ensures r.sets == db.sets
    ensures r.exercises.Keys == db.exercises.Keys + Keys(SeedExerciseRows, ExerciseKey)
    ensures forall i :: 0 <= i < |SeedExerciseRows| ==> r.exercises[SeedExerciseRows[i].id] == SeedExerciseRows[i]
    ensures forall k :: k in db.exercises && k !in Keys(SeedExerciseRows, ExerciseKey) ==> r.exercises[k] == db.exercises[k]
    ensures db.Valid() ==> r.Valid()
  {
    SeedExercisesDistinct();
    InsertAllKeepsKeyed(db.exercises, SeedExerciseRows, ExerciseKey);
    db.(exercises := InsertAll(db.exercises, SeedExerciseRows, ExerciseKey))
  }

  /** `seedExerciseSets`: one batch REPLACE insert into the `exercise_sets` table. */
  function SeedExerciseSets(db: Database): (r: Database)
    ensures r.exercises == db.exercises
    ensures r.sets.Keys == db.sets.Keys + Keys(SeedSetRows, SetKey)
    ensures forall i :: 0 <= i < |SeedSetRows| ==> r.sets[SeedSetRows[i].id] == SeedSetRows[i]
    ensures forall k :: k in db.sets && k !in Keys(SeedSetRows, SetKey) ==> r.sets[k] == db.sets[k]
    ensures db.Valid() ==> r.Valid()
  {
    SeedSetsDistinct();
    InsertAllKeepsKeyed(db.sets, SeedSetRows, SetKey);
    db.(sets := InsertAll(db.sets, SeedSetRows, SetKey))
  }

  /** `seedAllData`: exercises first, then sets. */
  function SeedAllData(db: Database): (r: Database)
    ensures db.Valid() ==> r.Valid()
    ensures forall i :: 0 <= i < |SeedExerciseRows| ==>
              SeedExerciseRows[i].id in r.exercises && r.exercises[SeedExerciseRows[i].id] == SeedExerciseRows[i]
    ensures forall i :: 0 <= i < |SeedSetRows| ==> SeedSetRows[i].id in r.sets && r.sets[SeedSetRows[i].id] == SeedSetRows[i]
    ensures r.exercises.Keys == db.exercises.Keys + Keys(SeedExerciseRows, ExerciseKey)
    ensures r.sets.Keys == db.sets.Keys + Keys(SeedSetRows, SetKey)
    ensures forall k :: k in db.exercises && k !in Keys(SeedExerciseRows, ExerciseKey) ==> r.exercises[k] == db.exercises[k]
    ensures forall k :: k in db.sets && k !in Keys(SeedSetRows, SetKey) ==> r.sets[k] == db.sets[k]
  {
    SeedExerciseSets(SeedExercises(db))
  }

  /** Eleven exercises with pairwise distinct ids. */
  lemma SeedExercisesDistinct()
    ensures |SeedExerciseRows| == 11
    ensures DistinctKeys(SeedExerciseRows, ExerciseKey)
  {
  }

  /** Three sets with pairwise distinct ids, four exercise ids each. */
  lemma SeedSetsDistinct()
    ensures |SeedSetRows| == 3
    ensures DistinctKeys(SeedSetRows, SetKey)
    ensures forall i :: 0 <= i < |SeedSetRows| ==> |SeedSetRows[i].exerciseIds| == 4
  {
  }

  /** Every seeded exercise has a positive duration, starts not completed,
      has instructions, and stores a difficulty `toDomainModel` accepts. */
  lemma SeedExercisesWellFormed()
    ensures forall i :: 0 <= i < |SeedExerciseRows| ==>
              && SeedExerciseRows[i].durationSeconds > 0
              && !SeedExerciseRows[i].isCompleted
              && |SeedExerciseRows[i].instructions| > 0
              && ExerciseToDomain(SeedExerciseRows[i]).Success?
  {
  }

  /** Every id a seeded set lists is the id of a seeded exercise. */
  lemma SeedSetsReferToSeededExercises()
    ensures forall i, j :: 0 <= i < |SeedSetRows| && 0 <= j < |SeedSetRows[i].exerciseIds| ==>
              SeedSetRows[i].exerciseIds[j] in Keys(SeedExerciseRows, ExerciseKey)
  {
    var ks := Keys(SeedExerciseRows, ExerciseKey);
    // For set i, position j: the index of the listed exercise among the seeded ones.
    var at := [[4, 6, 7, 8], [0, 9, 10, 2], [1, 5, 3, 4]];
    forall i, j | 0 <= i < |SeedSetRows| && 0 <= j < |SeedSetRows[i].exerciseIds|
      ensures SeedSetRows[i].exerciseIds[j] in ks
    {
      var n := at[i][j];
      assert SeedExerciseRows[n].id == SeedSetRows[i].exerciseIds[j];
      assert ExerciseKey(SeedExerciseRows[n]) in ks;
    }
  }

  /** `child_pose_001` is listed by both the beginner and the flexibility set,
      and by no other seeded set. */
  lemma ChildPoseShared()
    ensures forall i :: 0 <= i < |SeedSetRows| ==>
              ("child_pose_001" in SeedSetRows[i].exerciseIds <==> SeedSetRows[i].id in {"beginner_set", "flexibility_set"})
  {
  }

  /** After seeding, `plank_001` reads back as the 30-second beginner "Plank"
      with instructions, not completed. */
  lemma PlankSeeded(db: Database)
    requires db.Valid()
    ensures var r := GetExerciseById(SeedExercises(db), "plank_001");
            && r.Success? && r.value.Some?
            && r.value.value.title == "Plank"
            && r.value.value.durationSeconds == 30
            && r.value.value.difficultyLevel == Beginner
            && |r.value.value.instructions| > 0
            && !r.value.value.isCompleted
  {
    assert SeedExerciseRows[0] == Plank;
  }

  /** Seeding is idempotent: REPLACE inserts overwrite rows with equal ids. */
  lemma SeedTwice(db: Database)
    ensures SeedExercises(SeedExercises(db)) == SeedExercises(db)
    ensures SeedExerciseSets(SeedExerciseSets(db)) == SeedExerciseSets(db)
    ensures SeedAllData(SeedAllData(db)) == SeedAllData(db)
  {
    InsertAllIdempotent(db.exercises, SeedExerciseRows, ExerciseKey);
    InsertAllIdempotent(db.sets, SeedSetRows, SetKey);
  }

  /** The empty database. */
  const Empty := Database(map[], map[])

  /** Seeding an empty database, once or twice, gives 11 exercises and 3 sets. */
  lemma SeededDatabaseSize()
    ensures SeedAllData(Empty).Valid()
    ensures |SeedAllData(Empty).exercises| == 11 && |SeedAllData(Empty).sets| == 3
    ensures |SeedAllData(SeedAllData(Empty)).exercises| == 11
  {
    SeedExercisesDistinct();
    SeedSetsDistinct();
    InsertAllDistinctSize(SeedExerciseRows, ExerciseKey);
    InsertAllDistinctSize(SeedSetRows, SetKey);
    SeedTwice(Empty);
  }

  /** In a freshly seeded database every set refers only to stored
      exercises, and every stored exercise reads back without error. */
  lemma SeededDatabaseIntegrity()
    ensures var db := SeedAllData(Empty);
            && (forall k, j :: k in db.sets && 0 <= j < |db.sets[k].exerciseIds| ==> db.sets[k].exerciseIds[j] in db.exercises)
            && (forall k :: k in db.exercises ==> ExerciseToDomain(db.exercises[k]).Success?)
  {
    var db := SeedAllData(Empty);
    SeedSetsReferToSeededExercises();
    SeedExercisesWellFormed();
    forall k, j | k in db.sets && 0 <= j < |db.sets[k].exerciseIds| ensures db.sets[k].exerciseIds[j] in db.exercises {
      KeyHasRow(SeedSetRows, SetKey, k);
      var i :| 0 <= i < |SeedSetRows| && SetKey(SeedSetRows[i]) == k;
      assert db.sets[k] == SeedSetRows[i];
    }
    forall k | k in db.exercises ensures ExerciseToDomain(db.exercises[k]).Success? {
      KeyHasRow(SeedExerciseRows, ExerciseKey, k);
      var i :| 0 <= i < |SeedExerciseRows| && ExerciseKey(SeedExerciseRows[i]) == k;
      assert db.exercises[k] == SeedExerciseRows[i];
    }
  }
}
