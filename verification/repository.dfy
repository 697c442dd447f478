/** `ExerciseRepositoryImpl` over the two tables. Each `Flow` is read once:
    a query is a function of the current database contents. */
module Repository {
  import opened Wrappers
  import opened Domain
  import opened Entities
  import opened Mappers
  import opened Tables

  /** The app database: the `exercises` and `exercise_sets` tables. */
  datatype Database = Database(exercises: ExerciseTable, sets: SetTable) {
    /** Both tables hold each row under its primary key. */
    predicate Valid() {
      KeyedBy(exercises, ExerciseKey) && KeyedBy(sets, SetKey)
    }
  }

  /** `entities.map { it.toDomainModel() }`: maps every row in order; the
      first row whose difficulty does not parse throws, ending the mapping. */
  function MapExercises(rows: seq<ExerciseEntity>): (r: Result<seq<Exercise>, MappingError>)
    ensures r.Success? <==> forall i :: 0 <= i < |rows| ==> ExerciseToDomain(rows[i]).Success?
    ensures r.Success? ==> |r.value| == |rows| && forall i :: 0 <= i < |rows| ==> ExerciseToDomain(rows[i]) == Success(r.value[i])
    ensures r.Failure? ==> exists i :: 0 <= i < |rows| && ExerciseToDomain(rows[i]) == Failure(r.error)
    decreases |rows|
  {
    if |rows| == 0 then Success([])
    else
      match ExerciseToDomain(rows[0])
      case Failure(err) => Failure(err)
      case Success(x) =>
        match MapExercises(rows[1..])
        case Failure(err) => Failure(err)
        case Success(xs) => Success([x] + xs)
  }

  /** `getExerciseSets`: every stored set, mapped. The `ORDER BY name` of the
      query is not modelled, so the result is a set. */
  function GetExerciseSets(db: Database): (r: set<ExerciseSet>)
    requires db.Valid()
    ensures forall k :: k in db.sets ==> SetToDomain(db.sets[k]) in r
    ensures forall x :: x in r ==> x.id in db.sets && db.sets[x.id] == SetToEntity(x)
    ensures |r| == |db.sets|
  {
    var r := set k | k in db.sets :: SetToDomain(db.sets[k]);
    SetsCount(db.sets);
    r
  }

  /** Mapping distinct rows of a keyed set table gives as many sets as rows. */
  lemma SetsCount(t: SetTable)
    requires KeyedBy(t, SetKey)
    ensures |set k | k in t :: SetToDomain(t[k])| == |t|
  {
    var img := set k | k in t :: SetToDomain(t[k]);
    var ids := set x | x in img :: x.id;
    forall k | k in t ensures k in ids {
      assert SetToDomain(t[k]) in img;
    }
    assert ids == t.Keys;
    ImageSize(img);
  }

  /** A set of exercise sets with pairwise distinct ids has one id per element. */
  lemma {:induction false} ImageSize(xs: set<ExerciseSet>)
    requires forall a, b :: a in xs && b in xs && a.id == b.id ==> a == b
    ensures |set x | x in xs :: x.id| == |xs|
    decreases |xs|
  {
    if xs != {} {
      var a :| a in xs;
      var rest := xs - {a};
      ImageSize(rest);
      assert (set x | x in xs :: x.id) == (set x | x in rest :: x.id) + {a.id};
      assert a.id !in (set x | x in rest :: x.id);
    }
  }

  /** `getExerciseById`: the stored row mapped to the domain, `None` for an
      unknown id; a stored row whose difficulty does not parse throws. */
  function GetExerciseById(db: Database, id: string): (r: Result<Option<Exercise>, MappingError>)
    requires db.Valid()
    ensures id !in db.exercises ==> r == Success(None)
    ensures id in db.exercises ==> (r.Success? <==> ExerciseToDomain(db.exercises[id]).Success?)
    ensures id in db.exercises && r.Success? ==> r.value.Some?
    ensures r.Failure? ==> id in db.exercises && r.error == UnknownDifficulty(db.exercises[id].difficultyLevel)
    ensures r.Success? && r.value.Some? ==>
              id in db.exercises && r.value.value.id == id && ExerciseToEntity(r.value.value) == db.exercises[id]
  {
    if id !in db.exercises then Success(None)
    else
      match ExerciseToDomain(db.exercises[id])
      case Success(x) => ExerciseEntityRoundTrip(db.exercises[id]); Success(Some(x))
      case Failure(err) => Failure(err)
  }

  /** `getExercisesBySet`: an unknown set gives the empty list; a known set
      gives the stored exercises whose ids it lists, each once, with listed
      ids that are not stored dropped. The order is the one `SelectByIds`
      picks; the query itself leaves it unspecified. */
  method GetExercisesBySet(db: Database, setId: string) returns (r: Result<seq<Exercise>, MappingError>)
    requires db.Valid()
    ensures setId !in db.sets ==> r == Success([])
    ensures setId in db.sets && r.Success? ==>
              (set x | x in r.value :: x.id) == (set k | k in db.sets[setId].exerciseIds && k in db.exercises)
    ensures r.Success? ==> forall x :: x in r.value ==> x.id in db.exercises && ExerciseToEntity(x) == db.exercises[x.id]
    ensures r.Success? ==> forall i, j :: 0 <= i < j < |r.value| ==> r.value[i].id != r.value[j].id
    ensures setId in db.sets ==>
              (r.Success? <==>
                 forall k :: k in db.sets[setId].exerciseIds && k in db.exercises ==> ExerciseToDomain(db.exercises[k]).Success?)
  {
    if setId !in db.sets {
      return Success([]);
    }
    var ids := db.sets[setId].exerciseIds;
    var rows := SelectByIds(db.exercises, ids);
    r := MapExercises(rows);
    if r.Success? {
      var xs := r.value;
      forall i | 0 <= i < |xs| ensures xs[i].id == rows[i].id && ExerciseToEntity(xs[i]) == rows[i] {
        ExerciseEntityRoundTrip(rows[i]);
      }
      assert forall x :: x in xs ==> exists i :: 0 <= i < |xs| && xs[i] == x;
      forall k | k in ids && k in db.exercises ensures k in (set x | x in xs :: x.id) {
        var i :| 0 <= i < |rows| && rows[i] == db.exercises[k];
        assert xs[i].id == k;
      }
    } else {
      var i :| 0 <= i < |rows| && ExerciseToDomain(rows[i]) == Failure(r.error);
      assert rows[i].id in ids && rows[i].id in db.exercises && db.exercises[rows[i].id] == rows[i];
    }
    if r.Success? {
      forall k | k in ids && k in db.exercises ensures ExerciseToDomain(db.exercises[k]).Success? {
        var i :| 0 <= i < |rows| && rows[i] == db.exercises[k];
      }
    }
  }

  /** `markExerciseCompleted`: the UPDATE on that row with `true`. */
  function MarkExerciseCompleted(db: Database, id: string): (r: Database)
    ensures r.sets == db.sets
    ensures r.exercises.Keys == db.exercises.Keys
    ensures id in db.exercises ==> r.exercises[id] == db.exercises[id].(isCompleted := true)
    ensures forall k :: k in db.exercises && k != id ==> r.exercises[k] == db.exercises[k]
    ensures db.Valid() ==> r.Valid()
  {
    db.(exercises := UpdateCompletion(db.exercises, id, true))
  }

  /** `resetExerciseCompletion`: the UPDATE on that row with `false`. */
  function ResetExerciseCompletion(db: Database, id: string): (r: Database)
    ensures r.sets == db.sets
    ensures r.exercises.Keys == db.exercises.Keys
    ensures id in db.exercises ==> r.exercises[id] == db.exercises[id].(isCompleted := false)
    ensures forall k :: k in db.exercises && k != id ==> r.exercises[k] == db.exercises[k]
    ensures db.Valid() ==> r.Valid()
  {
    db.(exercises := UpdateCompletion(db.exercises, id, false))
  }

  /** Marking and resetting are idempotent, leave the store unchanged for an
      unknown id, and a reset undoes a mark of a row that was not completed. */
  lemma CompletionUpdateLaws(db: Database, id: string)
    ensures MarkExerciseCompleted(MarkExerciseCompleted(db, id), id) == MarkExerciseCompleted(db, id)
    ensures ResetExerciseCompletion(ResetExerciseCompletion(db, id), id) == ResetExerciseCompletion(db, id)
    ensures id !in db.exercises ==> MarkExerciseCompleted(db, id) == db && ResetExerciseCompletion(db, id) == db
    ensures id in db.exercises && !db.exercises[id].isCompleted ==>
              ResetExerciseCompletion(MarkExerciseCompleted(db, id), id) == db
  {
    UpdateCompletionLaws(db.exercises, id, true, true);
    UpdateCompletionLaws(db.exercises, id, false, false);
    UpdateCompletionLaws(db.exercises, id, true, false);
    if id in db.exercises && !db.exercises[id].isCompleted {
      assert db.exercises[id].(isCompleted := false) == db.exercises[id];
      assert db.exercises[id := db.exercises[id]] == db.exercises;
    }
  }

  /** Reading a stored exercise after marking it gives the same exercise,
      completed; every other exercise reads as before. */
  lemma MarkThenRead(db: Database, id: string, other: string)
    requires db.Valid()
    requires other != id
    ensures GetExerciseById(db, id).Success? && GetExerciseById(db, id).value.Some? ==>
              GetExerciseById(MarkExerciseCompleted(db, id), id)
                == Success(Some(GetExerciseById(db, id).value.value.(isCompleted := true)))
    ensures GetExerciseById(MarkExerciseCompleted(db, id), other) == GetExerciseById(db, other)
  {
    var db' := MarkExerciseCompleted(db, id);
    if GetExerciseById(db, id).Success? && GetExerciseById(db, id).value.Some? {
      var x := GetExerciseById(db, id).value.value;
      ExerciseRoundTrip(x.(isCompleted := true));
      assert db'.exercises[id] == ExerciseToEntity(x.(isCompleted := true));
    }
  }
}
