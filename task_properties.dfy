/**
 * Properties that relate several handlers: how ids behave across creates,
 * updates and deletes, and what a later lookup sees.
 */
module TaskProperties {
  import opened Validation
  import opened TaskRepository

  /** The ids are exactly 1..n in collection order (true of a collection
      built by creates alone, starting from an empty one). */
  predicate IdsSequential(s: seq<Task>)
  {
    forall k :: 0 <= k < |s| ==> s[k].id == k + 1
  }

  /** No two records share an id. */
  predicate DistinctIds(s: seq<Task>)
  {
    forall j, k :: 0 <= j < k < |s| ==> s[j].id != s[k].id
  }

  /** No record carries the id the next create would assign. */
  predicate NextIdFresh(s: seq<Task>)
  {
    forall k :: 0 <= k < |s| ==> s[k].id != |s| + 1
  }

  /** With ids 1..n, a create appends id n+1, so the ids become 1..n+1 and
      stay strictly increasing, hence distinct. */
  lemma CreateKeepsIdsSequential(s: seq<Task>, body: Body)
    requires IdsSequential(s) && ValidateTaskData(body)
    ensures IdsSequential(s + [FromBody(|s| + 1, body)])
    ensures var s' := s + [FromBody(|s| + 1, body)];
      forall j, k :: 0 <= j < k < |s'| ==> s'[j].id < s'[k].id
  {
  }

  /** Sequential ids leave the next id free. */
  lemma SequentialIdsLeaveNextFresh(s: seq<Task>)
    requires IdsSequential(s)
    ensures NextIdFresh(s) && DistinctIds(s)
  {
  }

  /** Create then get by the returned id gives back the created record,
      provided no earlier record already carries that id. */
  lemma {:induction false} CreateThenGet(s: seq<Task>, body: Body)
    requires NextIdFresh(s) && ValidateTaskData(body)
    ensures Find(s + [FromBody(|s| + 1, body)], Some(|s| + 1)) == Some(FromBody(|s| + 1, body))
  {
    var s' := s + [FromBody(|s| + 1, body)];
    assert forall k :: 0 <= k < |s| ==> s'[k] == s[k];
    assert Matches(s'[|s|], Some(|s| + 1));
    assert FirstIndex(s', Some(|s| + 1)) == |s|;
    FindAtFirstIndex(s', Some(|s| + 1));
  }

  /** An update replaces the first match with a record carrying the same id,
      so every id stays where it was. */
  lemma UpdateKeepsIds(s: seq<Task>, i: nat, body: Body)
    requires i < |s| && ValidateTaskData(body)
    ensures var s' := s[i := FromBody(s[i].id, body)];
      |s'| == |s| && forall k :: 0 <= k < |s| ==> s'[k].id == s[k].id
  {
  }

  /** Update then get by the same id gives back the new record. */
  lemma {:induction false} UpdateThenGet(s: seq<Task>, id: Option<int>, body: Body)
    requires 0 <= FirstIndex(s, id) && ValidateTaskData(body)
    ensures var i := FirstIndex(s, id);
      Find(s[i := FromBody(s[i].id, body)], id) == Some(FromBody(s[i].id, body))
  {
    var i := FirstIndex(s, id);
    var s' := s[i := FromBody(s[i].id, body)];
    assert Matches(s'[i], id);
    assert forall k :: 0 <= k < i ==> s'[k] == s[k];
    FindAtFirstIndex(s', id);
  }

  /** Deleting from a collection with distinct ids keeps them distinct. */
  lemma DeleteKeepsIdsDistinct(s: seq<Task>, i: nat)
    requires i < |s| && DistinctIds(s)
    ensures DistinctIds(RemoveAt(s, i))
  {
  }

  /** With distinct ids, a delete removes the only record with that id, so a
      second delete (or a get) of the same id finds nothing. */
  lemma {:induction false} DeleteThenNotFound(s: seq<Task>, id: Option<int>)
    requires DistinctIds(s) && 0 <= FirstIndex(s, id)
    ensures FirstIndex(RemoveAt(s, FirstIndex(s, id)), id) == -1
    ensures Find(RemoveAt(s, FirstIndex(s, id)), id) == None
  {
    var i := FirstIndex(s, id);
    var r := RemoveAt(s, i);
    forall k | 0 <= k < |r|
      ensures !Matches(r[k], id)
    {
      var k' := if k < i then k else k + 1;
      assert r[k] == s[k'] && k' != i;
    }
    FindAtFirstIndex(r, id);
  }

  /** Without distinct ids the second delete succeeds: a duplicate survives
      the first one. */
  lemma DuplicateSurvivesDelete()
    ensures var s := [Task(1, "a", "x", false), Task(1, "b", "y", true)];
      FirstIndex(s, Some(1)) == 0 &&
      FirstIndex(RemoveAt(s, 0), Some(1)) == 0
  {
  }

  /** `id = length + 1` does not keep ids unique: delete id 1 from [1, 2],
      then create, and the new record gets id 2 again. */
  lemma IdsCollideAfterDeleteThenCreate(title: string, description: string, completed: bool)
    ensures var s := [Task(1, "a", "x", false), Task(2, "b", "y", true)];
      var afterDelete := RemoveAt(s, FirstIndex(s, Some(1)));
      var afterCreate := afterDelete + [Task(|afterDelete| + 1, title, description, completed)];
      IdsSequential(s) && !DistinctIds(afterCreate)
  {
    var s := [Task(1, "a", "x", false), Task(2, "b", "y", true)];
    assert Matches(s[0], Some(1));
    assert FirstIndex(s, Some(1)) == 0;
    var afterDelete := RemoveAt(s, 0);
    assert |afterDelete| == 1 && afterDelete[0] == s[1];
    var afterCreate := afterDelete + [Task(2, title, description, completed)];
    assert afterCreate[0].id == 2 && afterCreate[1].id == 2;
  }

  /** A created record is listed last by the filter it satisfies and leaves
      the other filter's listing as it was. */
  lemma CreateThenListed(s: seq<Task>, t: Task, want: bool)
    ensures Filter(s + [t], want) == Filter(s, want) + (if t.completed == want then [t] else [])
  {
    FilterConcat(s, [t], want);
    assert [t][1..] == [];
  }

  /** The two filters split the collection: every record is returned by
      exactly one of `?completed=true` and `?completed=false`. */
  lemma FilterPartition(s: seq<Task>)
    ensures multiset(Filter(s, true)) + multiset(Filter(s, false)) == multiset(s)
  {
    var a, b := Filter(s, true), Filter(s, false);
    assert forall t :: (multiset(a) + multiset(b))[t] == multiset(s)[t];
  }

  /** The worked session: create a pending and a done task, list the done
      ones, delete id 1, and look id 1 up again. */
  method ExampleSession(pending: Body, done: Body)
    requires ValidateTaskData(pending) && pending.completed == Bool(false)
    requires ValidateTaskData(done) && done.completed == Bool(true)
  {
    var store := new TaskStore([]);
    var a := store.CreateTask(pending);
    assert a.status == CREATED && a.body.value.id == 1;
    var b := store.CreateTask(done);
    assert b.status == CREATED && b.body.value.id == 2;
    var rejected := store.CreateTask(Body(Other, Absent, Bool(true)));
    assert rejected == Reply(BAD_REQUEST, None);

    var listed := store.GetAllTask(Some("true"));
    assert store.tasks == [a.body.value, b.body.value];
    assert multiset(listed.body.value) == multiset{b.body.value};
    assert listed.body.value == [b.body.value];

    var gone := store.DeleteTask(Some(1));
    assert gone.status == OK;
    var again := store.GetTaskById(Some(1));
    assert again.status == NOT_FOUND;
    var nan := store.GetTaskById(None);
    assert nan.status == NOT_FOUND;
  }
}
