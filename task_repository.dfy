/**
 * The in-memory task collection and the five request handlers that read and
 * change it: create, list (with the `completed` filter), get by id, update
 * and delete. HTTP replies become `Reply` values carrying the status code.
 */
module TaskRepository {
  import opened Validation

  datatype Option<T> = None | Some(value: T)

  /** One task record. */
  datatype Task = Task(id: int, title: string, description: string, completed: bool)

  /** A reply: status code and, when the handler sends one, a body. */
  datatype Reply<T> = Reply(status: nat, body: Option<T>)

  const OK: nat := 200
  const CREATED: nat := 201
  const BAD_REQUEST: nat := 400
  const NOT_FOUND: nat := 404

  /** `t.id === id` where `id` is the parsed path id; `None` is NaN, which
      equals nothing. */
  predicate Matches(t: Task, id: Option<int>)
  {
    id == Some(t.id)
  }

  /** Array.prototype.findIndex with the id test: the first matching index,
      or -1 when nothing matches. */
  function FirstIndex(s: seq<Task>, id: Option<int>): (r: int)
    ensures -1 <= r < |s|
    ensures r == -1 <==> forall k :: 0 <= k < |s| ==> !Matches(s[k], id)
    ensures 0 <= r ==> Matches(s[r], id) && forall k :: 0 <= k < r ==> !Matches(s[k], id)
  {
    if s == [] then -1
    else if Matches(s[0], id) then 0
    else
      var j := FirstIndex(s[1..], id);
      if j < 0 then -1 else j + 1
  }

  /** findIndex as the loop it performs. */
  method FindIndex(s: seq<Task>, id: Option<int>) returns (i: int)
    ensures i == FirstIndex(s, id)
  {
    i := 0;
    while i < |s|
      invariant 0 <= i <= |s|
      invariant forall k :: 0 <= k < i ==> !Matches(s[k], id)
    {
      if Matches(s[i], id) {
        return;
      }
      i := i + 1;
    }
    i := -1;
  }

  /** Array.prototype.find with the id test. */
  function Find(s: seq<Task>, id: Option<int>): Option<Task>
  {
    if s == [] then None
    else if Matches(s[0], id) then Some(s[0])
    else Find(s[1..], id)
  }

  /** `find` returns the record at the index `findIndex` reports. */
  lemma {:induction false} FindAtFirstIndex(s: seq<Task>, id: Option<int>)
    ensures Find(s, id) == if FirstIndex(s, id) < 0 then None else Some(s[FirstIndex(s, id)])
  {
    if s != [] && !Matches(s[0], id) {
      FindAtFirstIndex(s[1..], id);
    }
  }

  /** Array.prototype.filter with `task.completed === want`. */
  function Filter(s: seq<Task>, want: bool): (r: seq<Task>)
    ensures forall i :: 0 <= i < |r| ==> r[i].completed == want
    ensures forall t :: multiset(r)[t] == if t.completed == want then multiset(s)[t] else 0
  {
    if s == [] then []
    else
      assert s == [s[0]] + s[1..];
      if s[0].completed == want then [s[0]] + Filter(s[1..], want)
      else Filter(s[1..], want)
  }

  /** `r` is obtained from `s` by deleting elements, keeping the order. */
  predicate IsSubsequence(r: seq<Task>, s: seq<Task>)
    decreases |s|
  {
    if r == [] then true
    else if s == [] then false
    else if r[0] == s[0] then IsSubsequence(r[1..], s[1..])
    else IsSubsequence(r, s[1..])
  }

  /** The filter keeps the collection's order. */
  lemma {:induction false} FilterIsSubsequence(s: seq<Task>, want: bool)
    ensures IsSubsequence(Filter(s, want), s)
  {
    if s != [] {
      FilterIsSubsequence(s[1..], want);
      var r := Filter(s, want);
      if s[0].completed == want {
        assert r[0] == s[0] && r[1..] == Filter(s[1..], want);
      } else if r != [] {
        assert r[0].completed == want;
      }
    }
  }

  /** Filtering distributes over concatenation, so the records that pass keep
      their relative order. */
  lemma {:induction false} FilterConcat(a: seq<Task>, b: seq<Task>, want: bool)
    ensures Filter(a + b, want) == Filter(a, want) + Filter(b, want)
  {
    if a == [] {
      assert a + b == b;
    } else {
      var ab := a + b;
      assert ab[0] == a[0] && ab[1..] == a[1..] + b;
      FilterConcat(a[1..], b, want);
      if a[0].completed == want {
        calc {
          Filter(ab, want);
          [a[0]] + Filter(a[1..] + b, want);
          [a[0]] + (Filter(a[1..], want) + Filter(b, want));
          ([a[0]] + Filter(a[1..], want)) + Filter(b, want);
        }
      }
    }
  }

  /** `splice(i, 1)`: the record at `i` goes; the others close up in order. */
  function RemoveAt(s: seq<Task>, i: nat): (r: seq<Task>)
    requires i < |s|
    ensures |r| == |s| - 1
    ensures forall k :: 0 <= k < i ==> r[k] == s[k]
    ensures forall k :: i <= k < |r| ==> r[k] == s[k + 1]
    ensures multiset(r) + multiset{s[i]} == multiset(s)
  {
    assert s == s[..i] + [s[i]] + s[i + 1..];
    s[..i] + s[i + 1..]
  }

  /** The record a valid payload describes, with the given id. */
  function FromBody(id: int, body: Body): Task
    requires ValidateTaskData(body)
  {
    Task(id, body.title.s, body.description.s, body.completed.b)
  }

  /** The shared collection the handlers work on. */
  class TaskStore {
    var tasks: seq<Task>

    /** The collection starts as the records loaded at startup. */
    constructor (initial: seq<Task>)
      ensures tasks == initial
    {
      tasks := initial;
    }

    /** POST /tasks. */
    method CreateTask(body: Body) returns (reply: Reply<Task>)
      modifies this
      ensures !ValidateTaskData(body) ==>
        reply == Reply(BAD_REQUEST, None) && tasks == old(tasks)
      ensures ValidateTaskData(body) ==>
        var t := Task(|old(tasks)| + 1, body.title.s, body.description.s, body.completed.b);
        tasks == old(tasks) + [t] && reply == Reply(CREATED, Some(t))
    {
      if !ValidateTaskData(body) {
        return Reply(BAD_REQUEST, None);
      }
      var newTask := FromBody(|tasks| + 1, body);
      tasks := tasks + [newTask];
      reply := Reply(CREATED, Some(newTask));
    }

    /** GET /tasks, optionally with `?completed=...`: without the key every
        record comes back; with it, exactly the records whose `completed`
        equals (value == "true"), in collection order and with their
        multiplicities. Never fails. */
    function GetAllTask(completed: Option<string>): (reply: Reply<seq<Task>>)
      reads this
      ensures reply.status == OK && reply.body.Some?
      ensures completed.None? ==> reply.body.value == tasks
      ensures completed.Some? ==>
        var want := completed.value == "true";
        (forall i :: 0 <= i < |reply.body.value| ==> reply.body.value[i].completed == want) &&
        (forall t :: multiset(reply.body.value)[t] ==
                     if t.completed == want then multiset(tasks)[t] else 0) &&
        IsSubsequence(reply.body.value, tasks)
    {
      if completed.None? then Reply(OK, Some(tasks))
      else
        FilterIsSubsequence(tasks, completed.value == "true");
        Reply(OK, Some(Filter(tasks, completed.value == "true")))
    }

    /** GET /tasks/:id: the first record with that id, or 404. */
    function GetTaskById(id: Option<int>): (reply: Reply<Task>)
      reads this
      ensures reply.status == NOT_FOUND <==> forall k :: 0 <= k < |tasks| ==> !Matches(tasks[k], id)
      ensures reply.status == NOT_FOUND ==> reply.body == None
      ensures id.None? ==> reply.status == NOT_FOUND
      ensures reply.status == OK ==>
        reply.body.Some? &&
        exists i :: 0 <= i < |tasks| && tasks[i] == reply.body.value && Matches(tasks[i], id) &&
          forall k :: 0 <= k < i ==> !Matches(tasks[k], id)
      ensures reply.status == OK || reply.status == NOT_FOUND
    {
      FindAtFirstIndex(tasks, id);
      match Find(tasks, id)
      case None => Reply(NOT_FOUND, None)
      case Some(t) => Reply(OK, Some(t))
    }

    /** PUT /tasks/:id: 404 before validation, then 400, then a full replace
        at the first matching index, keeping the id. */
    method UpdateTask(id: Option<int>, body: Body) returns (reply: Reply<Task>)
      modifies this
      ensures FirstIndex(old(tasks), id) < 0 ==>
        reply == Reply(NOT_FOUND, None) && tasks == old(tasks)
      ensures 0 <= FirstIndex(old(tasks), id) && !ValidateTaskData(body) ==>
        reply == Reply(BAD_REQUEST, None) && tasks == old(tasks)
      ensures 0 <= FirstIndex(old(tasks), id) && ValidateTaskData(body) ==>
        var i := FirstIndex(old(tasks), id);
        var t := Task(old(tasks)[i].id, body.title.s, body.description.s, body.completed.b);
        tasks == old(tasks)[i := t] && reply == Reply(OK, Some(t))
    {
      var taskIndex := FindIndex(tasks, id);
      if taskIndex == -1 {
        return Reply(NOT_FOUND, None);
      }
      if !ValidateTaskData(body) {
        return Reply(BAD_REQUEST, None);
      }
      tasks := tasks[taskIndex := FromBody(id.value, body)];
      reply := Reply(OK, Some(tasks[taskIndex]));
    }

    /** DELETE /tasks/:id: 404, or the first matching record is spliced out. */
    method DeleteTask(id: Option<int>) returns (reply: Reply<Task>)
      modifies this
      ensures FirstIndex(old(tasks), id) < 0 ==>
        reply == Reply(NOT_FOUND, None) && tasks == old(tasks)
      ensures 0 <= FirstIndex(old(tasks), id) ==>
        reply == Reply(OK, None) && |tasks| == |old(tasks)| - 1 &&
        tasks == RemoveAt(old(tasks), FirstIndex(old(tasks), id))
    {
      var taskIndex := FindIndex(tasks, id);
      if taskIndex == -1 {
        return Reply(NOT_FOUND, None);
      }
      tasks := RemoveAt(tasks, taskIndex);
      reply := Reply(OK, None);
    }
  }
}
