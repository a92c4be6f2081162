# Task manager: the in-memory task collection

This project models the request handlers of a small task-manager HTTP service.
The handlers own one ordered collection of task records
`{id, title, description, completed}`:

- **create** validates a payload and appends a record whose id is the current length plus one;
- **list** returns every record, or only those whose `completed` matches a query flag;
- **get by id** returns the first record with that id;
- **update** replaces the first record with that id in full and keeps the id;
- **delete** splices out the first record with that id.

Invalid payloads give 400 and unknown ids give 404. Neither changes the collection.

Files:

- `validation.dfy` (module `Validation`): the untyped body fields (`Str`, `Bool`, `Other`, `Absent`), `String.prototype.trim`, and the validation helper.
- `task_repository.dfy` (module `TaskRepository`): the `Task` record, `Reply` (status code plus optional body), the `findIndex`/`find`/`filter`/`splice` operations the handlers use, and the class `TaskStore`. `TaskStore` holds the collection as a `seq<Task>` field. `CreateTask`, `UpdateTask` and `DeleteTask` are methods that reassign that field. `GetAllTask` and `GetTaskById` are functions that only read it.
- `task_properties.dfy` (module `TaskProperties`): lemmas that relate several handlers. They cover how ids behave across create, update and delete, and what a later lookup sees. `ExampleSession` is a verified walk through a client session that creates a pending task and a completed task, is refused a payload with a bad title, lists the completed tasks, deletes id 1 and then looks it up again.

How inputs are represented:

- The path id after `parseInt` is an `Option<int>`. `None` stands for NaN, which matches no record.
- The `completed` query value is an `Option<string>`. `None` means the key is absent.

Ids are not unique in general. `id = length + 1` hands out an id that is already in use when a create follows a delete (`IdsCollideAfterDeleteThenCreate`). For that reason:

- uniqueness is stated only for collections whose ids are exactly `1..n` (`IdsSequential`) or pairwise distinct (`DistinctIds`);
- create-then-get is stated under the condition that no record already carries the next id.

Ids are meant to identify records, but `id = length + 1` does not keep them unique, and the model follows the code.

## Model

| member | source | states |
|---|---|---|
| `Validation.TrimStartSpec` | controllers/task.controller.js:7-8 | the result is a suffix of the input, everything removed is whitespace, and the result does not start with whitespace |
| `Validation.TrimEndSpec` | controllers/task.controller.js:7-8 | the result is a prefix of the input, everything removed is whitespace, and the result does not end with whitespace |
| `Validation.TrimEmptyIff` | controllers/task.controller.js:7-8 | `s.trim() === ""` holds exactly when every character of `s` is whitespace |
| `Validation.ValidateTaskDataIff` | controllers/task.controller.js:4-14 | a payload is accepted iff title and description are strings holding a non-whitespace character and `completed` is a boolean; other types and absent fields are rejected |
| `TaskRepository.FirstIndex` | controllers/task.controller.js:63 | `findIndex` on the id: -1 iff no record matches, otherwise an index that matches with no match before it; NaN never matches |
| `TaskRepository.FindIndex` | controllers/task.controller.js:92 | the findIndex loop returns exactly that first matching index, or -1 |
| `TaskRepository.FindAtFirstIndex` | controllers/task.controller.js:51 | `find` returns the record at the index `findIndex` reports, and nothing when it reports -1 |
| `TaskRepository.Filter` | controllers/task.controller.js:42 | every kept record has `completed === want`, and each such record is kept exactly as often as it occurs in the collection |
| `TaskRepository.FilterIsSubsequence` | controllers/task.controller.js:42 | the filtered list is an order-preserving subsequence of the collection |
| `TaskRepository.FilterConcat` | controllers/task.controller.js:42 | filtering distributes over concatenation, so the kept records keep their relative order |
| `TaskRepository.RemoveAt` | controllers/task.controller.js:98 | `splice(i, 1)` shortens the collection by one, keeps every record before `i` in place, and moves every record after `i` down by one; the removed record is the only one lost |
| `TaskRepository.TaskStore.constructor` | controllers/task.controller.js:1 | the collection starts as the records loaded at startup |
| `TaskRepository.TaskStore.CreateTask` | controllers/task.controller.js:17-33 | an invalid payload gives 400 with the collection unchanged; a valid one appends `{id: old length + 1, title, description, completed}`, keeps every earlier record and replies 201 with the new record |
| `TaskRepository.TaskStore.GetAllTask` | controllers/task.controller.js:36-46 | always 200; with the query key absent the whole collection is returned; with a value `q` the reply holds exactly the records with `completed == (q == "true")`, in collection order and with their multiplicities |
| `TaskRepository.TaskStore.GetTaskById` | controllers/task.controller.js:49-58 | 404 iff no record has the id, always with no body and always for NaN; the only other reply is 200 with the first record that has the id |
| `TaskRepository.TaskStore.UpdateTask` | controllers/task.controller.js:61-86 | an unknown id gives 404 before validation runs; a known id with an invalid payload gives 400; in both cases nothing changes; otherwise only the first matching index is replaced by the new record with the same id, and 200 returns that record |
| `TaskRepository.TaskStore.DeleteTask` | controllers/task.controller.js:90-100 | an unknown id gives 404 with no change; otherwise exactly the first matching record is removed, the length drops by one, the others keep their order, and the reply is 200 with no body |
| `TaskProperties.CreateKeepsIdsSequential` | controllers/task.controller.js:24-31 | if the ids are 1..n, then after a create they are 1..n+1 and strictly increasing |
| `TaskProperties.SequentialIdsLeaveNextFresh` | controllers/task.controller.js:25 | ids 1..n are distinct and leave id n+1 unused |
| `TaskProperties.CreateThenGet` | controllers/task.controller.js:24-32 | looking up the id a create returned gives back the created record, provided no earlier record already had that id |
| `TaskProperties.UpdateKeepsIds` | controllers/task.controller.js:78-83 | an update keeps the length and every record's id |
| `TaskProperties.UpdateThenGet` | controllers/task.controller.js:78-85 | looking up the updated id afterwards gives back the new record |
| `TaskProperties.DeleteKeepsIdsDistinct` | controllers/task.controller.js:98 | deleting from a collection with distinct ids leaves them distinct |
| `TaskProperties.DeleteThenNotFound` | controllers/task.controller.js:92-98 | with distinct ids, after a delete no record has that id, so a second delete or a get of it is 404 |
| `TaskProperties.DuplicateSurvivesDelete` | controllers/task.controller.js:92-98 | without distinct ids, the second delete of the same id still finds a record |
| `TaskProperties.IdsCollideAfterDeleteThenCreate` | controllers/task.controller.js:25 | from ids [1, 2], deleting id 1 and then creating a record (which gets id length + 1 = 2) leaves two records with id 2 |
| `TaskProperties.CreateThenListed` | controllers/task.controller.js:31-42 | after a create appends a record, the filter it satisfies lists it last after the earlier matches, and the other filter's listing is unchanged |
| `TaskProperties.FilterPartition` | controllers/task.controller.js:41-42 | `?completed=true` and `?completed=false` together return every record exactly once |

## Left out

- Route registration (routes/task.routes.js), the Express request and response objects, and JSON serialisation. Each handler returns a `Reply` with the status code and body instead.
- Loading `task.json` at startup is file I/O. It becomes the constructor's `initial` parameter, and the model assumes every loaded record has the four fields with these types.
- `parseInt` is not modelled: leading-digit parsing and radix handling are left out. The parsed path id is an input of type `Option<int>`.
- A query key given twice reaches the handler as an array. That array compares unequal to `"true"`, so it behaves like any other non-`"true"` string. The model only takes string query values.
- A request body that is not an object is left out. Express's JSON parser rejects such bodies before any handler runs.
- Concurrency and request interleaving are not modelled. The handlers run one at a time.
- Whitespace is the fixed ECMAScript set with the Unicode `Zs` category written out. JavaScript strings are UTF-16 code units and Dafny strings are Unicode scalar values. Every whitespace character lies in the Basic Multilingual Plane, so `trim` sees the same characters in both.
