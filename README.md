# task-tracker, modelled in Dafny

A model of the task lifecycle engine of the `task-tracker` Symfony
application. Tasks carry a title, a description, an optional assignee, a
creation time and a status. The status is one of TODO, IN_PROGRESS and DONE,
and it only moves along the transition table of the service. The tasks live
in an in-memory repository, one insertion-ordered PHP array keyed by the
task's UUID. The service validates its input, reads the task, checks the
transition, and then writes the task back through the repository.

Modules follow the PHP namespaces:

- `Enum` (`task_status.dfy`): `TaskStatus` with its backing strings and the
  partial parser `TaskStatus::from`.
- `Entity` (`task.dfy`): the immutable `Task` record, its constructor
  defaults and the copy-on-write updaters `withStatus` and `withAssignee`.
- `Dto` (`task_dto.dfy`): `TaskDTO` and its `Assert` constraints, stated as
  the list of violations the validator reports.
- `Repository` (`in_memory_task_repository.dfy`): the class
  `InMemoryTaskRepository`. Its field `tasks` is changed in place by `Save`,
  `Update` and `Delete`.
- `Service` (`task_service.dfy`): the transition table and the class
  `TaskService`, whose methods return `Result<Task, TaskError>`. A
  `Failure` stands for the exception the PHP method throws.
- `OrderedMaps` (`ordered_maps.dfy`): the PHP array semantics the
  repository relies on. Assigning to a present key overwrites it in place,
  assigning to a new key appends, `unset` drops the entry, and
  `array_values`/`array_filter` keep entry order.
- `Scenarios` (`scenarios.dfy`): the service test cases, restated as client
  methods and proved from the contracts alone.
- `Wrappers` (`wrappers.dfy`): `Option` and `Result`.

The parts that cannot be computed are parameters. `Uuid::v4()` becomes
`generatedId`, and each `new \DateTimeImmutable()` becomes `now`. A UUID is
represented by its RFC 4122 text, so `toRfc4122()` is injective by
construction.

Three behaviours of the code shape the model:

- Every construction of a `Task`, the updaters `withStatus` and
  `withAssignee` included, stamps a new `createdAt`; nothing copies it over
  from the receiver. `Entity.WithStatusChangesOnlyStatus` states it: the
  updated task keeps its `createdAt` only when the clock reads the same.
- `save` of an id that is already stored overwrites that entry in place,
  exactly like `update`; there is no duplicate check. Last write wins.
- `createTask` ignores the DTO's `status`: a new task is always TODO.

## Model

| member | source | states |
|---|---|---|
| Enum.TaskStatus.Value | src/Enum/TaskStatus.php:7-9 | `->value`, the backing string; no contract of its own: its strings are stated by `Enum.FromAccepts` and shown distinct by `Enum.ExactlyThreeCases` |
| Enum.ExactlyThreeCases | src/Enum/TaskStatus.php:5-10 | every status is one of the three cases, and their backing strings are pairwise distinct |
| Enum.From | src/Controller/TaskController.php:96-100 | a parsed string is the backing value of the status it yields; a string that parses to nothing is the backing value of no case (the `ValueError` path) |
| Enum.FromValue | src/Enum/TaskStatus.php:7-9 | round trip: parsing the backing string of any status gives that status |
| Enum.FromAccepts | src/Enum/TaskStatus.php:7-9 | `from` succeeds exactly on "todo", "in_progress" and "done" |
| Enum.FromRejectsUnknown | tests/Controller/TaskControllerTest.php:239-255 | "INVALID_STATUS" is rejected, and so is "TODO" (backing strings are case-sensitive) |
| Entity.NewTask | src/Entity/Task.php:33-46 | `new Task(...)`; no contract of its own: its defaults are stated by `Entity.NewTaskDefaults` and `Entity.NewTaskKeepsSuppliedId` |
| Entity.NewTaskDefaults | src/Entity/Task.php:33-46 | with only a title and a description, the constructor gives the generated id, status TODO, no assignee and the current time |
| Entity.NewTaskKeepsSuppliedId | src/Entity/Task.php:40 | a supplied id is kept, whatever the generator would produce |
| Entity.Task.WithStatus | src/Entity/Task.php:78-87 | the result is the receiver with the new status and the current time as `createdAt`, and nothing else changed |
| Entity.Task.WithAssignee | src/Entity/Task.php:89-98 | the result is the receiver with the new assignee and the current time as `createdAt`, and nothing else changed |
| Entity.WithStatusChangesOnlyStatus | src/Entity/Task.php:78-87 | id, title, description and assignee are kept and the status is the new one; `createdAt` is kept exactly when the clock reads the same |
| Entity.WithAssigneeChangesOnlyAssignee | src/Entity/Task.php:89-98 | id, title, description and status are kept and the assignee is the new one; `createdAt` is kept exactly when the clock reads the same |
| Entity.WithAssigneeIdempotent | src/Entity/Task.php:89-98 | assigning the same assignee twice equals assigning it once at the later time |
| Entity.WithStatusUndo | src/Entity/Task.php:78-87 | setting the old status back restores the task, except for `createdAt` |
| Dto.Violations | src/DTO/TaskDTO.php:11-16 | each violation is reported exactly when its constraint fails: `NotBlank` on an empty title, `Length` too long above 255 and too short below 3 characters, `NotBlank` on an empty description; at most three are reported |
| Dto.IsValid | src/Service/TaskService.php:24-25 | `count($errors) == 0`; no contract of its own: `Dto.ValidIff` states when it holds |
| Dto.ValidIff | src/DTO/TaskDTO.php:11-16 | a DTO is valid exactly when its title is non-empty and 3 to 255 characters long and its description is non-empty |
| Dto.EmptyFieldsInvalid | tests/Controller/TaskControllerTest.php:125-145 | an empty title is invalid and reports both the `NotBlank` and the `Length` violation; an empty description is invalid |
| Dto.ValidityIgnoresAssigneeAndStatus | src/DTO/TaskDTO.php:18-20 | the assignee and the status never change validity |
| Dto.ConstructorDefaults | src/DTO/TaskDTO.php:18-20 | the DTO defaults to no assignee and status TODO |
| OrderedMaps.Get | src/Repository/InMemoryTaskRepository.php:22 | `$m[$k] ?? null` is null exactly when the key is absent, and otherwise yields a value stored under the key |
| OrderedMaps.GetPut | src/Repository/InMemoryTaskRepository.php:16 | after `$m[$k] = $v`, key `k` reads `v` and every other key reads as before |
| OrderedMaps.GetStored | src/Repository/InMemoryTaskRepository.php:22 | in a map without duplicate keys, looking up a stored entry's key gives that entry's value |
| OrderedMaps.Put | src/Repository/InMemoryTaskRepository.php:16 | writing a new key appends one entry at the end, and no entry other than the written one appears |
| OrderedMaps.PutExisting | src/Repository/InMemoryTaskRepository.php:58 | writing a present key replaces that entry where it stands; order and count are kept |
| OrderedMaps.PutKeepsUniqueKeys | src/Repository/InMemoryTaskRepository.php:16 | writing never makes a key occur twice |
| OrderedMaps.Remove | src/Repository/InMemoryTaskRepository.php:52 | after `unset` no entry has the key, and the map has not grown |
| OrderedMaps.RemoveSubset | src/Repository/InMemoryTaskRepository.php:52 | `unset` adds no entry: every entry left was stored before |
| OrderedMaps.GetRemove | src/Repository/InMemoryTaskRepository.php:52 | after `unset`, the key reads as absent and every other key reads as before |
| OrderedMaps.RemoveExisting | src/Repository/InMemoryTaskRepository.php:52 | `unset` of a stored key drops exactly that entry and keeps the others in order |
| OrderedMaps.RemoveAbsent | src/Repository/InMemoryTaskRepository.php:52 | `unset` of an absent key changes nothing |
| OrderedMaps.RemoveKeepsUniqueKeys | src/Repository/InMemoryTaskRepository.php:52 | `unset` never makes a key occur twice |
| OrderedMaps.Values | src/Repository/InMemoryTaskRepository.php:28 | `array_values` lists every entry's value once, in entry order |
| OrderedMaps.Filter | src/Repository/InMemoryTaskRepository.php:34-37 | `array_filter` keeps exactly the entries whose value satisfies the callback |
| OrderedMaps.FilterAppend | src/Repository/InMemoryTaskRepository.php:34-37 | `array_filter` of a concatenation is the concatenation of the filtered parts, so relative order is kept |
| OrderedMaps.ValuesFilter | src/Repository/InMemoryTaskRepository.php:34-37 | `array_values(array_filter(m, p))` is the order-preserving list filter of `array_values(m)` |
| OrderedMaps.FilterMultiplicity | src/Repository/InMemoryTaskRepository.php:34-37 | after filtering, a value occurs as often as before if it satisfies the callback, and not at all otherwise |
| Repository.KeyOf | src/Repository/InMemoryTaskRepository.php:16 | `getId()->toRfc4122()`, the key a task is stored under; no contract of its own: `Repository.SameKeyIffSameId` states it |
| Repository.SameKeyIffSameId | src/Repository/InMemoryTaskRepository.php:16 | two tasks share a key exactly when they share an id, so keying by the RFC 4122 text is keying by id |
| Repository.InMemoryTaskRepository.constructor | src/Repository/InMemoryTaskRepository.php:11 | a new repository is empty |
| Repository.InMemoryTaskRepository.Find | src/Repository/InMemoryTaskRepository.php:20-23 | the task found has the requested id and is stored; when none is found, no stored task has that id (null, not an error) |
| Repository.InMemoryTaskRepository.FindAll | src/Repository/InMemoryTaskRepository.php:26-29 | the stored tasks in insertion order, one per entry, with pairwise distinct ids |
| Repository.InMemoryTaskRepository.FindByStatus | src/Repository/InMemoryTaskRepository.php:32-38 | only tasks of the given status, each as often as in `findAll` (once), and every stored task of that status |
| Repository.InMemoryTaskRepository.FindByAssignee | src/Repository/InMemoryTaskRepository.php:41-47 | only tasks whose assignee is strictly the given one (never an unassigned task), each as often as in `findAll` |
| Repository.InMemoryTaskRepository.FindByStatusInOrder | src/Repository/InMemoryTaskRepository.php:32-38 | `findByStatus` is `findAll` with the tasks of other statuses taken out, in stored order |
| Repository.InMemoryTaskRepository.FindByAssigneeInOrder | src/Repository/InMemoryTaskRepository.php:41-47 | `findByAssignee` is `findAll` with the other tasks taken out, in stored order |
| Repository.InMemoryTaskRepository.StatusFiltersPartition | src/Repository/InMemoryTaskRepository.php:32-38 | the three status filters together hold exactly `findAll`: every task once, under its own status |
| Repository.InMemoryTaskRepository.StoredIffFound | src/Repository/InMemoryTaskRepository.php:20-29 | a task is listed by `findAll` exactly when `find` on its id returns it |
| Repository.InMemoryTaskRepository.Save | src/Repository/InMemoryTaskRepository.php:14-17 | the store stays well formed; the task is written under its id (last write wins); `find` returns it; every other id reads as before; a new id is appended to `findAll`, and a stored id keeps the count |
| Repository.InMemoryTaskRepository.Update | src/Repository/InMemoryTaskRepository.php:56-59 | the same effect as `save` |
| Repository.InMemoryTaskRepository.Delete | src/Repository/InMemoryTaskRepository.php:50-53 | the entry under the task's id is dropped, `find` on it gives null, and every other id reads as before |
| Service.IsValidStatusTransition | src/Service/TaskService.php:75-84 | true exactly for TODO to IN_PROGRESS, IN_PROGRESS to TODO, IN_PROGRESS to DONE and DONE to IN_PROGRESS |
| Service.NoSelfTransition | src/Service/TaskService.php:77-81 | no status may move to itself |
| Service.TransitionsSymmetric | src/Service/TaskService.php:77-81 | every allowed move can be undone by an allowed move |
| Service.FourAllowedTransitions | src/Service/TaskService.php:77-81 | of the nine ordered pairs of statuses exactly four are allowed |
| Service.ReachableThroughInProgress | src/Service/TaskService.php:77-81 | two different statuses are one allowed move apart, or two moves through IN_PROGRESS |
| Service.TaskService.constructor | src/Service/TaskService.php:16-20 | the service works on the repository it is given; the validator is not a parameter, since `Dto.Violations` states its rules |
| Service.TaskService.CreateTask | src/Service/TaskService.php:22-37 | an invalid DTO fails with its violations and stores nothing; a valid one succeeds with a TODO task carrying the DTO's title, description and assignee, the generated id and the current time, which is saved, read back by `getTask` and appended to `getAllTasks` when its id is new, with every other id unchanged |
| Service.TaskService.GetTask | src/Service/TaskService.php:39-42 | the task returned has the requested id and is listed by `getAllTasks`; null means no listed task has that id |
| Service.TaskService.GetAllTasks | src/Service/TaskService.php:44-47 | the repository's entries in order, with pairwise distinct ids |
| Service.TaskService.GetTasksByStatus | src/Service/TaskService.php:49-52 | only tasks of the given status, each as often as in `getAllTasks` |
| Service.TaskService.GetTasksByAssignee | src/Service/TaskService.php:54-57 | only tasks of the given assignee, each as often as in `getAllTasks` |
| Service.TaskService.UpdateTaskStatus | src/Service/TaskService.php:59-73 | an unknown id fails with NotFound and a disallowed move fails with InvalidTransition(current, requested), both leaving the store unchanged; it succeeds exactly when the task exists and the move is allowed, and then the result is `withStatus` of the stored task, written in place, read back by `getTask`, with every other id and the count unchanged |
| Service.TaskService.AssignTask | src/Service/TaskService.php:86-96 | an unknown id fails with NotFound and leaves the store unchanged; otherwise, whatever the status, the result is `withAssignee` of the stored task, written in place, read back by `getTask`, with every other id and the count unchanged |
| Scenarios.CreateThenGet | tests/Service/TaskServiceTest.php:29-58 | a created task is TODO, unassigned, carries the DTO's title and description, and `getTask` returns it |
| Scenarios.CreateWithEmptyTitle | tests/Controller/TaskControllerTest.php:125-145 | an empty title is refused with the `NotBlank` and `Length` violations and nothing is stored |
| Scenarios.UnknownId | tests/Service/TaskServiceTest.php:60-65 | on an empty store `getTask` gives null, and `updateTaskStatus` and `assignTask` fail with NotFound (lines 114-118 and 128-132 of the same file) |
| Scenarios.StatusFiltersAfterOneMove | tests/Service/TaskServiceTest.php:77-90 | after two creations and one move to IN_PROGRESS, the TODO and IN_PROGRESS filters each return one task, the first and the second |
| Scenarios.AssigneeFilters | tests/Service/TaskServiceTest.php:92-104 | two tasks for two users: each user's filter returns their one task, and a third user gets none |
| Scenarios.Lifecycle | src/Service/TaskService.php:59-84 | a task can go TODO, IN_PROGRESS, DONE and back to IN_PROGRESS, each step allowed by the table (the first step is the one tests/Service/TaskServiceTest.php:106-112 exercises) |
| Scenarios.JumpToDone | src/Service/TaskService.php:66-68 | a new task cannot jump from TODO to DONE: the refusal names both statuses and the task stays TODO |
| Scenarios.AssignTwice | src/Service/TaskService.php:86-96 | assignment does not look at the status, so a DONE task can be assigned, and assigning the same user again gives the same task up to `createdAt` (tests/Service/TaskServiceTest.php:120-126 assigns a TODO task once) |

## Left out

- `src/Controller/TaskController.php`: HTTP routing, JSON (de)serialisation and the mapping of exceptions to status codes. Only its use of `TaskStatus::from` is modelled, as `Enum.From`.
- `src/Repository/TaskRepositoryInterface.php`: the service is modelled over the one implementation, `InMemoryTaskRepository`. The interface has no behaviour of its own.
- Exception messages (`sprintf` formatting, the validator's string rendering): `TaskError` keeps which exception was thrown and its arguments, not its text.
- `Uuid::v4()`: randomness and freshness are not modelled. The id is the parameter `generatedId`, and a caller reusing an id overwrites the stored task, as the code would.
- The clock: `createdAt` is the parameter `now`, a `Timestamp` the model never inspects beyond equality. Its ISO-8601 rendering is not modelled.
- The Symfony validator engine: only the four constraints declared on `TaskDTO` are modelled, as `Dto.Violations`. `NotBlank` without a normaliser rejects only the empty string. Lengths are counted in characters, which are the elements of the Dafny string.
- The `Assert` constraints on the `Task` entity's properties (`src/Entity/Task.php:16-21`): nothing in the core validates a `Task`, so they have no effect and are not modelled.
- Concurrency: the code has no locking, and the model is sequential.
- The getters of `Task` are the fields of the Dafny datatype. `getId()` is declared nullable but never returns null, so the model's id is not optional.
- Entity.Task.WithStatus: that the receiver is unchanged is implicit in datatype value semantics, not stated. The PHP object has `readonly` fields.
- Service.TaskService.GetTasksByStatus: the contract states membership and multiplicity only. Order is stated for the repository method it calls, in `Repository.InMemoryTaskRepository.FindByStatusInOrder`.
- Service.TaskService.GetTasksByAssignee: the same; order is stated in `Repository.InMemoryTaskRepository.FindByAssigneeInOrder`.
- `in_array` in `isValidStatusTransition` compares loosely. For enum cases loose equality is identity, so the model uses plain equality.
