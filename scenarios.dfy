/** Client scenarios of the service on a fresh in-memory repository, proved from
    the contracts alone, following the behaviours the repository's tests
    exercise. Ids and clock readings are parameters. */
module Scenarios {
  import opened Wrappers
  import opened OrderedMaps
  import opened Enum
  import opened Entity
  import opened Dto
  import opened Repository
  import opened Service

  /** Creating a task with only a title and a description gives status TODO,
      no assignee, and the task can be read back by its id. */
  method CreateThenGet(id: Uuid, now: Timestamp) returns (created: Result<Task, TaskError>, read: Option<Task>)
    ensures created.Success?
    ensures created.value.title == "Test Task" && created.value.description == "This is a test task"
    ensures created.value.status == Todo && created.value.assigneeId == None
    ensures read == Some(created.value)
  {
    var repository := new InMemoryTaskRepository();
    var service := new TaskService(repository);
    created := service.CreateTask(TaskDTO("Test Task", "This is a test task"), id, now);
    read := service.GetTask(id);
  }

  /** An empty title is rejected with the `NotBlank` and `Length`
      violations, and nothing is stored. */
  method CreateWithEmptyTitle(id: Uuid, now: Timestamp) returns (created: Result<Task, TaskError>, all: seq<Task>)
    ensures created == Failure(InvalidArgument([TitleBlank, TitleTooShort]))
    ensures all == []
  {
    var repository := new InMemoryTaskRepository();
    var service := new TaskService(repository);
    var dto := TaskDTO("", "This is a test task", Some("user123"));
    assert Violations(dto) == [TitleBlank, TitleTooShort];
    created := service.CreateTask(dto, id, now);
    all := service.GetAllTasks();
  }

  /** On an empty store a lookup finds nothing, and both a status change and
      an assignment throw NotFound. */
  method UnknownId(id: Uuid, now: Timestamp)
    returns (read: Option<Task>, moved: Result<Task, TaskError>, reassigned: Result<Task, TaskError>)
    ensures read == None
    ensures moved == Failure(NotFound(id))
    ensures reassigned == Failure(NotFound(id))
  {
    var repository := new InMemoryTaskRepository();
    var service := new TaskService(repository);
    read := service.GetTask(id);
    moved := service.UpdateTaskStatus(id, InProgress, now);
    reassigned := service.AssignTask(id, "user123", now);
  }

  /** Two tasks are created and the second moves to IN_PROGRESS: the TODO
      filter and the IN_PROGRESS filter each return one task, the first and
      the second respectively. */
  method StatusFiltersAfterOneMove(id1: Uuid, id2: Uuid, now1: Timestamp, now2: Timestamp, now3: Timestamp)
    returns (todo: seq<Task>, inProgress: seq<Task>)
    requires id1 != id2
    ensures |todo| == 1 && todo[0].id == id1
    ensures |inProgress| == 1 && inProgress[0].id == id2
  {
    var service, first, second := CreateTwoStartSecond(id1, id2, now1, now2, now3);
    StatusFiltersOfTwo(service, first, second);
    todo := service.GetTasksByStatus(Todo);
    inProgress := service.GetTasksByStatus(InProgress);
  }

  /** On a fresh store, create two tasks and move the second to IN_PROGRESS;
      the store then lists the first task, still TODO, and the moved one. */
  method CreateTwoStartSecond(id1: Uuid, id2: Uuid, now1: Timestamp, now2: Timestamp, now3: Timestamp)
    returns (service: TaskService, first: Task, second: Task)
    requires id1 != id2
    ensures service.Valid() && service.GetAllTasks() == [first, second]
    ensures first.id == id1 && first.status == Todo
    ensures second.id == id2 && second.status == InProgress
  {
    var task2;
    var dto1, dto2 := TaskDTO("Task 1", "Description 1"), TaskDTO("Task 2", "Description 2");
    assert IsValid(dto1) && IsValid(dto2);
    service, first, task2 := CreateTwo(dto1, dto2, id1, id2, now1, now2);
    ghost var before := service.repository.tasks;
    GetStored(before, 1);
    var moved := service.UpdateTaskStatus(id2, InProgress, now3);
    PutExisting(before, id2.rfc4122, moved.value, 1);
    second := moved.value;
    assert service.repository.tasks == [Entry(id1.rfc4122, first), Entry(id2.rfc4122, second)];
  }

  /** On a fresh store, create two tasks from valid DTOs; the store holds
      them in creation order, both TODO. */
  method CreateTwo(dto1: TaskDTO, dto2: TaskDTO, id1: Uuid, id2: Uuid, now1: Timestamp, now2: Timestamp)
    returns (service: TaskService, first: Task, second: Task)
    requires IsValid(dto1) && IsValid(dto2)
    requires id1 != id2
    ensures fresh(service.repository) && service.Valid()
    ensures service.repository.tasks == [Entry(id1.rfc4122, first), Entry(id2.rfc4122, second)]
    ensures first == Task(id1, dto1.title, dto1.description, Todo, dto1.assigneeId, now1)
    ensures second == Task(id2, dto2.title, dto2.description, Todo, dto2.assigneeId, now2)
  {
    var repository := new InMemoryTaskRepository();
    service := new TaskService(repository);
    var task1 := service.CreateTask(dto1, id1, now1);
    assert repository.tasks == [Entry(id1.rfc4122, task1.value)];
    var task2 := service.CreateTask(dto2, id2, now2);
    first, second := task1.value, task2.value;
  }

  /** A store holding a TODO task and then an IN_PROGRESS task: each of the
      two status filters returns its task alone. */
  lemma StatusFiltersOfTwo(service: TaskService, first: Task, second: Task)
    requires service.Valid()
    requires service.GetAllTasks() == [first, second]
    requires first.status == Todo && second.status == InProgress
    ensures service.GetTasksByStatus(Todo) == [first]
    ensures service.GetTasksByStatus(InProgress) == [second]
  {
    OnlyMatch(service.GetTasksByStatus(Todo), service.GetAllTasks(), first, second, (t: Task) => t.status == Todo);
    OnlyMatch(service.GetTasksByStatus(InProgress), service.GetAllTasks(), second, first, (t: Task) => t.status == InProgress);
  }

  /** Of a store holding two tasks, a filter that keeps exactly one of them,
      and keeps each task as often as the store holds it, returns that task
      alone. */
  lemma OnlyMatch(r: seq<Task>, all: seq<Task>, kept: Task, dropped: Task, matches: Task -> bool)
    requires all == [kept, dropped] || all == [dropped, kept]
    requires matches(kept) && !matches(dropped)
    requires forall t :: multiset(r)[t] == if matches(t) then multiset(all)[t] else 0
    ensures r == [kept]
  {
    assert multiset(r) == multiset{kept} by {
      forall x ensures multiset(r)[x] == multiset{kept}[x] {
      }
    }
    assert |r| == |multiset(r)| == 1;
    assert r[0] in multiset(r);
  }

  /** A filter that keeps neither task of a two-task store returns nothing. */
  lemma NoMatch(r: seq<Task>, all: seq<Task>, matches: Task -> bool)
    requires |all| == 2 && !matches(all[0]) && !matches(all[1])
    requires forall t :: multiset(r)[t] == if matches(t) then multiset(all)[t] else 0
    ensures r == []
  {
    assert all == [all[0], all[1]];
    assert multiset(r) == multiset{} by {
      forall x ensures multiset(r)[x] == 0 {
        if matches(x) {
          assert x != all[0] && x != all[1];
        }
      }
    }
    assert |r| == |multiset(r)|;
  }

  /** Two tasks created for two users: each assignee filter returns one
      task, and a user without tasks gets none. */
  method AssigneeFilters(id1: Uuid, id2: Uuid, now1: Timestamp, now2: Timestamp)
    returns (user1: seq<Task>, user2: seq<Task>, nobody: seq<Task>)
    requires id1 != id2
    ensures |user1| == 1 && user1[0].assigneeId == Some("user1")
    ensures |user2| == 1 && user2[0].assigneeId == Some("user2")
    ensures nobody == []
  {
    var dto1, dto2 := TaskDTO("Task 1", "Description 1", Some("user1")), TaskDTO("Task 2", "Description 2", Some("user2"));
    assert IsValid(dto1) && IsValid(dto2);
    var service, first, second := CreateTwo(dto1, dto2, id1, id2, now1, now2);
    assert service.GetAllTasks() == [first, second];
    AssigneeFiltersOfTwo(service, first, second);
    user1 := service.GetTasksByAssignee("user1");
    user2 := service.GetTasksByAssignee("user2");
    nobody := service.GetTasksByAssignee("user3");
  }

  /** A store holding a task of "user1" and then one of "user2": each of
      them gets their task alone, and "user3" gets nothing. */
  lemma AssigneeFiltersOfTwo(service: TaskService, first: Task, second: Task)
    requires service.Valid()
    requires service.GetAllTasks() == [first, second]
    requires first.assigneeId == Some("user1") && second.assigneeId == Some("user2")
    ensures service.GetTasksByAssignee("user1") == [first]
    ensures service.GetTasksByAssignee("user2") == [second]
    ensures service.GetTasksByAssignee("user3") == []
  {
    var all := service.GetAllTasks();
    OnlyMatch(service.GetTasksByAssignee("user1"), all, first, second, (t: Task) => t.assigneeId == Some("user1"));
    OnlyMatch(service.GetTasksByAssignee("user2"), all, second, first, (t: Task) => t.assigneeId == Some("user2"));
    NoMatch(service.GetTasksByAssignee("user3"), all, (t: Task) => t.assigneeId == Some("user3"));
  }

  /** A task goes TODO, IN_PROGRESS, DONE and back to IN_PROGRESS. */
  method Lifecycle(id: Uuid, now: Timestamp) returns (statuses: seq<TaskStatus>)
    ensures statuses == [Todo, InProgress, Done, InProgress]
  {
    var repository := new InMemoryTaskRepository();
    var service := new TaskService(repository);
    var dto := TaskDTO("Test Task", "d");
    assert IsValid(dto);
    var created := service.CreateTask(dto, id, now);
    var started := service.UpdateTaskStatus(id, InProgress, now);
    var finished := service.UpdateTaskStatus(id, Done, now);
    var reopened := service.UpdateTaskStatus(id, InProgress, now);
    statuses := [created.value.status, started.value.status, finished.value.status, reopened.value.status];
  }

  /** A new task cannot jump from TODO to DONE; the refusal names both
      statuses and the task stays as created. */
  method JumpToDone(id: Uuid, now1: Timestamp, now2: Timestamp)
    returns (jump: Result<Task, TaskError>, read: Option<Task>)
    ensures jump == Failure(InvalidTransition(Todo, Done))
    ensures read.Some? && read.value.status == Todo
  {
    var repository := new InMemoryTaskRepository();
    var service := new TaskService(repository);
    var dto := TaskDTO("Test Task", "Description");
    assert IsValid(dto);
    var created := service.CreateTask(dto, id, now1);
    jump := service.UpdateTaskStatus(id, Done, now2);
    read := service.GetTask(id);
  }

  /** Assigning a DONE task succeeds, and assigning the same user twice
      gives tasks that differ at most in `createdAt`. */
  method AssignTwice(id: Uuid, now1: Timestamp, now2: Timestamp, now3: Timestamp, now4: Timestamp)
    returns (first: Result<Task, TaskError>, second: Result<Task, TaskError>)
    ensures first.Success? && second.Success?
    ensures first.value.status == Done && first.value.assigneeId == Some("user123")
    ensures first.value.(createdAt := now4) == second.value
  {
    var repository := new InMemoryTaskRepository();
    var service := new TaskService(repository);
    var dto := TaskDTO("Test Task", "Description");
    assert IsValid(dto);
    var created := service.CreateTask(dto, id, now1);
    var started := service.UpdateTaskStatus(id, InProgress, now2);
    var finished := service.UpdateTaskStatus(id, Done, now2);
    first := service.AssignTask(id, "user123", now3);
    second := service.AssignTask(id, "user123", now4);
  }
}
