/** The task lifecycle service: validates input and status transitions, then
    writes through the repository. */
module Service {
  import opened Wrappers
  import opened OrderedMaps
  import opened Enum
  import opened Entity
  import opened Dto
  import opened Repository

  /** The exceptions the service throws. */
  datatype TaskError =
    | InvalidArgument(violations: seq<Violation>)              // \InvalidArgumentException
    | NotFound(id: Uuid)                                      // TaskNotFoundException
    | InvalidTransition(current: TaskStatus, requested: TaskStatus)  // InvalidStatusTransitionException

  /** The allowed transitions, keyed by the backing string of the current
      status. */
  const AllowedTransitions: map<string, seq<TaskStatus>> := map[
    Todo.Value() := [InProgress],
    InProgress.Value() := [Todo, Done],
    Done.Value() := [InProgress]
  ]

  /** `isValidStatusTransition`: a status may move TODO to IN_PROGRESS,
      IN_PROGRESS to TODO or DONE, and DONE to IN_PROGRESS, and no other way;
      in particular never to itself, and never directly between TODO and
      DONE. */
  function IsValidStatusTransition(current: TaskStatus, requested: TaskStatus): (r: bool)
    ensures r <==>
      || (current == Todo && requested == InProgress)
      || (current == InProgress && requested == Todo)
      || (current == InProgress && requested == Done)
      || (current == Done && requested == InProgress)
  {
    assert current.Value() in AllowedTransitions by {
      assert current == Todo || current == InProgress || current == Done;
    }
    requested in AllowedTransitions[current.Value()]
  }

  /** No status may move to itself. */
  lemma NoSelfTransition(s: TaskStatus)
    ensures !IsValidStatusTransition(s, s)
  {
  }

  /** Every allowed move can be undone by an allowed move. */
  lemma TransitionsSymmetric(a: TaskStatus, b: TaskStatus)
    ensures IsValidStatusTransition(a, b) <==> IsValidStatusTransition(b, a)
  {
  }

  /** Of the nine ordered pairs of statuses exactly four are allowed. */
  lemma FourAllowedTransitions()
    ensures |set a, b | a in Cases && b in Cases && IsValidStatusTransition(a, b) :: (a, b)| == 4
  {
    var allowed := set a, b | a in Cases && b in Cases && IsValidStatusTransition(a, b) :: (a, b);
    assert allowed == {(Todo, InProgress), (InProgress, Todo), (InProgress, Done), (Done, InProgress)};
  }

  /** Any two different statuses are joined by one allowed move or by two
      moves through IN_PROGRESS. */
  lemma ReachableThroughInProgress(a: TaskStatus, b: TaskStatus)
    requires a != b
    ensures || IsValidStatusTransition(a, b)
            || (IsValidStatusTransition(a, InProgress) && IsValidStatusTransition(InProgress, b))
  {
  }

  class TaskService {
    const repository: InMemoryTaskRepository

    ghost predicate Valid()
      reads repository
    {
      repository.Valid()
    }

    constructor (repository: InMemoryTaskRepository)
      ensures this.repository == repository
    {
      this.repository := repository;
    }

    /** `createTask`: an invalid DTO throws with its violations and stores
        nothing. A valid one yields a new task with the DTO's title,
        description and assignee, status TODO whatever the DTO's status, the
        generated id and the current time; it is saved, last write wins. */
    method CreateTask(dto: TaskDTO, generatedId: Uuid, now: Timestamp) returns (r: Result<Task, TaskError>)
      requires Valid()
      modifies repository
      ensures Valid()
      ensures !IsValid(dto) ==> r == Failure(InvalidArgument(Violations(dto))) && repository.tasks == old(repository.tasks)
      ensures IsValid(dto) ==> r.Success?
      ensures r.Success? ==>
        && r.value == Task(generatedId, dto.title, dto.description, Todo, dto.assigneeId, now)
        && repository.tasks == Put(old(repository.tasks), KeyOf(r.value), r.value)
        && GetTask(generatedId) == Some(r.value)
        && (forall id :: id != generatedId ==> GetTask(id) == old(GetTask(id)))
      ensures r.Success? && old(GetTask(generatedId)).None? ==> GetAllTasks() == old(GetAllTasks()) + [r.value]
    {
      var errors := Violations(dto);
      if |errors| > 0 {
        return Failure(InvalidArgument(errors));
      }
      var task := NewTask(dto.title, dto.description, dto.assigneeId, generatedId := generatedId, now := now);
      repository.Save(task);
      return Success(task);
    }

    /** `getTask`: the stored task with id `id`, or `None` when there is none. */
    function GetTask(id: Uuid): (r: Option<Task>)
      reads repository
      requires Valid()
      ensures r.Some? ==> r.value.id == id && r.value in GetAllTasks()
      ensures r.None? ==> forall t :: t in GetAllTasks() ==> t.id != id
    {
      repository.Find(id)
    }

    /** `getAllTasks`: every stored task once, oldest first. */
    function GetAllTasks(): (r: seq<Task>)
      reads repository
      requires Valid()
      ensures |r| == |repository.tasks|
      ensures forall i :: 0 <= i < |r| ==> r[i] == repository.tasks[i].value
      ensures forall i, j :: 0 <= i < j < |r| ==> r[i].id != r[j].id
    {
      repository.FindAll()
    }

    /** `getTasksByStatus`: the stored tasks with status `status`, each as
        often as in `getAllTasks` (once), and nothing else. */
    function GetTasksByStatus(status: TaskStatus): (r: seq<Task>)
      reads repository
      requires Valid()
      ensures forall t :: t in r ==> t.status == status
      ensures forall t :: multiset(r)[t] == if t.status == status then multiset(GetAllTasks())[t] else 0
    {
      repository.FindByStatus(status)
    }

    /** `getTasksByAssignee`: the stored tasks assigned to exactly
        `assigneeId`, each as often as in `getAllTasks` (once), and nothing
        else. */
    function GetTasksByAssignee(assigneeId: string): (r: seq<Task>)
      reads repository
      requires Valid()
      ensures forall t :: t in r ==> t.assigneeId == Some(assigneeId)
      ensures forall t :: multiset(r)[t] == if t.assigneeId == Some(assigneeId) then multiset(GetAllTasks())[t] else 0
    {
      repository.FindByAssignee(assigneeId)
    }

    /** `updateTaskStatus`: an unknown id throws NotFound, a disallowed move
        throws InvalidTransition with the current and requested status, and
        both leave the store unchanged. Otherwise the task with the new status
        replaces the stored one and is returned. */
    method UpdateTaskStatus(id: Uuid, status: TaskStatus, now: Timestamp) returns (r: Result<Task, TaskError>)
      requires Valid()
      modifies repository
      ensures Valid()
      ensures old(GetTask(id)).None? ==> r == Failure(NotFound(id)) && repository.tasks == old(repository.tasks)
      ensures old(GetTask(id)).Some? && !IsValidStatusTransition(old(GetTask(id)).value.status, status) ==>
        && r == Failure(InvalidTransition(old(GetTask(id)).value.status, status))
        && repository.tasks == old(repository.tasks)
      ensures r.Success? <==> old(GetTask(id)).Some? && IsValidStatusTransition(old(GetTask(id)).value.status, status)
      ensures r.Success? ==>
        && r.value == old(GetTask(id)).value.WithStatus(status, now)
        && repository.tasks == Put(old(repository.tasks), KeyOf(r.value), r.value)
        && GetTask(id) == Some(r.value)
        && (forall other :: other != id ==> GetTask(other) == old(GetTask(other)))
        && |GetAllTasks()| == old(|GetAllTasks()|)
    {
      var task := repository.Find(id);
      if task.None? {
        return Failure(NotFound(id));
      }
      if !IsValidStatusTransition(task.value.status, status) {
        return Failure(InvalidTransition(task.value.status, status));
      }
      var updated := task.value.WithStatus(status, now);
      repository.Update(updated);
      return Success(updated);
    }

    /** `assignTask`: an unknown id throws NotFound and leaves the store
        unchanged. Otherwise, whatever the task's status, the task with the
        new assignee replaces the stored one and is returned. */
    method AssignTask(id: Uuid, assigneeId: string, now: Timestamp) returns (r: Result<Task, TaskError>)
      requires Valid()
      modifies repository
      ensures Valid()
      ensures old(GetTask(id)).None? ==> r == Failure(NotFound(id)) && repository.tasks == old(repository.tasks)
      ensures r.Success? <==> old(GetTask(id)).Some?
      ensures r.Success? ==>
        && r.value == old(GetTask(id)).value.WithAssignee(Some(assigneeId), now)
        && repository.tasks == Put(old(repository.tasks), KeyOf(r.value), r.value)
        && GetTask(id) == Some(r.value)
        && (forall other :: other != id ==> GetTask(other) == old(GetTask(other)))
        && |GetAllTasks()| == old(|GetAllTasks()|)
    {
      var task := repository.Find(id);
      if task.None? {
        return Failure(NotFound(id));
      }
      var updated := task.value.WithAssignee(Some(assigneeId), now);
      repository.Update(updated);
      return Success(updated);
    }
  }
}
