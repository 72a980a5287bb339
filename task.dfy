/** The task record: an immutable value whose "updaters" build new tasks. */
module Entity {
  import opened Wrappers
  import opened Enum

  /** A UUID, known by its canonical RFC 4122 text (`toRfc4122()`); two ids
      are the same exactly when their texts are. */
  datatype Uuid = Uuid(rfc4122: string)

  /** A reading of the clock (`new \DateTimeImmutable()`). */
  datatype Timestamp = Timestamp(ticks: int)

  /** A task. The getters of the record are its fields. */
  datatype Task = Task(
    id: Uuid,
    title: string,
    description: string,
    status: TaskStatus,
    assigneeId: Option<string>,
    createdAt: Timestamp
  ) {

    /** A copy of this task with status `newStatus`, built through the
        constructor, which reads the clock again (`now`). */
    function WithStatus(newStatus: TaskStatus, now: Timestamp): (r: Task)
      ensures r == this.(status := newStatus, createdAt := now)
    {
      NewTask(title, description, assigneeId, Some(newStatus), Some(id), generatedId := id, now := now)
    }

    /** A copy of this task with assignee `newAssignee`, built through the
        constructor, which reads the clock again (`now`). */
    function WithAssignee(newAssignee: Option<string>, now: Timestamp): (r: Task)
      ensures r == this.(assigneeId := newAssignee, createdAt := now)
    {
      NewTask(title, description, newAssignee, Some(status), Some(id), generatedId := id, now := now)
    }
  }

  /** The constructor `new Task(title, description, assigneeId, status, id)`.
      `generatedId` is what `Uuid::v4()` would produce; it is used only when
      no id is supplied. `now` is the clock reading it stamps as `createdAt`. */
  function NewTask(
    title: string,
    description: string,
    assigneeId: Option<string> := None,
    status: Option<TaskStatus> := None,
    id: Option<Uuid> := None,
    nameonly generatedId: Uuid,
    nameonly now: Timestamp
  ): Task
  {
    Task(
      if id.Some? then id.value else generatedId,
      title,
      description,
      if status.Some? then status.value else Todo,
      assigneeId,
      now
    )
  }

  /** With only a title and a description, the constructor gives a fresh id,
      status TODO, no assignee and the current time. */
  lemma NewTaskDefaults(title: string, description: string, generatedId: Uuid, now: Timestamp)
    ensures var t := NewTask(title, description, generatedId := generatedId, now := now);
      && t.id == generatedId
      && t.title == title
      && t.description == description
      && t.status == Todo
      && t.assigneeId == None
      && t.createdAt == now
  {
  }

  /** A supplied id is kept whatever the generator would have produced. */
  lemma NewTaskKeepsSuppliedId(
    title: string, description: string, assigneeId: Option<string>,
    status: Option<TaskStatus>, id: Uuid, generatedId: Uuid, now: Timestamp)
    ensures NewTask(title, description, assigneeId, status, Some(id), generatedId := generatedId, now := now).id == id
  {
  }

  /** `withStatus` keeps id, title, description and assignee and takes the
      new status; `createdAt` is the new clock reading, not the receiver's. */
  lemma WithStatusChangesOnlyStatus(t: Task, s: TaskStatus, now: Timestamp)
    ensures var r := t.WithStatus(s, now);
      && r.id == t.id && r.title == t.title && r.description == t.description
      && r.assigneeId == t.assigneeId && r.status == s
      && (r.createdAt == t.createdAt <==> now == t.createdAt)
  {
  }

  /** `withAssignee` keeps id, title, description and status and takes the
      new assignee; `createdAt` is the new clock reading, not the receiver's. */
  lemma WithAssigneeChangesOnlyAssignee(t: Task, a: Option<string>, now: Timestamp)
    ensures var r := t.WithAssignee(a, now);
      && r.id == t.id && r.title == t.title && r.description == t.description
      && r.status == t.status && r.assigneeId == a
      && (r.createdAt == t.createdAt <==> now == t.createdAt)
  {
  }

  /** Assigning the same assignee twice gives the same task as assigning it
      once at the later time. */
  lemma WithAssigneeIdempotent(t: Task, a: Option<string>, now1: Timestamp, now2: Timestamp)
    ensures t.WithAssignee(a, now1).WithAssignee(a, now2) == t.WithAssignee(a, now2)
  {
  }

  /** Setting the old status back undoes `withStatus`, up to `createdAt`. */
  lemma WithStatusUndo(t: Task, s: TaskStatus, now1: Timestamp, now2: Timestamp)
    ensures t.WithStatus(s, now1).WithStatus(t.status, now2) == t.(createdAt := now2)
  {
  }
}
