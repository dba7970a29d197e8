/**
 * The task record, the request and response shapes of the task service, and
 * the service's two typed errors with their messages.
 */
module Entities {
  import opened GuidText

  datatype Option<T> = None | Some(value: T)

  /** A point in time, as a count of ticks; the service only copies it. */
  type DateTime = int

  /** The persisted task. Description and due date may be absent, as on the create request. */
  datatype TaskEntity = TaskEntity(
    id: Guid,
    name: string,
    description: Option<string>,
    dueDate: Option<DateTime>,
    isCompleted: bool)

  /** Body of a create request. */
  datatype CreateTaskDto = CreateTaskDto(
    name: string,
    description: Option<string>,
    dueDate: Option<DateTime>)

  /** Body of a status-update request. */
  datatype UpdateTaskStatusDto = UpdateTaskStatusDto(isCompleted: bool)

  /** Read-only view of a stored task, as returned by the listing. */
  datatype GetTaskDto = GetTaskDto(
    id: Guid,
    name: string,
    description: Option<string>,
    dueDate: Option<DateTime>,
    isCompleted: bool)

  /** The view of a task: every field copied unchanged. */
  function ToView(t: TaskEntity): GetTaskDto
  {
    GetTaskDto(t.id, t.name, t.description, t.dueDate, t.isCompleted)
  }

  /** The typed errors the service raises. */
  datatype ServiceError =
    | GuidAlreadyExists(id: Guid)
    | TaskNotFound(id: Guid)
  {
    /** The exception message the service builds for this error. */
    function Message(): string
    {
      match this
      case GuidAlreadyExists(id) => "Task with Guid: " + FormatGuid(id) + " already exists."
      case TaskNotFound(id) => "Task with ID " + FormatGuid(id) + " not found."
    }
  }

  /** Outcome of an operation that returns a value or raises a service error. */
  datatype Result<T> = Ok(value: T) | Err(error: ServiceError)

  /** Outcome of an operation that returns nothing or raises a service error. */
  datatype Outcome = Done | Failed(error: ServiceError)

  /**
   * A message names its error: two errors with the same message are the same
   * error, so the kind and the identifier can both be read back from the text.
   */
  lemma MessageIdentifiesError(e1: ServiceError, e2: ServiceError)
    ensures e1.Message() == e2.Message() ==> e1 == e2
  {
    var m1, m2 := e1.Message(), e2.Message();
    if m1 == m2 {
      match e1
      case GuidAlreadyExists(id1) =>
        assert m1[10] == 'G';
        var id2 := e2.id;
        assert e2.GuidAlreadyExists?;
        assert m1[16..52] == FormatGuid(id1);
        assert m2[16..52] == FormatGuid(id2);
        FormatGuidInjective(id1, id2);
      case TaskNotFound(id1) =>
        assert m1[10] == 'I';
        var id2 := e2.id;
        assert e2.TaskNotFound?;
        assert m1[13..49] == FormatGuid(id1);
        assert m2[13..49] == FormatGuid(id2);
        FormatGuidInjective(id1, id2);
    }
  }
}
