/**
 * The task service: create, list, update the status of, and delete tasks.
 *
 * Every mutating operation first stages its change in the repository's
 * working set and then commits once. Each request starts with nothing
 * staged, and each operation leaves nothing staged, which is what Valid()
 * says beside the repository's own invariant.
 */
module Services {
  import opened GuidText
  import opened Entities
  import opened TaskRows
  import opened Persistence

  class TasksService {
    const repository: TaskRepository

    ghost predicate Valid()
      reads this, repository
    {
      repository.Valid() && repository.Clean()
    }

    /** The committed table, keyed by identifier. */
    ghost function Tasks(): map<Guid, TaskEntity>
      reads this, repository
    {
      repository.Tasks()
    }

    constructor (repository: TaskRepository)
      requires repository.Valid() && repository.Clean()
      ensures this.repository == repository
      ensures Valid()
    {
      this.repository := repository;
    }

    /**
     * Create a task under the identifier newId, which stands for the freshly
     * generated GUID. A colliding identifier is refused before anything is
     * staged; otherwise the new, not yet completed task is added and committed.
     */
    method Create(dto: CreateTaskDto, newId: Guid) returns (r: Result<Guid>)
      requires Valid()
      modifies repository
      ensures Valid()
      ensures r.Ok? <==> newId !in old(Tasks())
      ensures r.Err? ==>
        && r.error == GuidAlreadyExists(newId)
        && repository.stored == old(repository.stored)
        && repository.saves == old(repository.saves)
      ensures r.Ok? ==>
        var task := TaskEntity(newId, dto.name, dto.description, dto.dueDate, false);
        && r.value == newId
        && Tasks() == old(Tasks())[newId := task]
        && repository.stored == old(repository.stored) + [task]
        && repository.saves == old(repository.saves) + 1
    {
      var id := newId;
      var existing := repository.GetById(id);
      if existing.Some? {
        return Err(GuidAlreadyExists(id));
      }
      var task := TaskEntity(id, dto.name, dto.description, dto.dueDate, false);
      repository.Add(task);
      repository.SaveChanges();
      return Ok(id);
    }

    /**
     * List every stored task as a view, in table order. The listing neither
     * stages nor commits anything.
     */
    method GetList() returns (views: seq<GetTaskDto>)
      requires Valid()
      ensures |views| == |repository.stored| == |Tasks()|
      ensures forall i :: 0 <= i < |views| ==> views[i] == ToView(repository.stored[i])
      ensures forall i :: 0 <= i < |views| ==>
        views[i].id in Tasks() && views[i] == ToView(Tasks()[views[i].id])
      ensures forall id :: id in Tasks() ==> exists i :: 0 <= i < |views| && views[i].id == id
    {
      var rows := repository.GetAll();
      views := seq(|rows|, i requires 0 <= i < |rows| => ToView(rows[i]));
      AsMapSize(rows);
      forall i | 0 <= i < |views|
        ensures views[i].id in Tasks() && views[i] == ToView(Tasks()[views[i].id])
      {
        AsMapAt(rows, i);
      }
      forall id | id in Tasks()
        ensures exists i :: 0 <= i < |views| && views[i].id == id
      {
        AsMapRow(rows, id);
        var i :| 0 <= i < |rows| && rows[i].id == id;
        assert views[i].id == id;
      }
    }

    /**
     * Set the completion flag of the task with the given identifier. An
     * absent task is reported and nothing is staged; otherwise only the flag
     * changes, and the change is committed.
     */
    method UpdateStatus(id: Guid, dto: UpdateTaskStatusDto) returns (r: Outcome)
      requires Valid()
      modifies repository
      ensures Valid()
      ensures r.Done? <==> id in old(Tasks())
      ensures r.Failed? ==>
        && r.error == TaskNotFound(id)
        && repository.stored == old(repository.stored)
        && repository.saves == old(repository.saves)
      ensures r.Done? ==>
        var task := old(Tasks())[id].(isCompleted := dto.isCompleted);
        && Tasks() == old(Tasks())[id := task]
        && repository.stored == Replace(old(repository.stored), task)
        && repository.saves == old(repository.saves) + 1
    {
      var found := repository.GetById(id);
      if found.None? {
        return Failed(TaskNotFound(id));
      }
      var task := found.value.(isCompleted := dto.isCompleted);
      repository.Update(task);
      repository.SaveChanges();
      return Done;
    }

    /**
     * Delete the task with the given identifier. An absent task is reported
     * and nothing is staged; otherwise exactly that row is removed and the
     * removal is committed.
     */
    method Delete(id: Guid) returns (r: Outcome)
      requires Valid()
      modifies repository
      ensures Valid()
      ensures r.Done? <==> id in old(Tasks())
      ensures r.Failed? ==>
        && r.error == TaskNotFound(id)
        && repository.stored == old(repository.stored)
        && repository.saves == old(repository.saves)
      ensures r.Done? ==>
        && Tasks() == old(Tasks()) - {id}
        && repository.stored == RemoveId(old(repository.stored), id)
        && |repository.stored| == |old(repository.stored)| - 1
        && repository.saves == old(repository.saves) + 1
    {
      var found := repository.GetById(id);
      if found.None? {
        return Failed(TaskNotFound(id));
      }
      RemoveAsMap(repository.tracked, id);
      repository.Delete(found.value);
      repository.SaveChanges();
      return Done;
    }
  }

  /**
   * A task's whole life on an empty table: create it, list it, complete it,
   * list it, delete it and list again; a status update for an identifier
   * that was never created is refused.
   */
  method TaskLifecycle(x: Guid, y: Guid)
    returns (created: Result<Guid>, afterCreate: seq<GetTaskDto>, afterUpdate: seq<GetTaskDto>,
             missing: Outcome, afterDelete: seq<GetTaskDto>)
    requires x != y
    ensures created == Ok(x)
    ensures afterCreate == [GetTaskDto(x, "Buy milk", None, None, false)]
    ensures afterUpdate == [GetTaskDto(x, "Buy milk", None, None, true)]
    ensures missing == Failed(TaskNotFound(y))
    ensures afterDelete == []
  {
    var repository := new TaskRepository([]);
    var service := new TasksService(repository);
    var open := TaskEntity(x, "Buy milk", None, None, false);
    var closed := open.(isCompleted := true);

    created := service.Create(CreateTaskDto("Buy milk", None, None), x);
    assert repository.stored == [open];
    afterCreate := service.GetList();
    assert afterCreate == [ToView(open)];

    var done := service.UpdateStatus(x, UpdateTaskStatusDto(true));
    assert repository.stored == [closed];
    afterUpdate := service.GetList();
    assert afterUpdate == [ToView(closed)];

    missing := service.UpdateStatus(y, UpdateTaskStatusDto(true));
    done := service.Delete(x);
    assert repository.stored == [];
    afterDelete := service.GetList();
  }

  /** Two creates with the same input and distinct generated identifiers make two tasks. */
  method CreateTwice(dto: CreateTaskDto, x: Guid, y: Guid)
    returns (first: Result<Guid>, second: Result<Guid>, views: seq<GetTaskDto>)
    requires x != y
    ensures first == Ok(x) && second == Ok(y)
    ensures views == [GetTaskDto(x, dto.name, dto.description, dto.dueDate, false),
                      GetTaskDto(y, dto.name, dto.description, dto.dueDate, false)]
  {
    var repository := new TaskRepository([]);
    var service := new TasksService(repository);
    first := service.Create(dto, x);
    second := service.Create(dto, y);
    views := service.GetList();
  }
}
