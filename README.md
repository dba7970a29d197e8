# ToDoList task service — a Dafny model

This project models the core of a small task-management web API. `TasksService`
creates, lists, updates the status of, and deletes tasks. Its persistence goes
through a repository and a unit of work. The unit of work's registry hands out
one repository per entity type.

The model has these parts:

- `GuidText` (`guid_text.dfy`): the 128-bit task identifier and its hyphenated
  text form (32 lower-case hexadecimal digits, grouped 8-4-4-4-12). Error messages
  quote this text. A parser is proved to read a GUID back from it, so the text
  determines the identifier.
- `Entities` (`entities.dfy`): the task record and the create, status-update and
  view records. It also holds the two service errors, `GuidAlreadyExists` and
  `TaskNotFound`, each with the exact message the service builds, and the
  `Result`/`Outcome` types that stand for "returns or throws".
- `TaskRows` (`task_rows.dfy`): the task table as a sequence of rows, in the order
  the store lists them. `AsMap` is its view as a map from id to task. Find,
  insert, overwrite and remove are functions on the rows, each proved against the
  map view.
- `Persistence` (`task_repository.dfy`): class `TaskRepository`, the repository and
  the unit of work's commit over one database context. `tracked` is the change
  tracker's working set and `stored` is the committed table. `Add`, `Update` and
  `Delete` only stage changes in `tracked`. `SaveChanges` commits them all at once
  and counts the commit in `saves`.
- `Services` (`tasks_service.dfy`): class `TasksService` with `Create`, `GetList`,
  `UpdateStatus` and `Delete`. Each is stated on the map view, on the row sequence
  and on the commit counter. Two client methods run the create, list, complete,
  delete scenario and the create-twice scenario against those contracts.
- `DataAccess` (`unit_of_work.dfy`): class `UnitOfWork<K>`, whose `repositories`
  map is keyed by an opaque entity-type key. `GetRepository` inserts only when the
  key is absent and then returns the cached entry.

Where the declarations and the service code disagree, the model follows the
service code:

- The view record has an `Id`. `GetTaskDto.cs` declares none, but `TasksService.cs:68`
  sets one.
- A task's `Description` and `DueDate` are optional, as on the create request.
  `TaskEntity.cs:7-8` declares them non-nullable, but `TasksService.cs:47-48` copies
  the nullable request fields into them.
- The repository calls take no cancellation token here, and the service
  operations are the ones `TasksService.cs` implements, not the ones
  `ITasksService.cs` declares.

## Model

| member | source | states |
|---|---|---|
| `Services.TasksService.constructor` | ToDoList.Application/Services/TasksService.cs:21-25 | The service works on the task repository it is given, which has unique ids and nothing staged. |
| `Services.TasksService.Create` | ToDoList.Application/Services/TasksService.cs:34-55 | Succeeds exactly when the generated id is not stored. On success it returns that id, the table gains exactly one entry at that id, holding the request's name, description and due date with `isCompleted` false, the row is appended, and there is exactly one commit. On collision it fails with `GuidAlreadyExists(id)`, the table is unchanged and nothing is committed. |
| `Services.TasksService.GetList` | ToDoList.Application/Services/TasksService.cs:62-74 | Returns one view per stored task, in table order. Each view copies id, name, description, due date and completion flag unchanged. Every view matches the stored task with its id, and every stored id has a view. Nothing is staged or committed (no modifies clause). |
| `Services.TasksService.UpdateStatus` | ToDoList.Application/Services/TasksService.cs:83-94 | Succeeds exactly when the id is stored. On success only that task's completion flag becomes the requested value: its other fields and every other task are unchanged, the row keeps its place, and there is exactly one commit. Otherwise it fails with `TaskNotFound(id)`, the table is unchanged and nothing is committed. |
| `Services.TasksService.Delete` | ToDoList.Application/Services/TasksService.cs:102-112 | Succeeds exactly when the id is stored. On success the table is the old table without that key, the other rows keep their order, the table shrinks by one row, and there is exactly one commit. Otherwise it fails with `TaskNotFound(id)`, the table is unchanged and nothing is committed. |
| `Services.TaskLifecycle` | ToDoList.Application/Services/TasksService.cs:34-112 | On an empty table: create returns the id; the list shows the task uncompleted; after a status update to true the list shows it completed with the other fields unchanged; an update for an unknown id fails with `TaskNotFound`; after delete the list is empty. |
| `Services.CreateTwice` | ToDoList.Application/Services/TasksService.cs:34-55 | Two creates with the same input and distinct generated ids both succeed and list as two distinct tasks, in creation order. |
| `Entities.MessageIdentifiesError` | ToDoList.Application/Services/TasksService.cs:36-41 | The messages "Task with Guid: {id} already exists." and "Task with ID {id} not found." identify their error: equal messages mean the same error kind and the same id. |
| `GuidText.ParseFormatGuid` | ToDoList.Application/Services/TasksService.cs:40 | Parsing the hyphenated text of a GUID that a message quotes gives back that GUID. |
| `GuidText.FormatGuidInjective` | ToDoList.Application/Services/TasksService.cs:88 | Distinct ids have distinct texts, so a not-found message names exactly one id. |
| `Persistence.TaskRepository.GetById` | ToDoList.Data/Repository.cs:22-25 | Finds a task exactly when the working set holds one under that id, and then returns that entry, whose id is the one asked for. |
| `Persistence.TaskRepository.GetAll` | ToDoList.Data/Repository.cs:17-20 | Returns the committed rows in table order. They have unique ids, and their map view is the committed table. |
| `Persistence.TaskRepository.Add` | ToDoList.Data/Repository.cs:27-30 | Stages the entity as a new last row. The working set gains exactly that entry, keeps unique ids, and nothing is committed. |
| `Persistence.TaskRepository.Update` | ToDoList.Data/Repository.cs:32-35 | Stages an overwrite of the row with the entity's id, in place. The working set changes at that key only, and nothing is committed. |
| `Persistence.TaskRepository.Delete` | ToDoList.Data/Repository.cs:37-40 | Stages the removal of the row with the entity's id. The working set loses exactly that key, and nothing is committed. |
| `Persistence.TaskRepository.SaveChanges` | ToDoList.Data/UnitOfWork.cs:27-30 | Commits every staged change at once. The table becomes the working set, nothing stays staged, and the commit counter goes up by one. |
| `TaskRows.AsMap` | ToDoList.Data/Repository.cs:22-25 | In the map view of the table, each task is filed under its own id. |
| `TaskRows.LookupAsMap` | ToDoList.Data/Repository.cs:22-25 | Find by primary key returns a task exactly when the map view has that key, and then returns the view's entry. |
| `TaskRows.AppendAsMap` | ToDoList.Data/Repository.cs:27-30 | Appending a row with a fresh id keeps ids unique and adds exactly that entry to the map view. |
| `TaskRows.ReplaceAsMap` | ToDoList.Data/Repository.cs:32-35 | Overwriting by id keeps the length and the uniqueness of ids, and changes the map view at that id only. It changes nothing if the id is absent. |
| `TaskRows.RemoveAsMap` | ToDoList.Data/Repository.cs:37-40 | Removing by id keeps ids unique and removes exactly that key from the map view. The table shrinks by one row exactly when the key was present. |
| `TaskRows.AsMapAt` | ToDoList.Data/Repository.cs:17-20 | With unique ids, every listed row is the map view's entry for its own id. |
| `TaskRows.AsMapRow` | ToDoList.Data/Repository.cs:17-20 | Every entry of the map view comes from some listed row. |
| `TaskRows.AsMapSize` | ToDoList.Data/Repository.cs:17-20 | With unique ids, the map view has exactly as many entries as the table has rows. |
| `DataAccess.UnitOfWork.GetRepository` | ToDoList.Data/UnitOfWork.cs:16-25 | Afterwards the key is registered and the result is exactly its entry. An already registered key returns the cached repository and leaves the registry unchanged. A new key gets a freshly built repository and nothing else changes. No entry is ever removed or replaced, and every repository serves the entity type it is filed under, so the cast succeeds. |
| `DataAccess.UnitOfWork.constructor` | ToDoList.Data/UnitOfWork.cs:9-14 | A new unit of work starts with an empty registry. |
| `DataAccess.GetRepositoryTwice` | ToDoList.Data/UnitOfWork.cs:18-24 | Two requests for the same entity type return the same repository object, and only that key is added. |

## Left out

- Asynchrony and cancellation tokens are left out. They suspend on I/O and have no logic of their own.
- `Guid.NewGuid()` (`TasksService.cs:36`) is not modelled as a random generator. The generated id is the `newId` parameter of `Create`, so both the fresh path and the colliding path can be stated.
- The ORM (`DbSet`, `DbContext.SaveChangesAsync`) is modelled only by its effect: find, list, add, overwrite and remove on rows, and one counted commit. The number of affected rows that `SaveAsync` returns is not modelled; the service ignores it. Storage failures, which propagate uncaught, are not modelled.
- The order in which the table lists its rows is modelled as insertion order: appended rows go last, and overwrite and remove keep the others in place. A database gives no such guarantee.
- The task entity is a value here. In `UpdateStatus` the source writes the flag on the tracked entity object and then calls `Update`. The model stages one overwrite with the changed value, so aliasing of the tracked object is not captured.
- `Persistence.TaskRepository.Add` requires that the key is not already tracked, and `Update` and `Delete` require that it is. The ORM throws otherwise, and the service only calls them after its own lookup.
- The `TasksService` constructor (`TasksService.cs:21-25`) obtains its repository from the unit of work's registry. In the model the service is given its `TaskRepository` directly, and the registry is modelled separately with opaque keys and repository objects.
- `UnitOfWork.Dispose` is not modelled; it is a call into the ORM.
- The HTTP controller is not modelled: routing, model-state validation and status codes. Note that it catches only the not-found error, not the collision error.
- The `[Required]` attributes are not modelled. The framework rejects a missing name before the service runs, so a name is always a string here.
- The interfaces (`IRepository`, `IUnitOfWork`, `ITasksService`) and the unused `ITasksRepository` are not modelled. They are signatures only.
- `DateTime` is an integer tick count that the service only copies. The GUID is the 128-bit number its text spells; the byte order .NET uses inside a `Guid` is not modelled.
