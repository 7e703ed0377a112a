# To-do task backend: a verified model

This project models the core of a small to-do CRUD backend written in Java:

- the persisted `Task` entity and the `TaskDTO` transport object, each a class with four mutable fields (id, title, description, completed) behind getters and setters;
- `TaskMapper`, which copies fields between the two;
- `TaskService`, which reads and changes the task table through a repository;
- `TaskController`, which turns found/absent lookups into 200, 204 and 404 responses.

Modules:

- `Wrappers` holds `Option`, used for Java `null` and `Optional`.
- `Fields` holds `TaskFields`, the value of the four fields. It is the abstract state of both classes (`State()`). It also holds `Overwrite`, the value-level meaning of `updateEntityFromDTO`.
- `Model` and `Dto` are the two classes.
- `Mapper` is the mapper class, with three methods that state its round trips and idempotence outside the class.
- `Store` gives the repository's semantics as functions on a `Table`. A table is a `map<int, TaskFields>` from primary key to row plus the identity sequence `nextId`, which numbers new rows from 1. Its invariant `Valid()` says every row is stored under its own id and every key is below `nextId`.
- `Service` is the service class. Its fields are the table (`rows`, `nextId`). Every lookup hands out a new entity object loaded from the row.
- `Endpoints` gives the answer and resulting table of GET, POST, PUT and DELETE on a single task as functions. It also gives the controller as a state machine over request sequences (`Step`, `Run`), with lemmas about such sequences. Listing all tasks has no function here: its order is the table's own, so it is specified by the predicate `Store.Enumerates` (every row exactly once).
- `Controller` is the controller class. `GetAllTasks` is specified by `Store.Enumerates`. `GetTaskById`, `UpdateTask` and `DeleteTask` are proved equal to `GetResult`, `UpdateResult` and `DeleteResult`. `CreateTask` is proved equal to `CreateResult` only where the save is determined, that is, unless the body carries an id that is not stored.

A create is easily read as ignoring an id sent in the body, since the store assigns ids. The code does not ignore it: `toEntity` copies the id, and `save` then overwrites the stored row with that id. The model follows the code; `Endpoints.CreateWithStoredIdOverwrites` states the consequence.

## Model

| member | source | states |
|---|---|---|
| `Model.Task.constructor` | src/main/java/com/principal/todoapp/model/Task.java:12-19 | a new entity has id, title and description null and completed false |
| `Model.Task.FromContent` | src/main/java/com/principal/todoapp/model/Task.java:22-26 | stores the given title, description and completed; the id stays null |
| `Model.Task.GetId` | src/main/java/com/principal/todoapp/model/Task.java:29-31 | returns the current id and changes nothing |
| `Model.Task.GetTitle` | src/main/java/com/principal/todoapp/model/Task.java:33-35 | returns the current title and changes nothing |
| `Model.Task.GetDescription` | src/main/java/com/principal/todoapp/model/Task.java:37-39 | returns the current description and changes nothing |
| `Model.Task.IsCompleted` | src/main/java/com/principal/todoapp/model/Task.java:41-43 | returns the current completed flag and changes nothing |
| `Model.Task.SetId` | src/main/java/com/principal/todoapp/model/Task.java:46-48 | the id becomes the argument; the other three fields are unchanged |
| `Model.Task.SetTitle` | src/main/java/com/principal/todoapp/model/Task.java:50-52 | the title becomes the argument; the other three fields are unchanged |
| `Model.Task.SetDescription` | src/main/java/com/principal/todoapp/model/Task.java:54-56 | the description becomes the argument; the other three fields are unchanged |
| `Model.Task.SetCompleted` | src/main/java/com/principal/todoapp/model/Task.java:58-60 | the completed flag becomes the argument; the other three fields are unchanged |
| `Dto.TaskDTO.constructor` | src/main/java/com/principal/todoapp/dto/TaskDTO.java:6-11 | a new DTO has id, title and description null and completed false |
| `Dto.TaskDTO.FromFields` | src/main/java/com/principal/todoapp/dto/TaskDTO.java:14-19 | stores exactly the given id, title, description and completed |
| `Dto.TaskDTO.GetId` | src/main/java/com/principal/todoapp/dto/TaskDTO.java:22 | returns the current id and changes nothing |
| `Dto.TaskDTO.GetTitle` | src/main/java/com/principal/todoapp/dto/TaskDTO.java:23 | returns the current title and changes nothing |
| `Dto.TaskDTO.GetDescription` | src/main/java/com/principal/todoapp/dto/TaskDTO.java:24 | returns the current description and changes nothing |
| `Dto.TaskDTO.IsCompleted` | src/main/java/com/principal/todoapp/dto/TaskDTO.java:25 | returns the current completed flag and changes nothing |
| `Dto.TaskDTO.SetId` | src/main/java/com/principal/todoapp/dto/TaskDTO.java:28 | the id becomes the argument; the other fields are unchanged |
| `Dto.TaskDTO.SetTitle` | src/main/java/com/principal/todoapp/dto/TaskDTO.java:29 | the title becomes the argument; the other fields are unchanged |
| `Dto.TaskDTO.SetDescription` | src/main/java/com/principal/todoapp/dto/TaskDTO.java:30 | the description becomes the argument; the other fields are unchanged |
| `Dto.TaskDTO.SetCompleted` | src/main/java/com/principal/todoapp/dto/TaskDTO.java:31 | the completed flag becomes the argument; the other fields are unchanged |
| `Mapper.TaskMapper.ToDTO` | src/main/java/com/principal/todoapp/mapper/TaskMapper.java:10-17 | returns a new DTO whose four fields equal the entity's |
| `Mapper.TaskMapper.ToEntity` | src/main/java/com/principal/todoapp/mapper/TaskMapper.java:20-27 | returns a new entity whose four fields, the id included, equal the DTO's; the DTO is not modified |
| `Mapper.TaskMapper.UpdateEntityFromDTO` | src/main/java/com/principal/todoapp/mapper/TaskMapper.java:30-34 | the entity takes the DTO's title, description and completed and keeps its id; the DTO is unchanged |
| `Mapper.EntityRoundTrip` | src/main/java/com/principal/todoapp/mapper/TaskMapper.java:10-27 | entity to DTO to entity gives a new entity with the same four fields |
| `Mapper.DTORoundTrip` | src/main/java/com/principal/todoapp/mapper/TaskMapper.java:10-27 | DTO to entity to DTO gives a new DTO with the same four fields |
| `Mapper.UpdateTwice` | src/main/java/com/principal/todoapp/mapper/TaskMapper.java:30-34 | applying the same DTO twice leaves the entity as one application does |
| `Fields.Overwrite` | src/main/java/com/principal/todoapp/mapper/TaskMapper.java:30-34 | the updated value keeps the entity's id and agrees with the DTO in every other field |
| `Fields.OverwriteIdempotent` | src/main/java/com/principal/todoapp/mapper/TaskMapper.java:30-34 | updating twice with the same DTO equals updating once |
| `Fields.OverwriteForgetsOldContent` | src/main/java/com/principal/todoapp/mapper/TaskMapper.java:30-34 | the update does not depend on the entity's previous title, description or completed flag |
| `Store.FindById` | src/main/java/com/principal/todoapp/service/TaskService.java:28-32 | a row is found iff the id is a key, and in a valid table the found row carries that id |
| `Store.Save` | src/main/java/com/principal/todoapp/service/TaskService.java:40-44 | without an id: a new row under the identity sequence's next key, which is not in the table, and the sequence advances; with a stored id: that row is overwritten and the sequence stays; the content is kept, other rows are unchanged, validity is preserved |
| `Store.DeleteById` | src/main/java/com/principal/todoapp/service/TaskService.java:34-38 | the key is removed, every other row and the identity sequence stay, validity is preserved |
| `Store.EnumeratesLength` | src/main/java/com/principal/todoapp/service/TaskService.java:22-26 | a list of all tasks, each exactly once, has as many entries as the table has rows |
| `Service.TaskService.constructor` | src/main/java/com/principal/todoapp/service/TaskService.java:17-20 | the service starts over an empty, valid table |
| `Service.TaskService.ObtenerTodos` | src/main/java/com/principal/todoapp/service/TaskService.java:22-26 | returns new entities listing every stored task exactly once; the table is unchanged |
| `Service.TaskService.ObtenerPorId` | src/main/java/com/principal/todoapp/service/TaskService.java:28-32 | returns a task iff the id is stored, with that id and the stored fields; the table is unchanged |
| `Service.TaskService.EliminarTask` | src/main/java/com/principal/todoapp/service/TaskService.java:34-38 | the table becomes `Store.DeleteById` of the old table and stays valid |
| `Service.TaskService.GuardarTask` | src/main/java/com/principal/todoapp/service/TaskService.java:40-44 | the table and the returned task are those of `Store.Save`; a new task gets its key written into it; the returned task is stored under its id; in every case, including an unstored id, every other row is unchanged |
| `Controller.TaskController.constructor` | src/main/java/com/principal/todoapp/controller/TaskController.java:45-51 | keeps the given service and mapper |
| `Controller.TaskController.GetAllTasks` | src/main/java/com/principal/todoapp/controller/TaskController.java:56-66 | the body lists every stored task exactly once, as the DTO of that task; the table is unchanged |
| `Controller.TaskController.GetTaskById` | src/main/java/com/principal/todoapp/controller/TaskController.java:71-82 | the answer is `Endpoints.GetResult`: 200 with the DTO if stored, else 404 with no body; the table is unchanged |
| `Controller.TaskController.CreateTask` | src/main/java/com/principal/todoapp/controller/TaskController.java:87-95 | answers 200 with the saved task, whose id is a key of the table afterwards, and every other row is unchanged; where the save is determined, table and answer are `Endpoints.CreateResult` |
| `Controller.TaskController.UpdateTask` | src/main/java/com/principal/todoapp/controller/TaskController.java:100-118 | table and answer are `Endpoints.UpdateResult` |
| `Controller.TaskController.DeleteTask` | src/main/java/com/principal/todoapp/controller/TaskController.java:123-138 | table and answer are `Endpoints.DeleteResult` |
| `Endpoints.GetResult` | src/main/java/com/principal/todoapp/controller/TaskController.java:71-82 | 200 with the stored task iff the id is stored, otherwise 404 with no body |
| `Endpoints.CreateResult` | src/main/java/com/principal/todoapp/controller/TaskController.java:87-95 | 200 with the saved task; without a body id it is a new row under a key not in the table; with a stored body id that row is overwritten; other rows unchanged; validity preserved |
| `Endpoints.UpdateResult` | src/main/java/com/principal/todoapp/controller/TaskController.java:100-118 | absent id: 404, no body, table unchanged; present id: 200 with the DTO's content under the path id (the body id is ignored), that row replaced, nothing else changed |
| `Endpoints.DeleteResult` | src/main/java/com/principal/todoapp/controller/TaskController.java:123-138 | 204 and the row removed iff the id is stored, otherwise 404 and the table unchanged; never a body |
| `Endpoints.Step` | src/main/java/com/principal/todoapp/controller/TaskController.java:53-138 | every endpoint, where determined, leaves a valid table |
| `Endpoints.RunPreservesValid` | src/main/java/com/principal/todoapp/controller/TaskController.java:53-138 | any served sequence of requests leaves a valid table |
| `Endpoints.RunKeepsUntargeted` | src/main/java/com/principal/todoapp/controller/TaskController.java:98-138 | a stored task that no update, delete or create names is unchanged after any served sequence |
| `Endpoints.StepNeverRevives` | src/main/java/com/principal/todoapp/model/Task.java:9-12 | one request never stores a key that the identity sequence has passed and that is absent |
| `Endpoints.RunNeverRevives` | src/main/java/com/principal/todoapp/model/Task.java:9-12 | a deleted key is never stored again by any served sequence |
| `Endpoints.DeleteThenGetNotFound` | src/main/java/com/principal/todoapp/controller/TaskController.java:121-138 | deleting a stored id answers 204, and a later lookup of it answers 404 |
| `Endpoints.UpdateThenGet` | src/main/java/com/principal/todoapp/controller/TaskController.java:98-118 | after an update, a lookup answers what the update answered |
| `Endpoints.CreateThenGet` | src/main/java/com/principal/todoapp/controller/TaskController.java:85-95 | after a create, a lookup of the answered id answers the same task |
| `Endpoints.CreateWithStoredIdOverwrites` | src/main/java/com/principal/todoapp/controller/TaskController.java:87-93 | a create whose body id is stored overwrites that task and adds no row |
| `Endpoints.BuyMilkScenario` | src/main/java/com/principal/todoapp/controller/TaskController.java:53-138 | from an empty database: create answers id 1, get returns it, update answers the new content under id 1, delete answers 204, get answers 404 |

## Left out

- Spring wiring, routing annotations, path-variable parsing, JSON (de)serialisation and `ResponseEntity` internals. A response is a status plus the DTO's field values; `getAllTasks` returns the list of field values.
- The repository interface has no code of its own. Its behaviour is the table semantics in `Store`.
- Identity generation is a counter starting at 1, as an identity column numbers rows. Keys are unbounded integers: the 64-bit range of `Long` and its overflow are not modelled.
- Service.TaskService.GuardarTask: saving an entity whose id is not stored is not pinned down. Depending on the persistence library version it inserts a new row or throws. The contract only keeps the table valid, stores what it returns and leaves every other row unchanged. The body inserts under a new key.
- Endpoints.CreateResult: for a body id that is not stored it returns `None` (outcome not determined), and `Run` yields `None` for any sequence that contains such a create.
- Controller.TaskController.CreateTask: for a body id that is not stored, only the 200 answer, the stored result and the unchanged other rows are stated.
- Service.TaskService.GuardarTask: when it updates, it returns its argument. The persistence layer's merge returns the managed instance; the field values are the same.
- Entity identity across calls (one managed object per row within a request) is not modelled. Every lookup returns a new object loaded from the row.
- `deleteById` on an absent id is modelled as a no-op. The controller never calls it for an absent id.
- The order of `findAll` is whatever the table yields; the model picks keys in an unspecified order.
- Transactions, concurrency between requests and database failures belong to the runtime and the database.
- Titles and descriptions are opaque optional strings; the code validates nothing.
