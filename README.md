# Kanban task board: a verified model

This project models the core of a small kanban application. There are two backends with the
same behaviour, one in Kotlin and one in Java, and a React frontend. On the backend, each user
owns a table of tasks. Every task has a title, an optional description, a status
(TODO, IN_PROGRESS, DONE) and a numeric order. Only the owner of a task may change or delete
it. Users register and log in by email, and a failed operation is answered by one global
exception handler. On the frontend, a store keeps the list of tasks and updates it
optimistically. The board groups the tasks into three columns and turns a drag-and-drop into a
move request. A second small store holds the login token.

The modules follow the program's structure:

- `Wrappers`: `Option` and `Result`.
- `Entities`: the `User` record, the `Task` entity (a class whose mutable fields are `var`s,
  with its `@PreUpdate` callback), rows as stored, and status names.
- `Errors`: the exception kinds, their texts on each backend, and the exception handler as one
  total function of the backend and the exception.
- `Repositories`: the user table (keyed by email) and the task table (keyed by an IDENTITY
  id), as classes over maps.
- `Tasks`: the task service. Each operation is first stated on values, as a function from the
  tables to an `Effect` (result or exception, plus the new table). The `TaskService` class then
  carries the operation out as the source does: it loads the entity, checks the owner, calls
  the setters and saves. Each method is proved to produce exactly the effect its function
  states.
- `Auth`: registration and login, in the same two layers.
- `ClientTasks`: the frontend task store and the list operations it uses.
- `Board`: column grouping (a loop, as in the source) and the drag-start and drag-end rules.
- `ClientAuth`: the login store as a two-field state machine.

Assuming the Java `Task` and `User` entities behave like the Kotlin ones, the two backends differ only in error texts. A `Backend` parameter (`Kotlin` or `Java`)
selects the text where they differ. Everything else is one model checked against both
sources. The model table below cites the Kotlin lines for some members and the Java lines
for others.

What the callers supply:

- The requester's identity, which the controllers take from the authenticated principal, is a
  parameter.
- The clocks are parameters: `millis` for `System.currentTimeMillis()`, and a plain number for
  each reading of `LocalDateTime.now()`. A new task's two timestamp defaults are two separate
  readings (`createdNow` and `updatedNow`), so they need not be equal; `now` is the reading
  taken by `@PreUpdate` when a changed task is saved.
- The password encoder and the token provider are functions the auth service is built with.
- The authentication manager's verdict on a login is a boolean (`credentialsAccepted`) passed
  to each `authenticate` call.
- Each frontend API call is represented by its outcome: a success carrying the server's
  answer, or a failure carrying the error the call rejects with.

Decisions taken where the source leaves room:

- Saving a loaded task applies the `@PreUpdate` callback only when the entity differs from the
  stored row. This is how the persistence layer behaves: it issues no UPDATE, and so runs no
  callback, for an unchanged entity. So `updatedAt` is refreshed exactly when an update
  changed something (`Entities.Flushed`).
- `findAllByUserOrderByOrderAsc` is modelled as the user's rows sorted by order. A task
  without an order (null) sorts first. Ties keep ascending id order. Every create stores an
  order, so in a consistent table no order is null (`Tasks.Consistent`) and the nulls-first
  choice never affects a reachable listing (`Tasks.ListedOrdersAscend`).
- `updateTask` and `deleteTask` never read the user table. The requester is only compared,
  as a string, with the owner's username, which is the owner's email (`User.kt:35`). Their
  value functions take no user table.
- `authenticate` changes nothing: `Auth.AuthService.Authenticate` has no `modifies` clause.
- The Java `User` entity is not part of this model. The Java services are checked against the
  Kotlin `User` record, whose `getUsername()` returns the email.
- The Java `Task` entity is not part of this model either. The Java services are checked
  against the Kotlin `Task` entity (Task.kt): each timestamp defaults to its own clock reading, and
  `@PreUpdate` refreshes `updatedAt`. What `Tasks.CreateSpec` and `Tasks.UpdateSpec` say about
  timestamps holds for the Java backend only under that assumption.
- The board calls `moveTask(activeId, Number(overId), newStatus)` (KanbanBoard.tsx:85).
  The store declares `moveTask(activeId, newStatus, newOrder)` (taskStore.ts:18-22). So the
  board passes the status third, where the store expects the order. The board's call is
  modelled argument by argument as a `MoveCall`, and the store's `MoveTask` by its own
  signature. The two are not composed. `Board.ColumnDropPassesStatusThird` shows that a card
  dropped on another column produces NaN as the second argument and the status name as the
  third.

## Model

| member | source | states |
|---|---|---|
| `Entities.ParseStatus` | frontend/src/components/Board/KanbanBoard.tsx:46-48 | a string is read as a status exactly when it is that status's name; any other string is no status |
| `Entities.ParseStatusName` | backend-kotlin/src/main/kotlin/com/example/kanban/entity/Task.kt:19-20 | a status stored by name reads back as itself |
| `Entities.UserDetailsView` | backend-kotlin/src/main/kotlin/com/example/kanban/entity/User.kt:31-43 | username is the email, the password is the stored one, enabled exactly when not deleted, no authorities, never expired or locked |
| `Entities.NewUserIsEnabled` | backend-kotlin/src/main/kotlin/com/example/kanban/entity/User.kt:10-28 | a user built with only the required fields has no id yet, is not deleted and is enabled |
| `Entities.Task.constructor` | backend-kotlin/src/main/kotlin/com/example/kanban/entity/Task.kt:10-31 | a new task has no id, status TODO and no description or order unless given; createdAt and updatedAt are each their own clock reading; id, owner and createdAt are constants |
| `Entities.Task.Load` | backend-kotlin/src/main/kotlin/com/example/kanban/service/TaskService.kt:45-46 | the entity loaded by findById reproduces the stored row field for field |
| `Entities.Task.OnPreUpdate` | backend-kotlin/src/main/kotlin/com/example/kanban/entity/Task.kt:33-36 | the callback sets updatedAt to the present time and changes no other field |
| `Entities.Flushed` | backend-kotlin/src/main/kotlin/com/example/kanban/entity/Task.kt:33-36 | the row written back is the entity's state, with updatedAt refreshed exactly when that state differs from the stored row |
| `Errors.OrElse` | backend-kotlin/src/main/kotlin/com/example/kanban/exception/GlobalExceptionHandler.kt:20 | the exception's message when it has one, the fallback text otherwise |
| `Errors.Handle` | backend-kotlin/src/main/kotlin/com/example/kanban/exception/GlobalExceptionHandler.kt:14-57 | only NoSuchElement has no handler; body status equals HTTP status; bad credentials always get the fixed text; Kotlin always sends a message, its own when present; Java sends the exception's message as is |
| `Errors.HandledStatusCodes` | backend/src/main/java/com/example/kanban/exception/GlobalExceptionHandler.java:14-62 | 409 for a taken email, 404 for a missing task or user, 403 for a foreign task, 401 for bad credentials, on either backend |
| `Errors.TwinsAgreeOnStatus` | backend/src/main/java/com/example/kanban/exception/GlobalExceptionHandler.java:14-62 | the two backends handle the same exceptions and answer each with the same status code |
| `Errors.NotFoundKindsShareLabel` | backend-kotlin/src/main/kotlin/com/example/kanban/exception/GlobalExceptionHandler.kt:23-48 | a missing task and a missing user get the same error label |
| `Errors.JavaReasonPhrases` | backend/src/main/java/com/example/kanban/exception/GlobalExceptionHandler.java:19-59 | the Java labels are Conflict, Not Found, Forbidden, Not Found and Unauthorized |
| `Errors.BadCredentialsIgnoresMessage` | backend/src/main/java/com/example/kanban/exception/GlobalExceptionHandler.java:54-62 | the reply to bad credentials does not depend on the exception's text |
| `Repositories.UserRepository.FindByEmail` | backend-kotlin/src/main/kotlin/com/example/kanban/repository/UserRepository.kt:7 | the user stored under the email, and none exactly when there is none; a stored user has that email and an id |
| `Repositories.UserRepository.ExistsByEmail` | backend-kotlin/src/main/kotlin/com/example/kanban/repository/UserRepository.kt:8 | true exactly when findByEmail finds a user |
| `Repositories.UserRepository.Save` | backend-kotlin/src/main/kotlin/com/example/kanban/service/AuthService.kt:34 | a new user is stored under its email with the next id, and nothing else changes; every stored id stays below the counter and no two users share one |
| `Repositories.TaskRepository.FindById` | backend-kotlin/src/main/kotlin/com/example/kanban/service/TaskService.kt:45 | the row stored under the id, and none exactly when there is none; a stored row carries its own id, below the counter |
| `Repositories.TaskRepository.Save` | backend-kotlin/src/main/kotlin/com/example/kanban/service/TaskService.kt:40 | a new task is inserted under the next id; a loaded one is written back in place, through the update callback when it changed |
| `Repositories.TaskRepository.Delete` | backend-kotlin/src/main/kotlin/com/example/kanban/service/TaskService.kt:68 | exactly the row with that id is removed |
| `Tasks.ToDto` | backend/src/main/java/com/example/kanban/service/TaskService.java:88-98 | a DTO carries every field of its task as stored, except the owner, of whom it gives the name, and updatedAt |
| `Tasks.OwnedBy` | backend-kotlin/src/main/kotlin/com/example/kanban/service/TaskService.kt:48 | a task belongs to the requester exactly when the requester is its owner's email |
| `Tasks.GetUser` | backend-kotlin/src/main/kotlin/com/example/kanban/service/TaskService.kt:71-73 | the user registered under the email, else UsernameNotFound exactly when there is none; a found user's username is that email |
| `Tasks.InsertByOrder` | backend-kotlin/src/main/kotlin/com/example/kanban/repository/TaskRepository.kt:8 | inserting a row adds exactly that row |
| `Tasks.SortByOrder` | backend-kotlin/src/main/kotlin/com/example/kanban/repository/TaskRepository.kt:8 | the sort is a permutation of its input |
| `Tasks.InsertKeepsSorted` | backend-kotlin/src/main/kotlin/com/example/kanban/repository/TaskRepository.kt:8 | inserting into an ascending list keeps it ascending |
| `Tasks.InsertKeepsDistinct` | backend-kotlin/src/main/kotlin/com/example/kanban/repository/TaskRepository.kt:8 | inserting a row with a new id keeps ids distinct |
| `Tasks.SortByOrderSorts` | backend-kotlin/src/main/kotlin/com/example/kanban/repository/TaskRepository.kt:8 | the sort's output is ascending by order and keeps distinct ids distinct |
| `Tasks.OwnedRows` | backend-kotlin/src/main/kotlin/com/example/kanban/repository/TaskRepository.kt:8 | exactly the stored rows of the user, each as stored, by strictly ascending id |
| `Tasks.FindAllByUserOrderByOrderAsc` | backend-kotlin/src/main/kotlin/com/example/kanban/repository/TaskRepository.kt:8 | exactly the user's stored rows, each once, ascending by order |
| `Tasks.DtosOfRows` | backend-kotlin/src/main/kotlin/com/example/kanban/service/TaskService.kt:25-26 | mapping the queried rows to DTOs keeps them exact, complete, free of repeats and ascending |
| `Tasks.ListTasks` | backend/src/main/java/com/example/kanban/service/TaskService.java:30-35 | UsernameNotFound exactly when the requester is no user; otherwise every listed DTO is one of the requester's tasks as stored, every such task is listed, no task twice, ascending by order |
| `Tasks.TaskService.GetTasks` | backend-kotlin/src/main/kotlin/com/example/kanban/service/TaskService.kt:23-27 | read off the repositories, getTasks fails exactly for an unknown requester and otherwise gives what ListTasks states |
| `Tasks.ListedIffOwned` | backend-kotlin/src/main/kotlin/com/example/kanban/service/TaskService.kt:23-27 | a stored task is in the requester's list exactly when the requester owns it, by the same test updateTask and deleteTask use |
| `Tasks.CreateSpec` | backend/src/main/java/com/example/kanban/service/TaskService.java:37-50 | UsernameNotFound with no change for an unknown requester; otherwise one new row under the next id, status TODO, order from the clock, owner the requester, text from the request, createdAt and updatedAt the two separate clock readings of the entity's defaults, and the reply is its DTO |
| `Tasks.TaskService.CreateTask` | backend-kotlin/src/main/kotlin/com/example/kanban/service/TaskService.kt:29-42 | building the entity and saving it has exactly the effect CreateSpec states |
| `Tasks.CreatedTaskIsListed` | backend-kotlin/src/main/kotlin/com/example/kanban/service/TaskService.kt:29-42 | a created task then appears in its creator's list as a TODO with the request's text |
| `Tasks.Merge` | backend/src/main/java/com/example/kanban/service/TaskService.java:60-67 | each non-null request field replaces the stored value, each null one keeps it; id, owner, createdAt and updatedAt are not touched |
| `Tasks.UpdateSpec` | backend/src/main/java/com/example/kanban/service/TaskService.java:52-70 | TaskNotFound first, then UnauthorizedAccess, both with the table unchanged; otherwise only that task changes, each present field is written and each absent one kept, and updatedAt moves exactly when something changed |
| `Tasks.TaskService.UpdateTask` | backend-kotlin/src/main/kotlin/com/example/kanban/service/TaskService.kt:44-58 | loading, checking, calling the setters and saving has exactly the effect UpdateSpec states |
| `Tasks.EmptyUpdateChangesNothing` | backend-kotlin/src/main/kotlin/com/example/kanban/service/TaskService.kt:52-57 | an owner's update with every field absent leaves the table, updatedAt included, exactly as it was |
| `Tasks.UpdateIdempotent` | backend-kotlin/src/main/kotlin/com/example/kanban/service/TaskService.kt:52-57 | repeating the same update, at any later time, changes nothing more |
| `Tasks.DeleteSpec` | backend/src/main/java/com/example/kanban/service/TaskService.java:72-81 | TaskNotFound first, then UnauthorizedAccess, both with the table unchanged; otherwise exactly that task is removed |
| `Tasks.TaskService.DeleteTask` | backend-kotlin/src/main/kotlin/com/example/kanban/service/TaskService.kt:60-69 | the checks and the repository delete have exactly the effect DeleteSpec states |
| `Tasks.SecondDeleteFails` | backend-kotlin/src/main/kotlin/com/example/kanban/service/TaskService.kt:60-68 | after a successful delete, deleting the same id again is TaskNotFound |
| `Tasks.ForeignTasksUntouched` | backend-kotlin/src/main/kotlin/com/example/kanban/service/TaskService.kt:44-69 | neither update nor delete ever changes or removes a task the requester does not own |
| `Tasks.OperationsKeepConsistency` | backend/src/main/java/com/example/kanban/service/TaskService.java:37-81 | create, update and delete keep every row under its own id below the counter, with a registered owner and an order |
| `Tasks.ListedOrdersAscend` | backend-kotlin/src/main/kotlin/com/example/kanban/repository/TaskRepository.kt:8 | in a consistent table every listed task has an order, and the orders ascend along the listing |
| `Auth.RegisterSpec` | backend/src/main/java/com/example/kanban/service/AuthService.java:25-43 | a taken email is EmailAlreadyExists with nothing written; otherwise exactly one new enabled user with the request's name and email and the encoded password, and a reply with that user's token and name |
| `Auth.AuthService.Register` | backend-kotlin/src/main/kotlin/com/example/kanban/service/AuthService.kt:23-41 | the existence check, the save and the token have exactly the effect RegisterSpec states |
| `Auth.DuplicateRegistrationRejected` | backend-kotlin/src/main/kotlin/com/example/kanban/service/AuthService.kt:24-26 | registering an email a second time changes nothing and is answered 409 with the fixed text |
| `Auth.RegisterKeepsConsistency` | backend/src/main/java/com/example/kanban/service/AuthService.java:30-36 | registering a user keeps every task's owner registered as stored |
| `Auth.MissingUser` | backend-kotlin/src/main/kotlin/com/example/kanban/service/AuthService.kt:48-49 | a login whose user is not found throws NoSuchElement, which no handler answers; its text is the Kotlin one or Java's "No value present" |
| `Auth.AuthenticateSpec` | backend/src/main/java/com/example/kanban/service/AuthService.java:45-59 | rejected credentials fail first without a lookup; then a missing user is NoSuchElement with each backend's text; otherwise the stored user's token and name |
| `Auth.AuthService.Authenticate` | backend-kotlin/src/main/kotlin/com/example/kanban/service/AuthService.kt:43-56 | given the authentication manager's verdict on this login, the lookup and token give exactly what AuthenticateSpec states, and nothing is written |
| `Auth.AcceptedLoginFindsUser` | backend-kotlin/src/main/kotlin/com/example/kanban/config/AppConfig.kt:17-20 | when an accepted login implies its email is in the users table, as the user details service ensures, every authenticate failure is a credentials failure answered 401 |
| `Auth.RegisterThenAuthenticate` | backend-kotlin/src/main/kotlin/com/example/kanban/service/AuthService.kt:23-56 | a newly registered user whose credentials are accepted logs in and gets a token generated for the same stored user, and the same name |
| `Auth.RejectedLoginReplies` | backend/src/main/java/com/example/kanban/service/AuthService.java:46-49 | a login the credential check rejects as bad credentials is answered 401 with the fixed text on both backends |
| `ClientTasks.Spread` | frontend/src/store/taskStore.ts:51 | each field present in the changes replaces the task's, each absent one is kept; id, creator and creation time never change |
| `ClientTasks.ApplyChanges` | frontend/src/store/taskStore.ts:50-52 | same length and ids in the same order; tasks with another id unchanged; tasks with the id get the changes |
| `ClientTasks.ApplyChangesIdempotent` | frontend/src/store/taskStore.ts:51 | applying the same changes twice is applying them once, and no changes leave the list as it is |
| `ClientTasks.RemoveById` | frontend/src/store/taskStore.ts:66 | a task stays exactly when its id differs |
| `ClientTasks.RemoveByIdAppend` | frontend/src/store/taskStore.ts:66 | removal works piecewise over a concatenation, so the kept tasks keep their order |
| `ClientTasks.RemoveByIdAbsent` | frontend/src/store/taskStore.ts:66 | removing an id no task has changes nothing |
| `ClientTasks.RemoveByIdIdempotent` | frontend/src/store/taskStore.ts:66 | removing an id twice is removing it once |
| `ClientTasks.FindById` | frontend/src/store/taskStore.ts:77 | none exactly when no task has the id, else the first task that has it |
| `ClientTasks.MoveKeepsTheRest` | frontend/src/store/taskStore.ts:79 | a move changes only the status and order of the moved task |
| `ClientTasks.TaskStore.constructor` | frontend/src/store/taskStore.ts:26-28 | no tasks, not loading, no error |
| `ClientTasks.TaskStore.BeginFetch` | frontend/src/store/taskStore.ts:31 | loading, no error, tasks kept |
| `ClientTasks.TaskStore.EndFetch` | frontend/src/store/taskStore.ts:32-39 | not loading; the received list on success; the error text and the old list on failure |
| `ClientTasks.TaskStore.FetchTasks` | frontend/src/store/taskStore.ts:30-40 | fetchTasks never rejects: the list and no error on success, the old list and the error text on failure |
| `ClientTasks.TaskStore.CreateTask` | frontend/src/store/taskStore.ts:42-45 | the created task is appended after the existing ones; a failed request leaves the list and rejects |
| `ClientTasks.TaskStore.UpdateTask` | frontend/src/store/taskStore.ts:47-62 | the changes are shown at once; on failure exactly the earlier list is restored and the error is rethrown |
| `ClientTasks.TaskStore.DeleteTask` | frontend/src/store/taskStore.ts:64-74 | the task disappears at once; on failure exactly the earlier list is restored and the error is rethrown |
| `ClientTasks.TaskStore.MoveTask` | frontend/src/store/taskStore.ts:76-81 | nothing for an unknown id; otherwise updateTask with only status and order |
| `Board.ColumnOf` | frontend/src/components/Board/KanbanBoard.tsx:45-48 | a task's column is its status when that is valid, TODO otherwise |
| `Board.Column` | frontend/src/components/Board/KanbanBoard.tsx:44-50 | a column holds only tasks of the list that belong to it, and is no longer than the list |
| `Board.TasksByColumn` | frontend/src/components/Board/KanbanBoard.tsx:38-52 | the loop fills each column with exactly the tasks that belong to it, in list order |
| `Board.ColumnMembership` | frontend/src/components/Board/KanbanBoard.tsx:44-50 | a task is in a column exactly when it is in the list and belongs to that column |
| `Board.ColumnSizes` | frontend/src/components/Board/KanbanBoard.tsx:38-52 | the three columns together hold as many tasks as the list |
| `Board.ColumnAppend` | frontend/src/components/Board/KanbanBoard.tsx:44-50 | the column of a concatenation is the concatenation of the columns, so relative order is kept |
| `Board.InvalidStatusShownAsTodo` | frontend/src/components/Board/KanbanBoard.tsx:45-49 | a task with an invalid status is shown under TODO and in no other column |
| `Board.ToNumber` | frontend/src/components/Board/KanbanBoard.tsx:85 | Number() leaves a numeric id as it is, and turns a string containing a non-digit, such as a column id, into NaN |
| `Board.TargetStatus` | frontend/src/components/Board/KanbanBoard.tsx:70-82 | the column's status for a drop on a column, else the status of the card dropped on, else none |
| `Board.ShouldMove` | frontend/src/components/Board/KanbanBoard.tsx:84 | a move needs a target status and an active task whose status differs; an empty or missing target, or the card's own status, never moves |
| `Board.MoveDecision` | frontend/src/components/Board/KanbanBoard.tsx:67-86 | a move is requested exactly for a dragged card with a non-empty target status different from the card's own, and carries the active id, Number of the target id and that status |
| `Board.SameColumnDropNeverMoves` | frontend/src/components/Board/KanbanBoard.tsx:84-86 | a drop asking for the card's current status never moves anything |
| `Board.ColumnDropPassesStatusThird` | frontend/src/components/Board/KanbanBoard.tsx:85 | dropping a card on another column calls moveTask with NaN second and the status name third |
| `Board.KanbanBoard.constructor` | frontend/src/components/Board/KanbanBoard.tsx:24 | no card is being dragged |
| `Board.KanbanBoard.OnDragStart` | frontend/src/components/Board/KanbanBoard.tsx:54-58 | the dragged item becomes the active task only when its type is 'Task' |
| `Board.KanbanBoard.OnDragEnd` | frontend/src/components/Board/KanbanBoard.tsx:60-90 | a drop without a target does nothing and keeps the active task; any other drop makes the call MoveDecision states and clears the active task |
| `ClientAuth.Apply` | frontend/src/store/authStore.ts:16-17 | setAuth sets both the token and the user name; logout clears both |
| `ClientAuth.RunKeepsPaired` | frontend/src/store/authStore.ts:14-17 | over any sequence of actions, the token is null exactly when the user is |
| `ClientAuth.RunEndsWithLast` | frontend/src/store/authStore.ts:16-17 | the state after a sequence of actions is the one its last action sets |
| `ClientAuth.InitialIsLoggedOut` | frontend/src/store/authStore.ts:14-15 | initially both fields are null |
| `ClientAuth.AuthStore.constructor` | frontend/src/store/authStore.ts:14-15 | the store starts logged out |
| `ClientAuth.AuthStore.SetAuth` | frontend/src/store/authStore.ts:16 | the store's fields become what Apply gives for setAuth |
| `ClientAuth.AuthStore.Logout` | frontend/src/store/authStore.ts:17 | the store's fields become what Apply gives for logout |

## Left out

- Controllers, Spring Security, CORS, BCrypt and Swagger configuration: these are framework wiring. The requester's identity, which they supply, is an operation parameter.
- JWT generation, password encoding and credential checking: these are foreign code. They appear as functions given to the service. Two assumptions come with that form.
- The token provider is a function of the user alone. It reads no clock, so it gives the same user the same token every time. A real JWT provider stamps issue and expiry times.
- The credential check is one yes-or-no verdict, and every rejection is a BadCredentialsException. A disabled (deleted) account would be rejected with a DisabledException instead, which neither handler answers. No modelled operation sets `deleted`.
- Auth.AuthService.Authenticate: the authentication manager's verdict is an independent boolean. In the source an accepted login means the user details service found the email in the same users table (AppConfig.kt:17-20), so NoSuchElement arises only if the user disappears between the two reads; the model does not tie the verdict to the table, and `Auth.AcceptedLoginFindsUser` states the consequence of that tie.
- Auth.RegisterThenAuthenticate: promises that the login token is generated for the same stored user. It equals the registration token only because the token provider reads no clock.
- Auth.RejectedLoginReplies: covers rejections as bad credentials only. A disabled account's rejection is not modelled.
- The framework's BadCredentialsException text: the handler never shows it, so the model gives that exception no message.
- The framework's default answer to NoSuchElementException, which has no handler here: `Errors.Handle` returns none for it, and the resulting HTTP response is not modelled.
- The `timestamp` field of ErrorResponse: it is a clock reading.
- Transactions, lazy loading and the database's own ordering of null `order` values: the model fixes nulls first and ties by id.
- 64-bit `Long` arithmetic: ids and orders are unbounded integers, so overflow of the id counter or of a client-supplied order is not modelled.
- JSON (de)serialisation between the backend's DTOs and the client's tasks: the two sides are modelled separately, and a null order from the server is not represented on the client.
- The zustand `persist` middleware, async sequencing and concurrent requests: an API call is one outcome, and interleavings of several calls are not modelled.
- `ClientTasks.Spread`: models only keys that are present with a value. JavaScript's spread also copies a key that is present with the value `undefined`.
- `Board.ToNumber`: models decimal digit strings, the empty string and non-numeric strings. Whitespace, signs, fractions, exponents and hexadecimal forms of `Number()` are out of scope. No card or column id takes those forms.
- The board's `moveTask` call and the store's `moveTask` are not composed: their argument orders disagree (see above).
- Rendering, drag sensors, the drag overlay, routing and form validation: these are presentational.
