# Project-Tasks: a Dafny model of the task, project and error-handling core

Project-Tasks is a small project manager. A Spring back end stores users,
projects and tasks. A React front end turns the back end's error answers into
messages and error pages. This project models the core of both sides and
proves properties of the model:

- **Request records** (`Dtos`). These are the bean-validation constraints of
  the task-creation, task-update, project-update and task-filter records,
  including Java's `trim`/`isBlank` distinction (`JavaText`).
- **Task query** (`TaskRepository`). The repository's JPQL filter is a
  predicate on tasks, and SQL `LIKE` sees `%` and `_` as wildcards.
- **Paging** (`Paging`). Spring's page slicing, and its copy into the
  `PagedResponse` record.
- **Database state** (`Store`). A `Database` class holds the user, project and
  task tables and the identifier counters. Its invariant ties each task to the
  one project that lists it.
- **Services** (`TaskService`, `ProjectService`, `AuthService`). Each service
  operation is a method on the database. Read-only lookups are functions.
  Every method keeps the invariant and states its new state in full.
- **Back-end exception handler** (`GlobalExceptionHandler`). It maps each
  exception to its HTTP answer.
- **Front-end error handling** (`ErrorHandler`). This is the classifier
  `handleApiError`, the display helpers and the error-page choice, over a
  small JSON model (`Json`).
- **End to end** (`EndToEnd`). Each back-end answer is traced as the front
  end reads it.

The source paths below are relative to the repository root.

## Model

| member | source | states |
|---|---|---|
| JavaText.Trim | ProjectTasksBackEnd/src/main/java/ma/ensa/projecttasksbackend/service/TaskService.java:47 | The result of `String.trim` is no longer than its input. When non-empty, it starts and ends with a character above U+0020. It is empty exactly when every character is at most U+0020, which is what `@NotBlank` rejects. |
| JavaText.TrimIsInnerSlice | ProjectTasksBackEnd/src/main/java/ma/ensa/projecttasksbackend/service/TaskService.java:47 | The result of `trim` is the slice `s[i..j]` of its input, with only characters up to U+0020 before `i` and from `j` on. |
| JavaText.TrimStart | ProjectTasksBackEnd/src/main/java/ma/ensa/projecttasksbackend/dto/task/TaskCreateDTO.java:9 | The result is a suffix of the input. Every character dropped is trimmable, and the result's first character is not. It is empty exactly when the whole input was trimmable. |
| JavaText.TrimEnd | ProjectTasksBackEnd/src/main/java/ma/ensa/projecttasksbackend/dto/task/TaskCreateDTO.java:9 | The same as `TrimStart`, at the end of the string: a prefix, trimmable dropped characters, a non-trimmable last character. |
| JavaText.LeadingTrimmable | ProjectTasksBackEnd/src/main/java/ma/ensa/projecttasksbackend/service/TaskService.java:47 | How far `trim` advances its start index: every character before it is at most U+0020, and the one there, if any, is not. |
| JavaText.TrailingTrimmable | ProjectTasksBackEnd/src/main/java/ma/ensa/projecttasksbackend/service/TaskService.java:47 | How far `trim` moves its end index back: every character after it is at most U+0020, and the one before, if any, is not. |
| JavaText.ToLowerCase | ProjectTasksBackEnd/src/main/java/ma/ensa/projecttasksbackend/service/TaskService.java:47 | Keeps the length and lower-cases each character in place. |
| Dtos.JavaLength | ProjectTasksBackEnd/src/main/java/ma/ensa/projecttasksbackend/dto/project/UpdateProjectDTO.java:8 | The UTF-16 length `@Size` measures lies between the number of characters and twice that number. |
| Dtos.CreateTaskViolations | ProjectTasksBackEnd/src/main/java/ma/ensa/projecttasksbackend/dto/task/TaskCreateDTO.java:9-14 | "Title is required" is reported exactly when the title is null or trims to empty. "Due date must be in the present or future" is reported exactly when a due date is before now. Nothing else is ever reported. |
| Dtos.CreateTaskValidity | ProjectTasksBackEnd/src/main/java/ma/ensa/projecttasksbackend/dto/task/TaskCreateDTO.java:9-14 | Both directions: a creation record is valid exactly when its title is not blank and its due date is absent or not before now. The description never matters. |
| Dtos.WhitespaceTitleIsRequired | ProjectTasksBackEnd/src/main/java/ma/ensa/projecttasksbackend/dto/task/TaskCreateDTO.java:10-11 | A title made only of characters up to U+0020, or a missing title, is reported as required. |
| Dtos.EmptyTitleExample | ProjectTasksBackEnd/src/test/java/ma/ensa/projecttasksbackend/controller/TaskControllerTest.java:71-79 | The test's empty title is refused in both possible timings of its `new Date()`. With the date still the present, only the title error appears. With the date already past when validation runs, both the title and the due-date errors appear. |
| Dtos.TitledTaskExample | ProjectTasksBackEnd/src/test/java/ma/ensa/projecttasksbackend/controller/TaskControllerTest.java:53-69 | The test's "Test Task" without a due date is valid. |
| Dtos.UpdateTaskViolations | ProjectTasksBackEnd/src/main/java/ma/ensa/projecttasksbackend/dto/task/TaskUpdateDTO.java:9-14 | The update record has the same constraints as creation. `completed` is unconstrained. |
| Dtos.UpdateTaskValidity | ProjectTasksBackEnd/src/main/java/ma/ensa/projecttasksbackend/dto/task/TaskUpdateDTO.java:9-14 | Both directions: valid exactly when the title is not blank and the due date is not in the past, whatever `completed` holds. |
| Dtos.UpdateProjectViolations | ProjectTasksBackEnd/src/main/java/ma/ensa/projecttasksbackend/dto/project/UpdateProjectDTO.java:7-10 | The required error is reported exactly when the title is blank or null. The size error is reported exactly when a present title's UTF-16 length is outside 4..50. No other error is reported. |
| Dtos.UpdateProjectValidity | ProjectTasksBackEnd/src/main/java/ma/ensa/projecttasksbackend/dto/project/UpdateProjectDTO.java:7-10 | Both directions: valid exactly when the title is present, does not trim to empty and measures 4 to 50. The description is free. |
| Dtos.ShortTitleExample | ProjectTasksBackEnd/src/test/java/ma/ensa/projecttasksbackend/controller/ProjectControllerTest.java:133-141 | The test's title "ab" gives exactly the size error. |
| Dtos.SpacesTitleExample | ProjectTasksBackEnd/src/main/java/ma/ensa/projecttasksbackend/dto/project/UpdateProjectDTO.java:8-9 | Four spaces pass `@Size` but fail `@NotBlank`. |
| Dtos.BothTitleConstraintsExample | ProjectTasksBackEnd/src/main/java/ma/ensa/projecttasksbackend/dto/project/UpdateProjectDTO.java:8-9 | Three spaces fail both constraints on the same field. A null title fails only `@NotBlank`, because `@Size` accepts null. |
| Dtos.FilterViolations | ProjectTasksBackEnd/src/main/java/ma/ensa/projecttasksbackend/dto/task/TaskFilterDTO.java:17-23 | The filter is rejected exactly when `isDateRangeValid` is false. The rejection is one error with the record's message. |
| Dtos.DateRangeValidity | ProjectTasksBackEnd/src/main/java/ma/ensa/projecttasksbackend/dto/task/TaskFilterDTO.java:17-23 | A range missing either bound is valid. With both bounds present, it is valid exactly when the start is strictly before the end, so equal bounds are rejected. |
| TaskRepository.PercentMatchesAll | ProjectTasksBackEnd/src/main/java/ma/ensa/projecttasksbackend/repository/TaskRepository.java:18 | `LIKE '%'` matches every string. |
| TaskRepository.LikePrefix | ProjectTasksBackEnd/src/main/java/ma/ensa/projecttasksbackend/repository/TaskRepository.java:18 | For a wildcard-free `q`, `s LIKE q%` holds exactly when `q` is a prefix of `s`. |
| TaskRepository.LikeLeadingPercent | ProjectTasksBackEnd/src/main/java/ma/ensa/projecttasksbackend/repository/TaskRepository.java:18 | `s LIKE %rest` holds exactly when some suffix of `s` matches `rest`. |
| TaskRepository.SurroundedPatternIsContainment | ProjectTasksBackEnd/src/main/java/ma/ensa/projecttasksbackend/repository/TaskRepository.java:18 | For a wildcard-free `q`, `s LIKE %q%` holds exactly when `q` occurs in `s`. |
| TaskRepository.UnderscoreIsWildcard | ProjectTasksBackEnd/src/main/java/ma/ensa/projecttasksbackend/repository/TaskRepository.java:18 | Both directions: the pattern `_` matches exactly the one-character strings. |
| TaskRepository.SurroundedUnderscoreMatchesNonEmpty | ProjectTasksBackEnd/src/main/java/ma/ensa/projecttasksbackend/repository/TaskRepository.java:18 | Both directions: the pattern `%_%` matches exactly the non-empty strings. |
| TaskRepository.FindByProject | ProjectTasksBackEnd/src/main/java/ma/ensa/projecttasksbackend/repository/TaskRepository.java:17-21 | The selection is no longer than its input. A task is selected exactly when it is among the rows and passes every clause of the `WHERE`. |
| TaskRepository.NoFiltersSelectsProject | ProjectTasksBackEnd/src/main/java/ma/ensa/projecttasksbackend/repository/TaskRepository.java:17-21 | With every optional parameter null, the query returns all of the project's tasks, in order. |
| TaskRepository.EqualBoundsSelectThatDay | ProjectTasksBackEnd/src/main/java/ma/ensa/projecttasksbackend/repository/TaskRepository.java:20-21 | Both bounds are inclusive. Equal bounds keep exactly the tasks whose stored due date is that instant, and a task without a due date fails. |
| TaskRepository.DayBoundsSelectByDay | ProjectTasksBackEnd/src/main/java/ma/ensa/projecttasksbackend/repository/TaskRepository.java:20-21 | Both directions: with bounds parsed from dates (midnights) and a due date stored as its day, a task is kept exactly when the day it was given lies between the two bound days, both included, whatever time of day it carried. An upper bound alone keeps the tasks due on or before its day. |
| Entities.StartOfDay | ProjectTasksBackEnd/src/main/java/ma/ensa/projecttasksbackend/entity/Task.java:27-29 | Midnight of the instant's day: at or before it, less than a day earlier, on the same day. |
| Entities.StoredDueDate | ProjectTasksBackEnd/src/main/java/ma/ensa/projecttasksbackend/entity/Task.java:27-29 | A `DATE` column keeps the day of a due date: null stays null, and an instant becomes a value on its own day no later than it, less than a day earlier. |
| Paging.Paginate | ProjectTasksBackEnd/src/main/java/ma/ensa/projecttasksbackend/service/TaskService.java:49-56 | The page is exactly the window of `rows` from `page*size` on: `min(size, rows left)` rows, in order, empty past the end. The total counts every row. The page count is the least that covers the rows. `last` holds exactly when no page follows. |
| Paging.Window | ProjectTasksBackEnd/src/main/java/ma/ensa/projecttasksbackend/service/TaskService.java:49-56 | Exactly `min(size, rows left after start)` elements, namely those from `start` on, in order. |
| Paging.PageCount | ProjectTasksBackEnd/src/main/java/ma/ensa/projecttasksbackend/service/TaskService.java:69 | The page count is the smallest that covers `n` rows, and 0 for no rows. |
| Paging.ToPagedResponse | ProjectTasksBackEnd/src/main/java/ma/ensa/projecttasksbackend/service/TaskService.java:60-71 | The content is mapped element by element. Number, size, total, page count and `last` are copied unchanged. |
| Store.AddUserKeepsConsistent | ProjectTasksBackEnd/src/main/java/ma/ensa/projecttasksbackend/service/AuthService.java:31-37 | Saving a new user under a new email and the next identifier keeps the database invariant. |
| Store.AddTaskKeepsConsistent | ProjectTasksBackEnd/src/main/java/ma/ensa/projecttasksbackend/service/TaskService.java:31-38 | The next task identifier is unused. Saving a task under it and listing it in its project keeps the invariant. |
| Store.ReplaceTaskKeepsConsistent | ProjectTasksBackEnd/src/main/java/ma/ensa/projecttasksbackend/service/TaskService.java:83 | Saving a task with the same identifier and project keeps the invariant. |
| Store.RemoveTaskKeepsConsistent | ProjectTasksBackEnd/src/main/java/ma/ensa/projecttasksbackend/service/TaskService.java:98-103 | Removing a task from its project's list and from the table keeps the invariant. |
| Store.AddProjectKeepsConsistent | ProjectTasksBackEnd/src/main/java/ma/ensa/projecttasksbackend/service/ProjectService.java:33-39 | The next project identifier is unused. A new, empty project of an existing user keeps the invariant. |
| Store.ReplaceProjectKeepsConsistent | ProjectTasksBackEnd/src/main/java/ma/ensa/projecttasksbackend/service/ProjectService.java:67-69 | Saving a project with the same owner and task list keeps the invariant. |
| Store.RemoveProjectKeepsConsistent | ProjectTasksBackEnd/src/main/java/ma/ensa/projecttasksbackend/entity/Project.java:30-36 | Deleting a project together with all of its tasks (cascade, orphan removal) keeps the invariant. |
| Store.TasksOf | ProjectTasksBackEnd/src/main/java/ma/ensa/projecttasksbackend/entity/Project.java:30-36 | Holds exactly the tasks whose project is the given one, unchanged. |
| Store.ProjectTasks | ProjectTasksBackEnd/src/main/java/ma/ensa/projecttasksbackend/entity/Project.java:36 | When every listed identifier is stored, the result is the list's tasks, in list order. Every element is a stored task. |
| Store.RemoveFirst | ProjectTasksBackEnd/src/main/java/ma/ensa/projecttasksbackend/service/TaskService.java:99 | `List.remove` drops one element when present and changes nothing otherwise. It keeps every other element and adds none. On a list without duplicates, the element is gone and no duplicates appear. |
| Store.Database.constructor | ProjectTasksBackEnd/src/main/java/ma/ensa/projecttasksbackend/entity/Project.java:19-21 | An empty database satisfies the invariant, with every identity counter at 1. |
| TaskService.GetProjectOwnedByUser | ProjectTasksBackEnd/src/main/java/ma/ensa/projecttasksbackend/service/TaskService.java:106-111 | Both directions: succeeds exactly when the project exists and its owner's email is the caller's, and returns that project. Otherwise it fails with EntityNotFound("Project not found or access denied"). ProjectService's `getProjectEntityInternal` (ProjectService.java:78-83) is the same check and uses this member. |
| TaskService.GetTaskOwnedByUser | ProjectTasksBackEnd/src/main/java/ma/ensa/projecttasksbackend/service/TaskService.java:112-117 | Both directions: succeeds exactly when the task exists and its project's owner is the caller, and returns that task. Otherwise it fails with EntityNotFound("Task not found or access denied"). |
| TaskService.FormatQuery | ProjectTasksBackEnd/src/main/java/ma/ensa/projecttasksbackend/service/TaskService.java:45-48 | No text filter applies exactly when the query is null or `isBlank`. |
| TaskService.QueryIsSubstringSearch | ProjectTasksBackEnd/src/main/java/ma/ensa/projecttasksbackend/service/TaskService.java:45-48 | For a non-blank query without wildcards, a task passes the text filter exactly when its lower-cased title or description contains the trimmed, lower-cased query. |
| TaskService.UnderscoreQueryMatchesAnyText | ProjectTasksBackEnd/src/main/java/ma/ensa/projecttasksbackend/service/TaskService.java:45-48 | The query is not escaped. A search for `_` becomes `%_%`, and a task passes it exactly when its title or description is non-empty. |
| TaskService.NewestFirst | ProjectTasksBackEnd/src/main/java/ma/ensa/projecttasksbackend/controller/TaskController.java:38 | The creation-ordered list is reversed position by position, with the same elements. |
| TaskService.ListedTasks | ProjectTasksBackEnd/src/main/java/ma/ensa/projecttasksbackend/service/TaskService.java:49-56 | Both directions: exactly the project's stored tasks that pass the filter, never more than it lists. |
| TaskService.PageHoldsMatchingTasks | ProjectTasksBackEnd/src/main/java/ma/ensa/projecttasksbackend/service/TaskService.java:49-71 | The page of the matching rows is their requested window, in order, of exactly `min(size, rows left)` entries. It echoes number and size, counts every matching row, and has the least covering page count and Spring's `last` flag. For rows drawn from a table keyed by identifier, each entry is also the record stored under its identifier, and that task passes the filter. |
| TaskService.TaskPage | ProjectTasksBackEnd/src/main/java/ma/ensa/projecttasksbackend/service/TaskService.java:42-72 | The page is exactly the requested window of `ListedTasks`, mapped in order, with `min(size, tasks left)` entries. It echoes number and size. The total is the number of listed tasks. The page count is the least that covers them, and `last` holds exactly when no page follows. Each entry is a stored, matching task. |
| TaskService.CreateTask | ProjectTasksBackEnd/src/main/java/ma/ensa/projecttasksbackend/service/TaskService.java:29-40 | A project the caller does not own fails and changes nothing. Otherwise a new, uncompleted task takes the record's fields and the next identifier, and that identifier is appended to its project. The stored due date keeps only its day (`@Temporal(DATE)`), while the answer, built from the saved entity, carries the instant given. Nothing else changes, and the invariant holds. |
| TaskService.GetTasksByProject | ProjectTasksBackEnd/src/main/java/ma/ensa/projecttasksbackend/service/TaskService.java:42-72 | Fails exactly when the caller does not own the project. Otherwise it answers `TaskPage` for the project, filter and page. |
| TaskService.UpdateTask | ProjectTasksBackEnd/src/main/java/ma/ensa/projecttasksbackend/service/TaskService.java:75-85 | A task the caller does not own fails and changes nothing. Otherwise title, description and due date are overwritten, even with null, and the stored due date keeps only its day. The completion flag changes only when supplied. The answer carries the instant given. Nothing else changes, and the invariant holds. |
| TaskService.MarkAsCompleted | ProjectTasksBackEnd/src/main/java/ma/ensa/projecttasksbackend/service/TaskService.java:88-93 | Sets only the completion flag. On a task already completed the table is unchanged, so the operation is idempotent. A task the caller does not own fails and changes nothing. |
| TaskService.DeleteTask | ProjectTasksBackEnd/src/main/java/ma/ensa/projecttasksbackend/service/TaskService.java:96-104 | The task leaves the table and its project's list, which shrinks by one. No other task or project changes. Ownership failures change nothing. The invariant holds. |
| ProjectService.GetCurrentUser | ProjectTasksBackEnd/src/main/java/ma/ensa/projecttasksbackend/service/ProjectService.java:84-88 | Both directions: succeeds exactly when a user has the caller's email, and returns that user. Otherwise it fails with EntityNotFound("User not found"). |
| ProjectService.CountCompleted | ProjectTasksBackEnd/src/main/java/ma/ensa/projecttasksbackend/service/ProjectService.java:92-93 | The count is at most the number of tasks. It is 0 exactly when no task is completed, and the total exactly when all are. |
| ProjectService.Progress | ProjectTasksBackEnd/src/main/java/ma/ensa/projecttasksbackend/service/ProjectService.java:95 | With tasks, the percentage times the total is 100 times the completed count, i.e. `completed / total * 100`, and it is 0 without tasks. It lies in 0..100. It is 0 exactly when nothing is completed. It is 100 exactly when there are tasks and all are completed. |
| ProjectService.ProgressExamples | ProjectTasksBackEnd/src/test/java/ma/ensa/projecttasksbackend/controller/ProjectControllerTest.java:116-131 | 7 of 10 tasks is 70%, and 2 of 5 is 40%. |
| ProjectService.ProjectToDto | ProjectTasksBackEnd/src/main/java/ma/ensa/projecttasksbackend/service/ProjectService.java:89-106 | Copies identifier, title and description. A null task list counts 0 tasks. Otherwise the counts are the list's length and its completed tasks, with completed at most total. The percentage is `Progress` of those two counts: in range, and 100 exactly when all of at least one task are done. |
| ProjectService.OwnedBelow | ProjectTasksBackEnd/src/main/java/ma/ensa/projecttasksbackend/repository/ProjectRepository.java:13 | Both directions: holds exactly the caller's stored projects, each one as stored, in strictly descending identifier (creation) order. |
| ProjectService.ProjectPage | ProjectTasksBackEnd/src/main/java/ma/ensa/projecttasksbackend/service/ProjectService.java:43-58 | The page is exactly the requested window of the caller's projects, newest first, each mapped with its stored tasks, with `min(size, projects left)` entries. It echoes the request and counts all of the caller's projects. The page count is the least that covers them, and `last` holds exactly when no page follows. |
| ProjectService.CreateProject | ProjectTasksBackEnd/src/main/java/ma/ensa/projecttasksbackend/service/ProjectService.java:30-41 | An unknown caller fails and changes nothing. Otherwise a project owned by the caller, with no tasks, takes the next identifier. The answer reports 0 tasks at 0%. Nothing else changes, and the invariant holds. |
| ProjectService.GetCurrentUserProjects | ProjectTasksBackEnd/src/main/java/ma/ensa/projecttasksbackend/service/ProjectService.java:43-58 | Fails exactly when the caller is unknown. Otherwise it answers `ProjectPage` of the caller's projects, newest first. |
| ProjectService.GetProjectById | ProjectTasksBackEnd/src/main/java/ma/ensa/projecttasksbackend/service/ProjectService.java:59-62 | Fails exactly when the caller does not own the project. Otherwise it answers the project's response with its stored tasks. |
| ProjectService.UpdateProject | ProjectTasksBackEnd/src/main/java/ma/ensa/projecttasksbackend/service/ProjectService.java:64-71 | Only title and description change, both overwritten even with null. Owner and task list stay. Ownership failures change nothing. The invariant holds. |
| ProjectService.DeleteProject | ProjectTasksBackEnd/src/main/java/ma/ensa/projecttasksbackend/service/ProjectService.java:73-77 | The project and exactly its tasks disappear. No remaining task names it, and every other task is unchanged. Ownership failures change nothing. The invariant holds. |
| AuthService.Login | ProjectTasksBackEnd/src/main/java/ma/ensa/projecttasksbackend/service/AuthService.java:45-57 | A rejected authentication fails with BadCredentials. An authenticated email with no stored user fails as `orElseThrow` does. It succeeds exactly otherwise, with a Bearer token for the stored email and hash and the user's identifier. |
| AuthService.Register | ProjectTasksBackEnd/src/main/java/ma/ensa/projecttasksbackend/service/AuthService.java:26-43 | An email already registered fails with "Email … is already registered." and changes nothing. Otherwise the user is stored with the encoded password under a fresh identifier, and a Bearer answer carries that identifier. A later successful login of the same credentials gives the same answer. |
| GlobalExceptionHandler.FieldErrorsToMap | ProjectTasksBackEnd/src/main/java/ma/ensa/projecttasksbackend/exception/GlobalExceptionHandler.java:44-50 | Both directions: a field is a key exactly when some field error names it. |
| GlobalExceptionHandler.LastErrorOnFieldWins | ProjectTasksBackEnd/src/main/java/ma/ensa/projecttasksbackend/exception/GlobalExceptionHandler.java:47-48 | Of several errors on one field, the map keeps the message of the last. |
| GlobalExceptionHandler.HandleValidation | ProjectTasksBackEnd/src/main/java/ma/ensa/projecttasksbackend/exception/GlobalExceptionHandler.java:44-50 | The loop that fills the map one error at a time builds exactly `FieldErrorsToMap`. |
| GlobalExceptionHandler.Handle | ProjectTasksBackEnd/src/main/java/ma/ensa/projecttasksbackend/exception/GlobalExceptionHandler.java:22-91 | An ErrorResponse body's status equals the HTTP status. The answer is a field map exactly for a validation failure, which alone answers 400. Every answer is one of 400, 401, 404, 405, 409 or 500. |
| GlobalExceptionHandler.ErrorResponseJson | ProjectTasksBackEnd/src/main/java/ma/ensa/projecttasksbackend/exception/GlobalExceptionHandler.java:24-29 | The written body has `status`, `error` and `message` properties holding the record's values, with `null` for a missing message. |
| GlobalExceptionHandler.DuplicateEmailIsConflict | ProjectTasksBackEnd/src/main/java/ma/ensa/projecttasksbackend/exception/GlobalExceptionHandler.java:22-31 | UserAlreadyExists answers 409 "Data Conflict" with its message. |
| GlobalExceptionHandler.MissingEntityIsNotFound | ProjectTasksBackEnd/src/main/java/ma/ensa/projecttasksbackend/exception/GlobalExceptionHandler.java:33-42 | EntityNotFound answers 404 "Not Found" with its message. |
| GlobalExceptionHandler.ValidationIsFieldMap | ProjectTasksBackEnd/src/main/java/ma/ensa/projecttasksbackend/exception/GlobalExceptionHandler.java:44-50 | A validation failure answers 400 with one key per failing field. |
| GlobalExceptionHandler.SecurityFailuresAreUniform | ProjectTasksBackEnd/src/main/java/ma/ensa/projecttasksbackend/exception/GlobalExceptionHandler.java:51-60 | Both security exceptions give the same 401 "Authentication Failed" with "Invalid email or password", whatever their own message. |
| GlobalExceptionHandler.UnsupportedMethodIs405 | ProjectTasksBackEnd/src/main/java/ma/ensa/projecttasksbackend/exception/GlobalExceptionHandler.java:62-71 | An unsupported method answers 405 "Method Not Allowed" with its message. |
| GlobalExceptionHandler.UnknownRouteIsNotFound | ProjectTasksBackEnd/src/main/java/ma/ensa/projecttasksbackend/exception/GlobalExceptionHandler.java:72-81 | An unknown route answers 404 "Resource Not Found", naming the path. |
| GlobalExceptionHandler.OtherExceptionIsServerError | ProjectTasksBackEnd/src/main/java/ma/ensa/projecttasksbackend/exception/GlobalExceptionHandler.java:82-91 | Any other exception answers 500 "Server Error" with its message, possibly null. |
| Json.Get | ProjectTasksFrontEnd/src/utils/errorHandler.ts:23 | Both directions: a property is found exactly when the key is present (`'key' in obj`), and the value found is the one stored under that key. |
| Json.Put | ProjectTasksFrontEnd/src/utils/errorHandler.ts:36 | Assigning a property keeps the size when the key exists and appends it otherwise. Reading the key back gives the assigned value. |
| ErrorHandler.DefaultMessage | ProjectTasksFrontEnd/src/utils/errorHandler.ts:85-104 | The message is never empty. It is the generic text exactly for a status outside 400, 401, 403, 404, 409, 500 and 503. |
| ErrorHandler.StringifyEntries | ProjectTasksFrontEnd/src/utils/errorHandler.ts:34-37 | One entry per body property, in property order, each value passed through `String(value)`. |
| ErrorHandler.Classify | ProjectTasksFrontEnd/src/utils/errorHandler.ts:9-80 | It is a validation error exactly when it carries a validation map, and then its status is 400 with no `error`. A response always yields a status, unless its object body lacks one. Without a response there is no status and the message is a string. |
| ErrorHandler.CollectValidationErrors | ProjectTasksFrontEnd/src/utils/errorHandler.ts:34-37 | The `forEach` that fills the map entry by entry builds exactly `StringifyEntries`. |
| ErrorHandler.HandleApiError | ProjectTasksFrontEnd/src/utils/errorHandler.ts:9-80 | The step-by-step handler returns what `Classify` states. |
| ErrorHandler.ValidationBodyIsValidation | ProjectTasksFrontEnd/src/utils/errorHandler.ts:18-45 | A 400 object body without both `error` and `message` is a validation error with status 400 and the fixed message. Its map holds every property, in order, stringified. |
| ErrorHandler.ErrorResponseOn400IsCopied | ProjectTasksFrontEnd/src/utils/errorHandler.ts:23-31 | A 400 body with `error` and `message` is a plain error whose status, error and message are the body's, without the response-status fallback. |
| ErrorHandler.MessageBodyIsError | ProjectTasksFrontEnd/src/utils/errorHandler.ts:48-56 | Any other status with a `message` body gives a plain error with the body's message and error. The status is the body's when truthy, the response's otherwise. |
| ErrorHandler.UnshapedBodyUsesDefaultMessage | ProjectTasksFrontEnd/src/utils/errorHandler.ts:59-63 | A body that is not an object, or that has no `message` on a non-400 status, gives the response status and its default message. |
| ErrorHandler.NoResponseIsNetworkError | ProjectTasksFrontEnd/src/utils/errorHandler.ts:67-72 | A request without a response is the network error, shown inline with its message. |
| ErrorHandler.UnknownValueIsError | ProjectTasksFrontEnd/src/utils/errorHandler.ts:76-79 | Anything else is an error with no status, carrying the Error's message or the fallback text, and shown inline. |
| ErrorHandler.ValidationNeverRedirects | ProjectTasksFrontEnd/src/utils/errorHandler.ts:140-155 | A validation error is always shown inline. |
| ErrorHandler.ValidationPayloadWithErrorAndMessageFields | ProjectTasksFrontEnd/src/utils/errorHandler.ts:23 | A validation map whose fields are literally `error` and `message` is taken for an ErrorResponse. |
| ErrorHandler.Capitalize | ProjectTasksFrontEnd/src/utils/errorHandler.ts:114 | Keeps the length, upper-cases the first character and keeps the rest. |
| ErrorHandler.Lines | ProjectTasksFrontEnd/src/utils/errorHandler.ts:112-116 | One `Field: message` line per entry, in entry order. |
| ErrorHandler.FormatValidationErrors | ProjectTasksFrontEnd/src/utils/errorHandler.ts:111-118 | The text is empty exactly for an empty map. A single entry gives exactly its one line. |
| ErrorHandler.JoinStartsWithFirst | ProjectTasksFrontEnd/src/utils/errorHandler.ts:117 | A join starts with its first part. |
| ErrorHandler.JoinAppend | ProjectTasksFrontEnd/src/utils/errorHandler.ts:117 | Joining two non-empty lists is joining each, with the separator between. |
| ErrorHandler.FormatAppend | ProjectTasksFrontEnd/src/utils/errorHandler.ts:111-118 | Formatting two maps together gives the first's lines, a newline, then the second's, so entry order is kept. |
| ErrorHandler.CountAppend | ProjectTasksFrontEnd/src/utils/errorHandler.ts:117 | Character counts add up over concatenation. |
| ErrorHandler.CountAbsent | ProjectTasksFrontEnd/src/utils/errorHandler.ts:117 | An absent character counts 0. |
| ErrorHandler.JoinCount | ProjectTasksFrontEnd/src/utils/errorHandler.ts:117 | Newline-joining n newline-free parts gives exactly n−1 newlines. |
| ErrorHandler.OneLinePerEntry | ProjectTasksFrontEnd/src/utils/errorHandler.ts:111-118 | Fields and messages without newlines format into exactly one line per entry. |
| ErrorHandler.TitleIsCapitalized | ProjectTasksFrontEnd/src/utils/errorHandler.ts:114-115 | `{title: "must not be blank"}` displays as "Title: must not be blank". |
| ErrorHandler.FormatApiError | ProjectTasksFrontEnd/src/utils/errorHandler.ts:125-131 | A validation error with a map displays its formatted map. Any other error displays its message unchanged when truthy, and the fallback text otherwise, so always something truthy. |
| ErrorHandler.GetErrorPagePath | ProjectTasksFrontEnd/src/utils/errorHandler.ts:140-155 | The path is null, /403, /404 or /500. It is /403 exactly for status 403, /404 exactly for 404, and /500 exactly for 500, 502 or 503. A falsy status never redirects. |
| EndToEnd.ErrorResponsesAreErrors | ProjectTasksFrontEnd/src/utils/errorHandler.ts:48-56 | Every ErrorResponse the back end writes is read as a plain error. That error carries the HTTP status, the handler's error text and its message, or `null`. |
| EndToEnd.MissingEntityShowsNotFoundPage | ProjectTasksBackEnd/src/main/java/ma/ensa/projecttasksbackend/exception/GlobalExceptionHandler.java:33-42 | EntityNotFound leads to the /404 page, carrying the service's message. |
| EndToEnd.AccessDeniedShowsNotFoundPage | ProjectTasksBackEnd/src/main/java/ma/ensa/projecttasksbackend/service/TaskService.java:106-117 | Both ownership failures lead to /404. |
| EndToEnd.UnhandledShowsServerErrorPage | ProjectTasksBackEnd/src/main/java/ma/ensa/projecttasksbackend/exception/GlobalExceptionHandler.java:82-91 | An unhandled exception leads to /500. |
| EndToEnd.SecurityFailureShownInline | ProjectTasksBackEnd/src/main/java/ma/ensa/projecttasksbackend/exception/GlobalExceptionHandler.java:51-60 | A failed login is status 401, shown inline as "Invalid email or password". |
| EndToEnd.ConflictShownInline | ProjectTasksBackEnd/src/main/java/ma/ensa/projecttasksbackend/exception/GlobalExceptionHandler.java:22-31 | A duplicate registration is shown inline with the service's message. |
| EndToEnd.FieldMapReadBack | ProjectTasksBackEnd/src/main/java/ma/ensa/projecttasksbackend/exception/GlobalExceptionHandler.java:44-50 | The field map, written in any key order, is read back as a validation error. It has exactly the map's fields, each with the map's message. The exception is a map that has both `error` and `message` fields. |
| EndToEnd.ShortProjectTitleAnswer | ProjectTasksBackEnd/src/test/java/ma/ensa/projecttasksbackend/controller/ProjectControllerTest.java:133-141 | The one size error on "ab" becomes a 400 with a one-entry field map. |
| EndToEnd.ShortProjectTitleDisplayed | ProjectTasksFrontEnd/src/utils/errorHandler.ts:111-131 | That field map is shown inline as "Title: Title must be between 4 and 50 characters". |

## Left out

- Everything outside these files is not part of this model: the React pages and components, the controllers, the security configuration and the JWT filter. Only their effect on the order of listings and on the current user's email is modelled.
- Network I/O, HTTP transport, JSON (de)serialisation beyond the properties the classifier reads, and axios itself are not modelled. The caught value is one of three shapes (`Thrown`).
- JSON arrays and non-integer numbers in response bodies are not modelled.
- Entities.StoredDueDate: days are computed in UTC. The JVM's default time zone, which decides where a `DATE` column cuts the day, is not modelled.
- Json.Put: appends a new key at the end. JavaScript puts integer-like keys first, but no field name the model reads is integer-like.
- AuthService.Register: a later login gives the same answer only because the token generator is a pure function of email and hash. Real tokens carry an issue time and differ.
- Timestamps other than due dates are not modelled: `createdAt`, the ErrorResponse timestamp (a parameter) and `new Date()` (the `now` parameter of validation).
- Listings sorted by `createdAt` descending are modelled as newest-first by identifier and creation order. This assumes the clock and identifiers grow together.
- The password encoder, the JWT generator and the authentication manager are function parameters. BCrypt, JWT signing and the user-details lookup are not modelled.
- The constraints of the registration, login and project-creation records are not part of this model. Their files are not among the modelled sources.
- The `ErrorResponse` record and `UserAlreadyExistsException` are modelled only by the fields the handler fills.
- JavaText.ToLowerCase: maps only ASCII letters. Java's locale-sensitive Unicode case mapping is not modelled.
- ErrorHandler.Capitalize: upper-cases only ASCII letters, for the same reason.
- The iteration order of the back end's `HashMap` is not modelled. `FieldMapReadBack` holds for every order.
- ProjectService.Progress: computed on unbounded reals, not on IEEE doubles, so rounding is not modelled.
- SQL `LIKE` escape characters and database collation are not modelled. Matching is exact after lower-casing.
- Transactions, concurrency and database failures are not modelled. Each service method runs alone and either fails before changing anything or completes.
- Identifiers are unbounded naturals: the 64-bit `Long` range is not modelled.
