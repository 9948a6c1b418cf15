# Task tracker core in Dafny

A model of the backend core of a per-user task tracker. The model covers four parts:

- the **task access layer**: owner-scoped create, list (search, status/priority filter, newest-first sort, skip/limit paging, page count), read, update and delete;
- the **task request schemas** for create and update;
- the **auth service**: register and login over a user store;
- the **auth request schemas** for register and login.

The stores are immutable sequences in insertion order. Every operation is a pure function from a store to a `Result` and, for a mutation, a new store.

The model does implement the library behaviour the core depends on:

- the schema library's rule order (`Rules`);
- the document store's filter, sort, skip, limit and count (`TaskQuery`);
- `$regex` with option `i`, as a literal case-insensitive infix search (`Text`).

The library calls whose results the core only passes along are function parameters:

- bcrypt's hashing and comparison (`hash`, `compare`);
- JWT signing (`sign`);
- the schema library's email test (`isEmail`);
- its ISO-date test and conversion (`isIso`).

The generated id and the clock value are parameters too.

Modules, one per component:

- `Wrappers`: `Option` and `Result`.
- `Text`: ASCII case folding and literal infix search. This is the model of the title filter.
- `Rules`: the schema library's field checks over a JSON-ish `Value`. Checks run in the library's order: the allowed-values list first, then the string type check, the empty-string check and the length bounds. Validation stops at the first failure. That is the library's default (`abortEarly`); see "Left out" for why it is assumed.
- `TaskModel`: `Task`, `Status`, `Priority`, `DueDate` and the partial field record `TaskFields`.
- `TaskValidator`: the create and update schemas.
- `TaskQuery`: filter, sort, window and page count, plus their lemmas.
- `TaskService`: the five store operations.
- `TaskProperties`: properties that relate several calls.
- `AuthValidator` and `AuthService`.

Each validator returns either the typed value or the first failing key. Each comes with a reference predicate for well-formed input (`WellFormed`, `WellFormedRegistration`, `WellFormedCredentials`). An accepted body is the encoding of a well-formed value (soundness, in the contract). Every well-formed value's encoding is accepted unchanged (completeness, a lemma).

Where the documented behaviour and the code differ, the model follows the code:

- the search is whatever `$regex` does with the raw string, modelled under a no-metacharacter precondition;
- `pages` is `ceil(total / limit)` with `limit` taken as given.

The defaults for a created task's status and priority (pending and medium) live in the Task schema. That file is not part of this model, so those two values are the documented ones.

## Model

| member | source | states |
|---|---|---|
| `Text.HasInfix` | backend/src/services/taskService.js:28-30 | the search succeeds exactly when the pattern occurs at some position of the text |
| `Text.SearchIgnoresCase` | backend/src/services/taskService.js:29 | the title match is insensitive to the case of both the search string and the title |
| `Text.EmptySearchMatchesAll` | backend/src/services/taskService.js:17 | the empty search string matches every title |
| `Text.BuyMilkExample` | backend/src/services/taskService.js:28-30 | "Buy Milk" is found by "milk" and not by "milky" |
| `Rules.CheckString` | backend/src/validators/taskValidator.js:4-8 | a string field passes exactly when its value is a string the rule admits; a non-string fails with the type error, `''` with the empty error, a short string with the min error |
| `Rules.CheckKey` | backend/src/validators/authValidator.js:4-18 | a missing required key fails with the required error, a missing optional key passes with nothing, a present key is checked |
| `TaskModel.ParseStatus` | backend/src/services/taskService.js:33 | a string names a status exactly when it is that status's name; every other string, `''` included, names none |
| `TaskModel.ParsePriority` | backend/src/services/taskService.js:38 | the same for low / medium / high |
| `TaskModel.NewTask` | backend/src/services/taskService.js:6-9 | the created task carries the body's fields, the caller as `createdBy` and the given id and time |
| `TaskModel.Apply` | backend/src/services/taskService.js:84-87 | a partial update replaces each supplied field; id, owner and creation time never change |
| `TaskModel.ApplyIdempotent` | backend/src/services/taskService.js:84-87 | applying the same update twice equals applying it once |
| `TaskModel.ApplyNothing` | backend/src/services/taskService.js:84-87 | an update with no fields leaves the task unchanged |
| `TaskValidator.CheckStatus` | backend/src/validators/taskValidator.js:9 | a status value passes exactly when it is one of the three names, and fails with the allowed-values error otherwise |
| `TaskValidator.CheckPriority` | backend/src/validators/taskValidator.js:10 | the same for the three priorities |
| `TaskValidator.CheckDueDate` | backend/src/validators/taskValidator.js:11 | a due date passes exactly when it is null, or a string or number whose text is an ISO date. A string that is not one fails on the format; a number that is not one, a boolean, an array or an object fails on the type |
| `TaskValidator.NumbersJudgedByText` | backend/src/validators/taskValidator.js:11 | the number 2024 converts, the number 7 fails on the type and the string "7" on the format |
| `TaskValidator.CreateMessage` | backend/src/validators/taskValidator.js:4-7 | create overrides messages only for `title`, and a missing or empty title reads "Title is required" |
| `TaskValidator.UpdateMessage` | backend/src/validators/taskValidator.js:20-22 | update overrides exactly the object-min message |
| `TaskValidator.EmptyUpdateMessage` | backend/src/validators/taskValidator.js:14-22 | an update with no field fails with "At least one field must be provided for update" |
| `TaskValidator.ValidateFields` | backend/src/validators/taskValidator.js:3-20 | an accepted body is the encoding of a well-formed field record; a missing required title fails on `title` |
| `TaskValidator.ValidateCreate` | backend/src/validators/taskValidator.js:3-12 | accepted bodies carry a title of 1 to 200 characters, a description of at most 1000 characters (`''` allowed), valid enums and a null or ISO due date; a missing or empty title is rejected on `title` |
| `TaskValidator.ValidateUpdate` | backend/src/validators/taskValidator.js:14-22 | accepted bodies are well-formed and non-empty; the empty body fails with the object-min error |
| `TaskValidator.MissingAndEmptyTitleSameMessage` | backend/src/validators/taskValidator.js:4-7 | a missing title and an empty title both give "Title is required" |
| `TaskValidator.CreateComplete` | backend/src/validators/taskValidator.js:3-12 | every well-formed record with a title is accepted by create, unchanged |
| `TaskValidator.UpdateComplete` | backend/src/validators/taskValidator.js:14-22 | every well-formed non-empty record is accepted by update, unchanged |
| `TaskValidator.FieldsComplete` | backend/src/validators/taskValidator.js:3-20 | the shared field checks accept every well-formed record |
| `TaskValidator.SingleFieldUpdate` | backend/src/validators/taskValidator.js:14-22 | any single valid field on its own is an acceptable update |
| `TaskValidator.CreateImpliesUpdate` | backend/src/validators/taskValidator.js:3-22 | whatever create accepts, update accepts with the same result |
| `Text.ContainsIgnoreCase` | backend/src/services/taskService.js:29 | the title contains the search exactly when, at some offset, every search character equals the title character there up to case |
| `Text.FoldedOccurrence` | backend/src/services/taskService.js:29 | an occurrence in the case-folded strings is exactly a case-insensitive occurrence in the originals |
| `TaskQuery.Matches` | backend/src/services/taskService.js:25-40 | a task matches only criteria for its own owner; with no optional condition every task of that owner matches; an active status or priority condition is met by the task |
| `TaskQuery.Filter` | backend/src/services/taskService.js:25-40 | the result holds exactly the stored tasks that meet every active condition, and nothing more |
| `TaskQuery.Insert` | backend/src/services/taskService.js:50 | inserting into a newest-first sequence keeps it newest-first, one longer, holding exactly that task besides the old ones |
| `TaskQuery.InsertPermutes` | backend/src/services/taskService.js:50 | insertion adds exactly one occurrence of the task and loses none |
| `TaskQuery.SortNewest` | backend/src/services/taskService.js:50 | the sort returns its input's tasks, as many of them, ordered by `createdAt`, newest first |
| `TaskQuery.SortPermutes` | backend/src/services/taskService.js:50 | the sort is a permutation: every task keeps its multiplicity |
| `TaskQuery.Window` | backend/src/services/taskService.js:51-52 | skip/limit returns at most `limit` items, item k being input item skip+k; an offset past the end gives nothing |
| `TaskQuery.CeilDiv` | backend/src/services/taskService.js:63 | `pages` is the fewest pages of `limit` items that hold `total` items, so 0 pages for 0 items |
| `TaskQuery.Paginate` | backend/src/services/taskService.js:43-64 | one page out of a sequence, with its size, its offset `(page-1)*limit` and the summary of the whole sequence |
| `TaskQuery.FilterIsSubMultiset` | backend/src/services/taskService.js:25-40 | filtering never duplicates a task: each occurs in the result at most as often as in the store |
| `TaskQuery.WindowKeepsOrder` | backend/src/services/taskService.js:50-52 | skip/limit on a newest-first sequence gives a newest-first sequence |
| `TaskQuery.NewestFirstUnique` | backend/src/services/taskService.js:50 | with distinct creation times, two newest-first orders of the same tasks are identical |
| `TaskQuery.PageKeepsOrder` | backend/src/services/taskService.js:50-52 | a page cut from a newest-first sequence is newest first |
| `TaskQuery.FilterConcat` | backend/src/services/taskService.js:48 | filtering distributes over concatenation of stores |
| `TaskQuery.OwnedBy` | backend/src/services/taskService.js:25 | an owner's tasks are exactly the stored tasks with that `createdBy` |
| `TaskQuery.OwnedByReplace` | backend/src/services/taskService.js:84-88 | replacing one owner's task leaves every other owner's tasks as they were |
| `TaskQuery.OwnedByRemove` | backend/src/services/taskService.js:99-102 | removing one owner's task leaves every other owner's tasks as they were |
| `TaskQuery.FilterSeesOnlyOwner` | backend/src/services/taskService.js:25 | a filter for an owner gives the same result on the store as on that owner's tasks alone |
| `TaskQuery.StatusSplit` | backend/src/services/taskService.js:33-35 | without a status filter, the matches equal the sum of the matches under each of the three statuses |
| `TaskQuery.PagesArePrefix` | backend/src/services/taskService.js:45-52 | pages 1 to n concatenated are the first min(n*limit, total) items: nothing skipped, nothing repeated |
| `TaskQuery.PageIsSlice` | backend/src/services/taskService.js:45-52 | page n is the slice of at most `limit` items starting at offset (n-1)*limit, and empty when that offset is past the end |
| `TaskQuery.AllPagesCoverAll` | backend/src/services/taskService.js:45-63 | the `pages` pages concatenated give back the whole sorted sequence |
| `TaskQuery.PageNonEmptyIff` | backend/src/services/taskService.js:45-63 | a page has items exactly when its number is at most `pages` |
| `TaskService.CreateTask` | backend/src/services/taskService.js:5-12 | the new task is owned by the caller even when the body names another `createdBy`; it carries the body's fields or the defaults and is appended, every stored task kept; ids stay unique |
| `TaskService.FindOwned` | backend/src/services/taskService.js:70-73 | the lookup finds the first task matching both id and owner, or reports that none exists |
| `TaskService.GetTaskById` | backend/src/services/taskService.js:69-80 | success exactly when a task with that id and owner exists; otherwise "Task not found" |
| `TaskService.UpdateTask` | backend/src/services/taskService.js:83-95 | success exactly when the (id, owner) task exists; only that task changes, to the patched task that is returned; ids stay unique |
| `TaskService.DeleteTask` | backend/src/services/taskService.js:98-109 | success exactly when the (id, owner) task exists; exactly that task is removed, the rest keep their order; ids stay unique |
| `TaskService.RemoveAt` | backend/src/services/taskService.js:99-102 | removing one task takes exactly one copy of it out of the store and keeps ids unique |
| `TaskService.BuildCriteria` | backend/src/services/taskService.js:16-40 | the title filter is active exactly for a non-empty search; a status or priority filter is active exactly for a value that names one |
| `TaskService.Matching` | backend/src/services/taskService.js:48-50 | the sorted matches are exactly the stored tasks that meet the query's criteria, as many as the filter finds |
| `TaskService.GetTasks` | backend/src/services/taskService.js:15-66 | at most `limit` tasks, all matching; `total` counts all matches; `pages` is ceil(total/limit); a page past the end is empty, an earlier one holds min(limit, total-skip) tasks |
| `TaskProperties.ListingNewestFirst` | backend/src/services/taskService.js:50-52 | a listing page comes newest first |
| `TaskProperties.ListingMatchesQuery` | backend/src/services/taskService.js:25-40 | every listed task is stored, owned by the caller, contains the search case-insensitively and has the requested valid status and priority |
| `TaskProperties.ListingIsolation` | backend/src/services/taskService.js:25 | a listing for owner B never contains a task of owner A |
| `TaskProperties.ListingNonInterference` | backend/src/services/taskService.js:25 | a listing is the same whether or not other owners' tasks are in the store |
| `TaskProperties.OwnedByIdempotent` | backend/src/services/taskService.js:25 | restricting to an owner twice is restricting once |
| `TaskProperties.InvalidStatusIgnored` | backend/src/services/taskService.js:33-35 | a status outside the enumeration, `''` included, gives the same listing as no status |
| `TaskProperties.InvalidPriorityIgnored` | backend/src/services/taskService.js:38-40 | a priority outside the enumeration gives the same listing as no priority |
| `TaskProperties.EmptySearchIgnored` | backend/src/services/taskService.js:17-30 | an empty search gives the same listing as no search |
| `TaskProperties.TotalIgnoresPaging` | backend/src/services/taskService.js:55 | `total` does not depend on page or limit |
| `TaskProperties.StatusTotalsSum` | backend/src/services/taskService.js:33-35 | the totals under the three statuses add up to the unfiltered total |
| `TaskProperties.PagesReturnEveryMatch` | backend/src/services/taskService.js:43-64 | reading pages 1 to `pages` returns every matching task exactly once, newest first |
| `TaskProperties.AnyNewestFirstOrderIsMatching` | backend/src/services/taskService.js:48-52 | when the matching tasks' creation times are distinct, every newest-first order of them is the listing's order |
| `TaskProperties.PageNonEmptyIffInRange` | backend/src/services/taskService.js:43-64 | a page is non-empty exactly when its number is at most `pages` |
| `TaskProperties.FifteenTasksInPagesOfTen` | backend/src/services/taskService.js:43-64 | with 15 matches and limit 10: pages of 10, 5 and 0 items, and `pages == 2` |
| `TaskProperties.GetByIdNonInterference` | backend/src/services/taskService.js:70-73 | a read by id gives the same answer on the store as on the caller's tasks alone |
| `TaskProperties.GetByIdTail` | backend/src/services/taskService.js:70-73 | when the first task is not the one asked for, the lookup continues in the rest |
| `TaskProperties.ForeignTaskLooksMissing` | backend/src/services/taskService.js:69-108 | another owner's task gives read, update and delete the same "Task not found" as a missing one |
| `TaskProperties.CreateThenGet` | backend/src/services/taskService.js:5-12 | a created task reads back for its owner and is not found for anyone else |
| `TaskProperties.UpdateThenGet` | backend/src/services/taskService.js:83-95 | after an update the owner reads back exactly the updated task |
| `TaskProperties.DeleteTwiceFails` | backend/src/services/taskService.js:98-109 | after a delete, a second delete and a read of that id fail with "Task not found" |
| `TaskProperties.CreateFrame` | backend/src/services/taskService.js:6-9 | creating leaves every other owner's tasks as they were |
| `TaskProperties.UpdateFrame` | backend/src/services/taskService.js:84-88 | updating leaves every other owner's tasks as they were |
| `TaskProperties.DeleteFrame` | backend/src/services/taskService.js:99-102 | deleting leaves every other owner's tasks as they were |
| `AuthValidator.CheckEmail` | backend/src/validators/authValidator.js:9-13 | an email passes exactly when it is a non-empty string the email predicate accepts; `''` fails as empty, other strings fail as invalid email |
| `AuthValidator.ValidateRegister` | backend/src/validators/authValidator.js:3-19 | accepted bodies have a name of 2 to 50 characters, a valid email and a password of at least 6 characters; a missing or empty field is rejected |
| `AuthValidator.ValidateLogin` | backend/src/validators/authValidator.js:21-31 | accepted bodies have a valid email and a non-empty password of any length; a missing or empty field is rejected |
| `AuthValidator.RegisterComplete` | backend/src/validators/authValidator.js:3-19 | every well-formed registration is accepted unchanged |
| `AuthValidator.LoginComplete` | backend/src/validators/authValidator.js:21-31 | every well-formed pair of credentials is accepted unchanged |
| `AuthValidator.RegisterImpliesLogin` | backend/src/validators/authValidator.js:3-31 | a body that passes register passes login with the same email and password |
| `AuthValidator.ShortPasswordLoginOnly` | backend/src/validators/authValidator.js:14-16 | a password of 1 to 5 characters passes login but fails register with "Password must be at least 6 characters" |
| `AuthValidator.SameEmailCheck` | backend/src/validators/authValidator.js:9-13 | once the name passes, register fails on the email exactly when login does, with the same error |
| `AuthValidator.RegisterMessage` | backend/src/validators/authValidator.js:4-18 | a missing or empty field gets a custom message; every error login words, register words the same way; no maximum-length message is overridden |
| `AuthValidator.LoginMessage` | backend/src/validators/authValidator.js:22-30 | login overrides messages only for email and password, and none about length |
| `AuthValidator.MissingAndEmptySameMessage` | backend/src/validators/authValidator.js:4-30 | a missing field and an empty field get the same custom message |
| `AuthService.FindByEmail` | backend/src/services/authService.js:12 | the lookup finds the first user with exactly that email, or reports that none exists |
| `AuthService.Register` | backend/src/services/authService.js:8-35 | fails with "User with this email already exists" exactly when the email is taken; otherwise appends one user with the hashed password, keeps every other user, returns a token signed for the new id, and keeps emails unique |
| `AuthService.Login` | backend/src/services/authService.js:38-60 | fails with the same error for an unknown email and a wrong password; with unique emails, succeeds exactly when a user with that email exists and the password compares; returns that user and a token signed for its id |
| `AuthService.LoginFailuresAlike` | backend/src/services/authService.js:42-51 | an unknown email and a wrong password give identical results |
| `AuthService.RegisterThenLogin` | backend/src/services/authService.js:18-54 | if a password compares against its own hash, login right after register succeeds, returns the registered user and a token freshly signed for its id |
| `AuthService.RegisterTwiceFails` | backend/src/services/authService.js:12-15 | registering the same email again fails |
| `AuthService.RegisteredEmailIsUnique` | backend/src/services/authService.js:12-26 | after a registration, exactly one user carries that email |

## Left out

- Regex semantics: the search string goes to `$regex` unescaped. The model covers only search strings without regex metacharacters, where the regex is a literal. Case folding is ASCII only.
- String lengths are counted in Unicode scalar values. The schema library counts UTF-16 code units, so the two differ only for characters outside the Basic Multilingual Plane.
- Query-string parsing: `parseInt` of non-numeric input, a limit of 0, a page below 1, and repeated query keys that arrive as arrays. `WellFormedQuery` requires a positive page and limit.
- Malformed task ids: the store rejects an id that is not an ObjectId with a cast error before any match. Ids here are plain numbers.
- Owner enrichment (`populate` of name and email) and `toJSON` on users: both only change how a result is shown.
- The Task and User schemas are not part of this model. That leaves out the timestamps option (`updatedAt`), `runValidators` on update, and the unique index on email.
- Keys outside the schemas in a request body: how the validation middleware treats them is not part of this model. The update field record therefore cannot name `createdBy`.
- CreateTask: requires a title, because the create schema runs before the service. What the store does with a title-less create is decided by the Task schema.
- Tie order in the sort: the store does not define an order for equal `createdAt`. The model keeps store order.
- TaskProperties.PagesReturnEveryMatch: each page is a separate query, and the store need not order tasks with equal `createdAt` the same way in each. Tied tasks can then repeat or be skipped between pages. The lemma holds for the real system only when the matching tasks' `createdAt` values are distinct. In that case `TaskProperties.AnyNewestFirstOrderIsMatching` shows that every newest-first order the store can pick is the model's.
- Concurrency: `find` and `countDocuments` run as two queries, and requests race. Each listing is modelled as one snapshot.
- Cryptography and parsing: bcrypt salting, hashing and comparison, JWT signing and expiry, and the email and ISO-date parsers are parameters. `RegisterThenLogin` assumes that a password compares against its own hash.
- Tokens: `sign` stands for signing at one moment. A JWT carries its issue and expiry times, so register and a later login generally hand out different tokens. No lemma equates tokens across calls.
- Due dates: an accepted due date is kept as the value sent (its string, or a number's decimal text). It is not converted to a date, so two values that name the same instant stay distinct.
- First-error reporting: the validation middleware is not part of this model. The schemas are taken to run with the library's default `abortEarly`, which reports only the first failing key. `MissingAndEmptyTitleSameMessage`, `ShortPasswordLoginOnly`, `SameEmailCheck` and the validators' exact error values rely on it.
- The error handler's HTTP status codes and the response envelopes: controllers, routes, middleware, server start-up, configuration and both clients are wiring or UI.
