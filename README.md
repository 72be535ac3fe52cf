# Job service model

A Dafny model of a small CRUD service for download jobs. The service
keeps a `job` table in PostgreSQL behind Diesel and exposes it over HTTP
handlers. The model covers five parts of the code:

- **The job store** (`JobEngine`): the `job` table is the class `JobTable`,
  whose `rows` field is a sequence with distinct primary keys.
  - The engine's writes are methods that change `rows`: insert, bulk
    insert, delete by id, activate, delete all and update.
  - Its reads are functions over `rows`: all rows, a sorted page, count,
    find by id and download info.
  - Each operation's contract is the effect of the SQL statement it issues.
- **The handlers** (`JobHandlers`): each one calls the engine on the table
  and maps the engine's outcome to a response value or to one of the
  HTTP-facing `Errors`.
  - `update_job_api` is imperative: it overwrites seven fields of the row it
    read, then writes the row back through `update_job`.
- **The error vocabulary** (`ErrorModel`):
  - the tables `StateCode` → code string and message;
  - both `error_response` status mappings;
  - the `From` conversions;
  - the loop `validate_errors`, which appends one error code per field
    validation error.
- **The job model** (`JobModel`): the row, the creation request,
  the download-info projection, the pagination types, and the validation
  declared on the row's `name`.
- **The regexes** (`Utils`): `^[a-zA-Z ._-]*$` and `^[a-zA-Z]+$`, written
  as the matchers they denote.

The external world enters as parameters:

- **Clock.** The clock reading is a `now: Timestamp` argument.
- **Ids.** The new row's UUID is an `id` argument. An id already in the
  table is a primary-key violation, which the store reports the same way
  as any other insert failure.
- **Database failures.** Each statement takes a
  `fault: Option<DieselError>` argument. `Some` means the database client
  failed, and a failed statement leaves the table unchanged.
- **PostgreSQL checks.** A negative `LIMIT` or `OFFSET` is rejected by
  PostgreSQL, not by the service, so it is modelled as a database error.

`Scenarios` holds client methods that exercise the contracts on concrete
tables; every assertion in them is proved:

- a name the creation request never validates;
- a colliding id;
- delete then find;
- activation;
- a five-row page;
- an empty page past the end, and a refused negative page size;
- download info;
- an update that changes only the status and is lost;
- two sequential writes that start from the same read.

## Model

| member | source | states |
|---|---|---|
| JobEngine.JobTable.AddJob | yugabyte/src/engine/job.rs:13-32 | The insert succeeds iff there is no backend fault and the id is fresh; a colliding id is a unique violation. The new row has the request's name, total size and active flag, sizes 0, status "Active", creation date `now` and no expiration date. The table grows by exactly that row. Every failure is `DuplicationError` (never `DBError`) and leaves the table unchanged. |
| JobEngine.JobTable.CreateBulkJobs | yugabyte/src/engine/job.rs:35-43 | The bulk insert succeeds iff there is no fault and the primary key still holds with all the new rows added; otherwise it is a unique violation. It returns the inserted rows and appends them. Every failure is `DuplicationError` and leaves the table unchanged. |
| JobEngine.JobTable.GetAllJobs | yugabyte/src/engine/job.rs:45-47 | Without a fault it returns exactly the stored rows as a multiset, in no promised order. A fault is passed through as the client error. |
| JobEngine.JobTable.GetAllPaginatedJobs | yugabyte/src/engine/job.rs:49-59 | It succeeds iff there is no fault and both page size and offset are non-negative; failures are `DBError`. The page has at most `page_size` rows, ordered by creation date non-increasing, and is a sub-multiset of the table. Its length is `min(page_size, rows - offset)`. It is the window at `offset` of one date-descending order of the table. |
| JobEngine.JobTable.CountJobs | yugabyte/src/engine/job.rs:61-66 | Without a fault the count is the number of rows, the length of `get_all_jobs`' result, and no successful page is longer. It takes no pagination input. A fault gives `DBError` of it. |
| JobEngine.JobTable.DeleteJobById | yugabyte/src/engine/job.rs:68-81 | On an existing id it returns that row and removes it alone, keeping the other rows in order. On an absent id it returns `DBError(NotFound)` and leaves the table unchanged. A fault gives `DBError` and changes nothing. |
| JobEngine.JobTable.SetActivateJob | yugabyte/src/engine/job.rs:83-96 | It returns 1 if the id exists and 0 otherwise. The new table is the old one with only `is_active` of the matching row changed. After the call, looking up the id gives the old row with the new flag. A fault changes nothing. |
| JobEngine.JobTable.DeleteAllJobs | yugabyte/src/engine/job.rs:98-102 | It returns the old row count and empties the table. A fault changes nothing. |
| JobEngine.JobTable.FindJobById | yugabyte/src/engine/job.rs:104-109 | Without a fault it succeeds iff the id is stored, and returns a stored row with that id. A missing row is `DBError(NotFound)`. A fault is `DBError` of it. |
| JobEngine.JobTable.UpdateJob | yugabyte/src/engine/job.rs:111-123 | On an existing id, only `name`, `total_size` and `is_active` of the matching row take the incoming values; every other column and row is untouched. It returns the stored row after the write. An absent id is `DBError(NotFound)` and a fault is `DBError`; both change nothing. |
| JobEngine.JobTable.GetJobInfo | yugabyte/src/engine/job.rs:125-134 | It fails exactly when `find_job_by_id` fails, with the same error. On success it returns the stored name and downloaded size. The remaining size is `total_size - downloaded_size` modulo 2^32, as an `i32` subtraction wraps. |
| JobEngine.InfoExact | yugabyte/src/engine/job.rs:127-131 | With non-negative sizes the subtraction cannot wrap: the remaining size is exactly total minus downloaded. Name and downloaded size are copied. |
| JobEngine.WrapI32 | yugabyte/src/engine/job.rs:130 | Two's-complement wrap: the result is the input when the input is in `i32` range, and congruent to it modulo 2^32 always. |
| JobEngine.NewRow | yugabyte/src/engine/job.rs:16-26 | The built row has the given id, the request's name, total size and active flag, 0 downloaded and 0 percent, status "Active", creation date `now` and no expiration date. |
| JobEngine.NewRowInfo | yugabyte/src/engine/job.rs:16-26 | A created row's download info is its name, 0 downloaded, and its whole total size remaining. |
| JobEngine.Info | yugabyte/src/engine/job.rs:127-131 | The projection carries the row's name and downloaded size, and a remaining size congruent to total minus downloaded modulo 2^32. |
| JobEngine.Find | yugabyte/src/engine/job.rs:104-109 | Lookup by primary key: `Some` gives a stored row with that id; `None` means no row carries it. |
| JobEngine.FindRow | yugabyte/src/engine/job.rs:104-109 | Under distinct ids, looking up a stored row's id returns that very row. |
| JobEngine.RemoveId | yugabyte/src/engine/job.rs:73-78 | A row survives `DELETE ... WHERE id = x` iff it was stored and its id is not `x`. |
| JobEngine.RemoveAbsent | yugabyte/src/engine/job.rs:73-78 | Deleting an absent id leaves the rows as they are. |
| JobEngine.RemoveExact | yugabyte/src/engine/job.rs:73-78 | Under distinct ids, deleting row `i`'s id removes row `i` alone and keeps the order of the others. |
| JobEngine.DropKeepsDistinct | yugabyte/src/engine/job.rs:73-78 | Removing one row preserves the primary key. |
| JobEngine.UpdateWhere | yugabyte/src/engine/job.rs:89-93 | `UPDATE ... WHERE id = x` applies the SET clause to the matching rows and leaves every other row unchanged, position by position. |
| JobEngine.MatchCount | yugabyte/src/engine/job.rs:89-95 | The affected-row count is 0 iff no row has the id. |
| JobEngine.MatchCountAtMostOne | yugabyte/src/engine/job.rs:89-95 | Under the primary key the affected-row count is exactly 1 or 0, as the id is present or absent. |
| JobEngine.UpdateKeepsIds | yugabyte/src/engine/job.rs:89-93 | An update that leaves ids alone keeps each row's id, the set of ids and the primary key. |
| JobEngine.FindUpdated | yugabyte/src/engine/job.rs:115-121 | After an update of an existing row, looking up its id gives the SET clause applied to the old row. |
| JobEngine.SetActive | yugabyte/src/engine/job.rs:90-92 | The SET clause gives the row the new active flag and changes nothing else: restoring the old flag gives back the old row. |
| JobEngine.SetActiveTwice | yugabyte/src/engine/job.rs:89-95 | Activating a row twice with the same flag leaves the table as activating it once. |
| JobEngine.Narrowed | yugabyte/src/engine/job.rs:116-120 | The SET clause gives the row the incoming name, total size and active flag; restoring those three gives back the old row, so the id and the other five columns are untouched. |
| JobEngine.LastWriteWins | yugabyte/src/engine/job.rs:115-120 | Two `update_job` writes of the same row in sequence end as the second write alone. |
| JobEngine.NarrowedNoOp | yugabyte/src/engine/job.rs:115-120 | An `update_job` whose name, total size and active flag equal the stored ones leaves the table unchanged, whatever its other fields hold. |
| JobEngine.ConsDescending | yugabyte/src/engine/job.rs:54 | A row no earlier than every row of an ordered sequence can be put in front of it. |
| JobEngine.InsertByDate | yugabyte/src/engine/job.rs:54 | Inserting one row into a date-descending sequence keeps it date-descending and adds exactly that row to the multiset. |
| JobEngine.SortByDateDesc | yugabyte/src/engine/job.rs:54 | `ORDER BY creation_date DESC`: the result is date-descending and a permutation of the rows. |
| JobEngine.Window | yugabyte/src/engine/job.rs:55-56 | `LIMIT n OFFSET k`: the result has length `min(n, len - k)`, and its element `i` is input element `k + i`. |
| JobEngine.WindowDescending | yugabyte/src/engine/job.rs:54-56 | A window of an ordered result is ordered. |
| JobEngine.WindowSubMultiset | yugabyte/src/engine/job.rs:55-56 | A window takes only rows of the ordered result. |
| JobHandlers.AddJobResponse | src/handler/job.rs:26-35 | Success passes the job through. Every error is `InternalServerError` with status 500. The code is "duplication-error" iff the engine reported a duplication, and then the whole ErrorCode is the duplication state's code and message; any other error gets the internal-server-error code and message. |
| JobHandlers.AddJob | src/handler/job.rs:18-36 | Combines the handler with the store: it succeeds iff there is no fault and the id is fresh, appending the built row. Any failure is `InternalServerError(duplication-error)`, so the internal-server-error branch is never reached, and the table is unchanged. |
| JobHandlers.ListPaginatedJobs | src/handler/job.rs:39-68 | A failed count is `InternalServerError(db-error)`, whatever the listing would do. A failed listing after a good count is `BadRequest(pagination-error)`. It succeeds iff neither fails and page size and offset are non-negative. On success, `count` is the table size and the list is the engine's page, no longer than the page size or the count. |
| JobHandlers.RemoveJobResponse | src/handler/job.rs:79-82 | Every engine error, not-found included, becomes `InternalServerError(db-error)` with status 500. Success passes the deleted row through. |
| JobHandlers.RemoveJobById | src/handler/job.rs:71-83 | It succeeds iff there is no fault and the id is stored. It then returns that row and removes only it. Otherwise it answers `InternalServerError(db-error)` and the table is unchanged. |
| JobHandlers.Copied | src/handler/job.rs:99-105 | The copy keeps the stored row's id and name and takes every other field from the incoming job: putting back the incoming id and name gives the incoming job. |
| JobHandlers.ApiUpdated | src/handler/job.rs:98-108 | The row `update_job_api` leaves is the seven-field copy passed through `update_job`'s SET clause (yugabyte/src/engine/job.rs:116-120). It takes the incoming total size and active flag, and restoring those two gives back the stored row. |
| JobHandlers.UpdateApiNarrowing | src/handler/job.rs:98-108 | Composes the handler's seven-field copy with `update_job`'s three-column SET. The stored row ends with its own name and every other stored column, except the incoming total size and active flag. Every other row is untouched. |
| JobHandlers.UpdateApiIgnoresOtherFields | src/handler/job.rs:98-108 | An update request that keeps the stored total size and active flag leaves the table unchanged, however it changes the name, status, sizes or dates. |
| JobHandlers.UpdateJobApi | src/handler/job.rs:87-117 | A failed read, a fault or an absent id alike, answers `NotFound(not-found)`. A failed write answers `InternalServerError(db-error)`. Neither changes the table. On success it returns the stored row with only the incoming total size and active flag. That row replaces the matching one, and every other row is unchanged. |
| JobHandlers.ApiWriteOutcome | src/handler/job.rs:98-111 | The row the handler read is the stored row. Its write returns that row narrowed, replaces the matching row with it and keeps every other row. |
| JobHandlers.FindRowIsFound | yugabyte/src/engine/job.rs:104-109 | Under the primary key, every row carrying the id is the row the lookup returns. |
| JobHandlers.ActivateResponse | src/handler/job.rs:128-140 | Success is `true` iff exactly one row was affected. Any other count is `NotFound(not-found)`, and an engine error is `InternalServerError(db-error)`. |
| JobHandlers.ActivateJob | src/handler/job.rs:120-141 | It succeeds iff there is no fault and the id is stored; then only that row's active flag changes. An absent id answers `NotFound(not-found)` with the table unchanged. A fault answers `InternalServerError(db-error)`. |
| JobHandlers.UpdateAbsent | yugabyte/src/engine/job.rs:89-93 | An update of an absent id changes no row. |
| JobHandlers.DownloadInfo | src/handler/job.rs:144-156 | It succeeds iff there is no fault and the id is stored, returning that row's projection. Every failure, a missing row included, is `InternalServerError` carrying the not-found code (status 500), never `Errors::NotFound`. |
| JobHandlers.JobValidationErrorsLackMessages | yugabyte/src/errors.rs:34-37 | An invalid job's derived validation errors carry no messages, so `validate_errors` would reject them (the source panics there). |
| ErrorModel.GetCode | yugabyte/src/errors.rs:77-85 | Each code is a non-empty string of lower-case letters and `-`. |
| ErrorModel.GetCodeInjective | yugabyte/src/errors.rs:77-85 | The five code strings are pairwise distinct. |
| ErrorModel.GetMessage | yugabyte/src/errors.rs:86-94 | Each message is a non-empty text starting with a capital letter. |
| ErrorModel.GetMessageInjective | yugabyte/src/errors.rs:86-94 | The five messages are pairwise distinct. |
| ErrorModel.ToErrorCode | yugabyte/src/errors.rs:97-104 | The converted `ErrorCode` has exactly the state's code and message, and its code belongs to no other state. |
| ErrorModel.ToErrorCodeInjective | yugabyte/src/errors.rs:97-104 | Distinct states give error codes with distinct code fields. |
| ErrorModel.ErrorsResponse | yugabyte/src/errors.rs:56-65 | `BadReq` and `BadRequest` are 400, `NotFound` is 404 and `InternalServerError` is 500, each an iff. The body is the carried code list or code. |
| ErrorModel.ErrorResponse | yugabyte/src/errors.rs:143-151 | `BadRequest` is 400 and `NotFound` is 404, each carrying its text. Every other variant, `DBError` included, is 500 with the body "Internal Server Error". |
| ErrorModel.FromDieselError | yugabyte/src/errors.rs:131-135 | A client error always becomes `DBError` carrying it, whose response is a bare 500 "Internal Server Error" (yugabyte/src/errors.rs:148). |
| ErrorModel.FromString | yugabyte/src/errors.rs:137-141 | A string always becomes `HttpRequest` carrying it, whose response is a bare 500 "Internal Server Error" that drops the text (yugabyte/src/errors.rs:148). |
| ErrorModel.ConvertedErrorsAreInternal | yugabyte/src/errors.rs:131-151 | Every converted error answers 500. |
| ErrorModel.FieldErrorCodes | yugabyte/src/errors.rs:32-43 | One error code per field error. |
| ErrorModel.KindErrorCodes | yugabyte/src/errors.rs:28-31 | `Struct` and `List` kinds contribute nothing. |
| ErrorModel.FieldErrorCodesAt | yugabyte/src/errors.rs:33-42 | The code at position `k` carries the `k`-th field error's code and its unwrapped message. |
| ErrorModel.CollectedErrorCodes | yugabyte/src/errors.rs:27-46 | The codes collected over all fields, in iteration order, number exactly the field-level errors. |
| ErrorModel.ValidateErrors | yugabyte/src/errors.rs:26-47 | It requires every field error to have a message (the source panics otherwise). The vector afterwards is the old contents followed by one code per field error, in iteration order, and nothing for structs and lists. Its length grows by the number of field errors. |
| JobModel.ValidName | yugabyte/src/model/job.rs:15-16 | A name is valid iff it has 3 to 49 characters, each an ASCII letter, space, `.`, `_` or `-`. |
| JobModel.NameErrors | yugabyte/src/model/job.rs:15-16 | It has no errors iff the name is valid. "name-length-error" is reported iff the length is outside 3..49, and "regex" iff the name fails the full-word regex. No error carries a message. |
| JobModel.ValidateJob | yugabyte/src/model/job.rs:11-17 | Validation of a `Job` succeeds iff its name is valid. Otherwise it reports the name's errors, which are not empty, under the field "name". |
| JobModel.DigitMakesNameInvalid | yugabyte/src/model/job.rs:16 | A digit anywhere makes a name invalid whatever its length, with the regex error reported. |
| JobModel.NameLengthExamples | yugabyte/src/model/job.rs:15 | "ab" is invalid with only the length error; "abc" is valid. |
| JobModel.NameDigitExample | yugabyte/src/model/job.rs:15-16 | "abc123" has a valid length but fails, with only the regex error. |
| JobModel.NamePunctuationExample | yugabyte/src/model/job.rs:15-16 | A name of letters joined by `-`, `_` and `.` is valid. |
| Utils.MatchesFullWord | yugabyte/src/util/utils.rs:22 | `^[a-zA-Z ._-]*$` accepts a string iff every character is an ASCII letter, space, `.`, `_` or `-`. |
| Utils.LettersStar | yugabyte/src/util/utils.rs:23 | `[a-zA-Z]*` consumes a string iff it is all ASCII letters. |
| Utils.MatchesWord | yugabyte/src/util/utils.rs:23 | `^[a-zA-Z]+$` accepts a string iff it is non-empty and all ASCII letters. |
| Utils.FullWordAcceptsEmpty | yugabyte/src/util/utils.rs:22-23 | The full-word regex accepts the empty string; the word regex does not. |
| Utils.WordImpliesFullWord | yugabyte/src/util/utils.rs:22-23 | Every string the word regex accepts, the full-word regex accepts. |
| Utils.FullWordRejectsOutsider | yugabyte/src/util/utils.rs:22 | One character outside the class rejects the whole string. |
| Utils.FullWordConcat | yugabyte/src/util/utils.rs:22 | A concatenation matches iff both parts match. |
| Utils.FullWordExamples | yugabyte/src/util/utils.rs:22 | "abdelaziz" matches, and so does "abdelaziz" joined to "said" by a space, `-`, `_` or `.`. |
| Utils.WordExample | yugabyte/src/util/utils.rs:23 | "abdelaziz" matches the word regex. |
| Utils.WordRejectsSpace | yugabyte/src/util/utils.rs:22-23 | "abdelaziz said" is refused by the word regex. |

## Left out

- Connection pool, `DATABASE_URL` lookup, server bootstrap, configuration and tracing. These are I/O and setup; one `JobTable` object stands for the database behind a connection.
- Route wiring. `download_info` is not registered on any route (src/handler/mod.rs:4, 8-21), so it is modelled as a function over the table, not as an endpoint.
- Serde, the OpenAPI derive, and both formatting impls: `Display` for `Errors` is `unimplemented!()`, and `Display` for `Error` only writes text.
- The clock helpers `current_timestamp` and `expiration_date` (chrono date construction). Timestamps are opaque ordered integers passed in as `now`.
- UUID v4 generation. The id is an argument, and a collision is the primary-key violation the insert reports.
- The database client's internals. A statement's failure is a `fault` argument, and what the engine does with it is modelled exactly.
- The validator crate and the regex engine themselves. The regexes are stated as character-class matchers.
  - The crate's `ValidationErrors` keeps its fields in a hash map. The model takes its iteration order as the given sequence order.
  - A regex rule without a code gets the crate's default code "regex".
- Concurrency. Requests share a pool in the service. The model is sequential, so the lost-update window of `update_job_api` appears only as two sequential writes from one read (`JobEngine.LastWriteWins`, `Scenarios.LostUpdate`).
- JobEngine.JobTable.GetJobInfo: `total_size - downloaded_size` is written as `i32` wrap-around, which is what a release build computes. A debug build panics on overflow instead, and that panic is not modelled. `JobEngine.InfoExact` shows the subtraction is exact for non-negative sizes.
- ErrorModel.ValidateErrors: a field error without a message makes the source panic (yugabyte/src/errors.rs:37). The model does not model the panic; it makes "every field error has a message" a precondition, so the method promises nothing for such input.
- JobEngine.JobTable.CountJobs: the count is returned as a `nat`; the `i64` bound of `COUNT(*)` is not modelled.
- JobEngine.JobTable.GetAllPaginatedJobs: SQL leaves the order of rows with equal creation dates open. The model fixes one admissible order and proves the properties every admissible order has: date-descending, drawn from the table, and the right length.
- JobEngine.JobTable.GetAllJobs: `SELECT` without `ORDER BY` has no promised order. The model returns the physical order and promises only the multiset.
