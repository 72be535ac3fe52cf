/**
 * The request handlers: each performs its engine call (two for the
 * update) on the table and maps the outcome to a response body or to
 * one of the HTTP-facing `Errors`. Lending a pooled connection to the
 * request is not modelled; the table stands for it.
 */
module JobHandlers {
  import opened Wrappers
  import opened JobModel
  import opened ErrorModel
  import opened JobEngine
  import opened Validator

  /** `add_job`'s mapping: a duplication becomes duplication-error, anything else internal-server-error, both with status 500. */
  function AddJobResponse(e: Result<Job, Error>): (r: Result<Job, Errors>)
    ensures r.Ok? <==> e.Ok?
    ensures r.Ok? ==> r.value == e.value
    ensures r.Err? ==> r.error.InternalServerError? && ErrorsResponse(r.error).status == INTERNAL_SERVER_ERROR
    ensures r.Err? ==> (r.error.code.errorCode == GetCode(StateCode.DuplicationError) <==> e.error.DuplicationError?)
    ensures r.Err? && e.error.DuplicationError? ==> r.error.code == ToErrorCode(StateCode.DuplicationError)
    ensures r.Err? && !e.error.DuplicationError? ==> r.error.code == ToErrorCode(StateCode.InternalServerError)
  {
    match e
    case Ok(job) => Ok(job)
    case Err(err) =>
      if err.DuplicationError? then Err(Errors.InternalServerError(ToErrorCode(StateCode.DuplicationError)))
      else Err(Errors.InternalServerError(ToErrorCode(StateCode.InternalServerError)))
  }

  /**
   * `add_job`. The name is stored as given: a creation request carries no
   * validation. Since the engine reports every failure as a duplication,
   * the internal-server-error code never comes out of this handler.
   */
  method AddJob(table: JobTable, newJob: NewJob, id: Uuid, now: Timestamp, fault: Option<DieselError>)
    returns (r: Result<Job, Errors>)
    requires table.Valid()
    modifies table
    ensures table.Valid()
    ensures r.Ok? <==> fault.None? && !HasId(old(table.rows), id)
    ensures r.Ok? ==> r.value == NewRow(newJob, id, now) && table.rows == old(table.rows) + [r.value]
    ensures r.Err? ==> r == Err(Errors.InternalServerError(ToErrorCode(StateCode.DuplicationError))) && table.rows == old(table.rows)
  {
    var e := table.AddJob(newJob, id, now, fault);
    r := AddJobResponse(e);
  }

  /**
   * `list_paginated_jobs`: count first; a failed count is db-error (500) and
   * the listing is not attempted, so the listing's outcome plays no part;
   * a failed listing, a negative page size or offset among the causes, is
   * pagination-error (400).
   */
  function ListPaginatedJobs(table: JobTable, dto: PaginationDTO, countFault: Option<DieselError>, listFault: Option<DieselError>)
    : (r: Result<PaginatedResponseDTO<Job>, Errors>)
    reads table
    ensures countFault.Some? ==> r == Err(Errors.InternalServerError(ToErrorCode(StateCode.DBError)))
    ensures countFault.None? && table.GetAllPaginatedJobs(dto, listFault).Err? ==>
      r == Err(Errors.BadRequest(ToErrorCode(StateCode.PaginationError)))
    ensures r.Ok? <==> countFault.None? && listFault.None? && dto.pageSize >= 0 && dto.offset >= 0
    ensures r.Ok? ==> r.value.count == |table.rows|
    ensures r.Ok? ==> r.value.paginatedList == table.GetAllPaginatedJobs(dto, listFault).value
    ensures r.Ok? ==> |r.value.paginatedList| <= dto.pageSize as int && |r.value.paginatedList| <= r.value.count
  {
    match table.CountJobs(countFault)
    case Ok(jobsCount) =>
      (match table.GetAllPaginatedJobs(dto, listFault)
       case Ok(paginatedList) => Ok(PaginatedResponseDTO(paginatedList, jobsCount))
       case Err(_) => Err(Errors.BadRequest(ToErrorCode(StateCode.PaginationError))))
    case Err(_) => Err(Errors.InternalServerError(ToErrorCode(StateCode.DBError)))
  }

  /** `remove_job_by_id`'s mapping: every engine error, a missing row included, is db-error with status 500. */
  function RemoveJobResponse(e: Result<Job, Error>): (r: Result<Job, Errors>)
    ensures r.Ok? <==> e.Ok?
    ensures r.Ok? ==> r.value == e.value
    ensures r.Err? ==> r.error == Errors.InternalServerError(ToErrorCode(StateCode.DBError))
    ensures r.Err? ==> ErrorsResponse(r.error).status == INTERNAL_SERVER_ERROR
  {
    match e
    case Ok(deleted) => Ok(deleted)
    case Err(_) => Err(Errors.InternalServerError(ToErrorCode(StateCode.DBError)))
  }

  /** `remove_job_by_id`: removing an absent id answers 500 db-error, not 404. */
  method RemoveJobById(table: JobTable, id: Uuid, fault: Option<DieselError>) returns (r: Result<Job, Errors>)
    requires table.Valid()
    modifies table
    ensures table.Valid()
    ensures r.Ok? <==> fault.None? && HasId(old(table.rows), id)
    ensures r.Err? ==> r == Err(Errors.InternalServerError(ToErrorCode(StateCode.DBError))) && table.rows == old(table.rows)
    ensures r.Ok? ==>
      exists i :: 0 <= i < |old(table.rows)| && old(table.rows)[i].id == id &&
        r.value == old(table.rows)[i] && table.rows == old(table.rows)[..i] + old(table.rows)[i + 1..]
  {
    var e := table.DeleteJobById(id, fault);
    r := RemoveJobResponse(e);
  }

  /** The seven fields `update_job_api` copies from the incoming job onto the row it read; the id and the name stay. */
  function Copied(stored: Job, incoming: Job): (r: Job)
    ensures r.id == stored.id && r.name == stored.name
    ensures r.(id := incoming.id, name := incoming.name) == incoming
  {
    stored.(totalSize := incoming.totalSize, downloadedSize := incoming.downloadedSize,
            percentDownloaded := incoming.percentDownloaded, status := incoming.status,
            isActive := incoming.isActive, creationDate := incoming.creationDate,
            expirationDate := incoming.expirationDate)
  }

  /**
   * The row as `update_job_api` leaves it: the seven-field copy passed
   * through `update_job`'s SET clause is the stored row with the incoming
   * total size and active flag, nothing else.
   */
  function ApiUpdated(stored: Job, incoming: Job): (r: Job)
    ensures r == Narrowed(Copied(stored, incoming))(stored)
    ensures r.(totalSize := stored.totalSize, isActive := stored.isActive) == stored
    ensures r.totalSize == incoming.totalSize && r.isActive == incoming.isActive
  {
    stored.(totalSize := incoming.totalSize, isActive := incoming.isActive)
  }

  /**
   * The composition of `update_job_api`'s field copy with `update_job`'s
   * SET clause: of the seven fields copied from the incoming job only the
   * total size and the active flag reach the store; the name the handler
   * did not copy stays the stored one; every other row is untouched.
   */
  lemma UpdateApiNarrowing(rows: seq<Job>, incoming: Job)
    requires DistinctIds(rows) && HasId(rows, incoming.id)
    ensures
      var stored := Find(rows, incoming.id).value;
      var copied := Copied(stored, incoming);
      var after := UpdateWhere(rows, copied.id, Narrowed(copied));
      && Find(after, incoming.id) == Some(ApiUpdated(stored, incoming))
      && |after| == |rows|
      && forall i :: 0 <= i < |rows| && rows[i].id != incoming.id ==> after[i] == rows[i]
  {
    var stored := Find(rows, incoming.id).value;
    var copied := Copied(stored, incoming);
    FindUpdated(rows, incoming.id, Narrowed(copied));
  }

  /**
   * An update request that keeps the stored total size and active flag
   * leaves the table as it was, however it changes the status, sizes,
   * dates or name.
   */
  lemma UpdateApiIgnoresOtherFields(rows: seq<Job>, incoming: Job)
    requires DistinctIds(rows) && HasId(rows, incoming.id)
    requires var stored := Find(rows, incoming.id).value;
      incoming.totalSize == stored.totalSize && incoming.isActive == stored.isActive
    ensures
      var stored := Find(rows, incoming.id).value;
      var copied := Copied(stored, incoming);
      UpdateWhere(rows, copied.id, Narrowed(copied)) == rows
  {
    var stored := Find(rows, incoming.id).value;
    var copied := Copied(stored, incoming);
    NarrowedNoOp(rows, copied);
  }

  /**
   * `update_job_api`: read the row, overwrite seven of its fields from the
   * incoming job, write it back. Any failure of the read answers 404
   * not-found, a backend fault as much as a missing row; a failed write
   * answers 500 db-error.
   */
  method UpdateJobApi(table: JobTable, incoming: Job, findFault: Option<DieselError>, updateFault: Option<DieselError>)
    returns (r: Result<Job, Errors>)
    requires table.Valid()
    modifies table
    ensures table.Valid()
    ensures findFault.Some? || !HasId(old(table.rows), incoming.id) ==>
      r == Err(Errors.NotFound(ToErrorCode(StateCode.NotFound))) && table.rows == old(table.rows)
    ensures findFault.None? && HasId(old(table.rows), incoming.id) && updateFault.Some? ==>
      r == Err(Errors.InternalServerError(ToErrorCode(StateCode.DBError))) && table.rows == old(table.rows)
    ensures findFault.None? && HasId(old(table.rows), incoming.id) && updateFault.None? ==>
      var stored := Find(old(table.rows), incoming.id).value;
      && r == Ok(ApiUpdated(stored, incoming))
      && Find(table.rows, incoming.id) == Some(r.value)
      && |table.rows| == |old(table.rows)|
      && forall i :: 0 <= i < |old(table.rows)| ==>
           table.rows[i] == if old(table.rows)[i].id == incoming.id then r.value else old(table.rows)[i]
  {
    var jobId := incoming.id;
    match table.FindJobById(jobId, findFault) {
      case Err(_) =>
        r := Err(Errors.NotFound(ToErrorCode(StateCode.NotFound)));
      case Ok(job) =>
        var foundJob := job;
        foundJob := foundJob.(totalSize := incoming.totalSize);
        foundJob := foundJob.(downloadedSize := incoming.downloadedSize);
        foundJob := foundJob.(percentDownloaded := incoming.percentDownloaded);
        foundJob := foundJob.(status := incoming.status);
        foundJob := foundJob.(isActive := incoming.isActive);
        foundJob := foundJob.(creationDate := incoming.creationDate);
        foundJob := foundJob.(expirationDate := incoming.expirationDate);
        assert foundJob == Copied(job, incoming);
        ghost var before := table.rows;
        var updated := table.UpdateJob(foundJob, updateFault);
        match updated {
          case Ok(u) =>
            ApiWriteOutcome(before, table.rows, incoming, job, u);
            r := Ok(u);
          case Err(_) => r := Err(Errors.InternalServerError(ToErrorCode(StateCode.DBError)));
        }
    }
  }

  /** What `update_job_api`'s write leaves in the table, given the row it read. */
  lemma ApiWriteOutcome(before: seq<Job>, after: seq<Job>, incoming: Job, job: Job, u: Job)
    requires DistinctIds(before) && job in before && job.id == incoming.id
    requires after == UpdateWhere(before, incoming.id, Narrowed(Copied(job, incoming)))
    requires u == Narrowed(Copied(job, incoming))(Find(before, incoming.id).value)
    ensures job == Find(before, incoming.id).value && u == ApiUpdated(job, incoming)
    ensures |after| == |before|
    ensures forall i :: 0 <= i < |before| ==> after[i] == if before[i].id == incoming.id then u else before[i]
  {
    var k :| 0 <= k < |before| && before[k] == job;
    FindRowIsFound(before, incoming.id);
  }

  /** Lookup and membership agree on which row carries an id. */
  lemma FindRowIsFound(rows: seq<Job>, id: Uuid)
    requires DistinctIds(rows) && HasId(rows, id)
    ensures forall i :: 0 <= i < |rows| && rows[i].id == id ==> rows[i] == Find(rows, id).value
  {
    forall i | 0 <= i < |rows| && rows[i].id == id ensures rows[i] == Find(rows, id).value {
      FindRow(rows, i);
    }
  }

  /** `activate_job`'s mapping: exactly one affected row is success; any other count is 404 not-found; an engine error is 500 db-error. */
  function ActivateResponse(e: Result<nat, Error>): (r: Result<bool, Errors>)
    ensures r.Ok? <==> e == Ok(1)
    ensures r.Ok? ==> r.value
    ensures e.Ok? && e.value != 1 ==> r == Err(Errors.NotFound(ToErrorCode(StateCode.NotFound)))
    ensures e.Err? ==> r == Err(Errors.InternalServerError(ToErrorCode(StateCode.DBError)))
  {
    match e
    case Ok(state) =>
      if state == 1 then Ok(true) else Err(Errors.NotFound(ToErrorCode(StateCode.NotFound)))
    case Err(_) => Err(Errors.InternalServerError(ToErrorCode(StateCode.DBError)))
  }

  /** `activate_job`: an absent id answers 404 not-found and changes nothing. */
  method ActivateJob(table: JobTable, id: Uuid, isActive: bool, fault: Option<DieselError>) returns (r: Result<bool, Errors>)
    requires table.Valid()
    modifies table
    ensures table.Valid()
    ensures r.Ok? <==> fault.None? && HasId(old(table.rows), id)
    ensures r.Ok? ==> r.value && Find(table.rows, id) == Some(Find(old(table.rows), id).value.(isActive := isActive))
    ensures fault.None? ==> table.rows == UpdateWhere(old(table.rows), id, SetActive(isActive))
    ensures fault.None? && !HasId(old(table.rows), id) ==>
      r == Err(Errors.NotFound(ToErrorCode(StateCode.NotFound))) && table.rows == old(table.rows)
    ensures fault.Some? ==> r == Err(Errors.InternalServerError(ToErrorCode(StateCode.DBError))) && table.rows == old(table.rows)
  {
    var e := table.SetActivateJob(id, isActive, fault);
    if fault.None? && !HasId(old(table.rows), id) {
      UpdateAbsent(old(table.rows), id, SetActive(isActive));
    }
    r := ActivateResponse(e);
  }

  /** An update of an absent id matches nothing. */
  lemma UpdateAbsent(rows: seq<Job>, id: Uuid, f: Job -> Job)
    requires !HasId(rows, id)
    ensures UpdateWhere(rows, id, f) == rows
  {
    var r := UpdateWhere(rows, id, f);
    forall i | 0 <= i < |rows| ensures r[i] == rows[i] {
      assert rows[i].id != id;
    }
  }

  /**
   * `download_info`: every failure, a missing row included, answers 500
   * with the not-found code, never a 404. The function is not routed to
   * any path.
   */
  function DownloadInfo(table: JobTable, id: Uuid, fault: Option<DieselError>): (r: Result<JobInfo, Errors>)
    reads table
    ensures r.Ok? <==> fault.None? && HasId(table.rows, id)
    ensures r.Ok? ==> r.value == Info(Find(table.rows, id).value)
    ensures r.Err? ==> r.error == Errors.InternalServerError(ToErrorCode(StateCode.NotFound))
    ensures r.Err? ==> ErrorsResponse(r.error).status == INTERNAL_SERVER_ERROR
  {
    match table.GetJobInfo(id, fault)
    case Ok(jobInfo) => Ok(jobInfo)
    case Err(_) => Err(Errors.InternalServerError(ToErrorCode(StateCode.NotFound)))
  }

  /**
   * The validation declared on `Job` produces errors without messages,
   * so were an invalid job's errors handed to `validate_errors`, it would
   * panic; no handler does either.
   */
  lemma JobValidationErrorsLackMessages(job: Job)
    requires !ValidName(job.name)
    ensures ValidateJob(job).Err?
    ensures !AllFieldErrorsHaveMessages(ValidateJob(job).error)
  {
    var errs := NameErrors(job.name);
    assert errs[0] in errs;
    assert ValidateJob(job).error.fields[0].1 == Field(errs);
  }
}
