/**
 * Client runs of the store and the handlers, stated as what a caller can
 * conclude from the contracts alone.
 */
module Scenarios {
  import opened Wrappers
  import opened JobModel
  import opened ErrorModel
  import opened JobEngine
  import opened JobHandlers

  /** A created row starts with no progress, status "Active" and no expiry; a name too short for `Job` is stored anyway. */
  method CreateUnvalidatedName() {
    var table := new JobTable();
    NameLengthExamples();
    assert !ValidName("ab");
    var r := AddJob(table, NewJob("ab", 100, true), 7, 1000, None);
    assert r.Ok?;
    var job := r.value;
    assert job.id == 7 && job.name == "ab" && job.downloadedSize == 0 && job.percentDownloaded == 0;
    assert job.status == "Active" && job.expirationDate.None? && job.creationDate == 1000;
    assert table.rows == [job];
  }

  /** A colliding id is a duplication: 500 with duplication-error, table unchanged. */
  method CreateCollidingId() {
    var table := new JobTable();
    var first := AddJob(table, NewJob("first", 1, true), 7, 1000, None);
    assert table.rows[0].id == 7;
    var second := AddJob(table, NewJob("second", 2, false), 7, 1001, None);
    assert second == Err(Errors.InternalServerError(ToErrorCode(StateCode.DuplicationError)));
    assert |table.rows| == 1;
  }

  /** Deleting removes the row, a second delete finds nothing, and the handler answers that with 500 db-error. */
  method DeleteThenFind() {
    var table := new JobTable();
    var added := table.AddJob(NewJob("x", 100, true), 1, 10, None);
    assert table.rows[0].id == 1;
    var deleted := table.DeleteJobById(1, None);
    assert deleted == added;
    assert table.rows == [];
    assert table.FindJobById(1, None) == Err(Error.DBError(DieselError.NotFound));
    var again := RemoveJobById(table, 1, None);
    assert again == Err(Errors.InternalServerError(ToErrorCode(StateCode.DBError)));
    assert ErrorsResponse(again.error).status == 500;
  }

  /** Activation of an existing row affects one row; of an absent id, none. */
  method ActivateScenario() {
    var table := new JobTable();
    var added := table.AddJob(NewJob("idle", 5, false), 1, 10, None);
    var n := table.SetActivateJob(1, true, None);
    assert n == Ok(1);
    assert table.FindJobById(1, None).value.isActive;
    var m := table.SetActivateJob(2, true, None);
    assert m == Ok(0);
    var h := ActivateJob(table, 2, true, None);
    assert h == Err(Errors.NotFound(ToErrorCode(StateCode.NotFound)));
  }

  /** A table of five rows with distinct dates. */
  method FiveRows() returns (table: JobTable)
    ensures fresh(table) && table.Valid() && |table.rows| == 5
  {
    table := new JobTable();
    var a := table.AddJob(NewJob("a", 1, true), 1, 10, None);
    AddFresh(table, 2, 30);
    AddFresh(table, 3, 20);
    AddFresh(table, 4, 50);
    AddFresh(table, 5, 40);
  }

  /** Five rows, a page of two from the start: two rows, newest first, and a count of five. */
  method PageOfFive() {
    var table := FiveRows();
    var response := ListPaginatedJobs(table, PaginationDTO(2, 0), None, None);
    assert response.Ok?;
    assert response.value.count == 5;
    assert |response.value.paginatedList| == 2;
    assert DateDescending(response.value.paginatedList);
  }

  /** An offset at the end gives an empty page; a negative page size is pagination-error. */
  method PageOutOfRange() {
    var table := FiveRows();
    var beyond := table.GetAllPaginatedJobs(PaginationDTO(2, 5), None);
    assert beyond == Ok([]);
    var negative := ListPaginatedJobs(table, PaginationDTO(-1, 0), None, None);
    assert negative == Err(Errors.BadRequest(ToErrorCode(StateCode.PaginationError)));
  }

  /** Adds a row whose id is above every stored id, so the insert succeeds. */
  method AddFresh(table: JobTable, id: Uuid, now: Timestamp)
    requires table.Valid()
    requires forall i :: 0 <= i < |table.rows| ==> table.rows[i].id < id
    modifies table
    ensures table.Valid() && |table.rows| == |old(table.rows)| + 1
    ensures forall i :: 0 <= i < |table.rows| ==> table.rows[i].id <= id
  {
    var r := table.AddJob(NewJob("job", 1, true), id, now, None);
  }

  /** A row with 30 of 100 bytes downloaded has 70 remaining. */
  method DownloadInfoScenario() {
    var table := new JobTable();
    var job := Job(9, "movie", 100, 30, 30, "Active", true, 10, None);
    var inserted := table.CreateBulkJobs([job], None);
    assert inserted.Ok?;
    assert Find(table.rows, 9) == Some(job);
    var info := DownloadInfo(table, 9, None);
    assert info == Ok(JobInfo("movie", 30, 70));
    var missing := DownloadInfo(table, 8, None);
    assert ErrorsResponse(missing.error).status == 500;
  }

  /** Re-submitting a fetched job with only its status changed persists nothing. */
  method StatusEditIsLost() {
    var table := new JobTable();
    var added := table.AddJob(NewJob("job", 100, true), 1, 10, None);
    var stored := added.value;
    assert table.rows[0].id == 1;
    var r := UpdateJobApi(table, stored.(status := "Paused"), None, None);
    assert r == Ok(stored);
    assert table.rows == [stored];
  }

  /**
   * Two updates that both started from the same read: the later write
   * wins, and the earlier one's total size is lost.
   */
  method LostUpdate() {
    var table := new JobTable();
    var added := table.AddJob(NewJob("job", 100, true), 1, 10, None);
    var read1 := table.FindJobById(1, None).value;
    var read2 := table.FindJobById(1, None).value;
    var w1 := table.UpdateJob(read1.(totalSize := 200), None);
    var w2 := table.UpdateJob(read2.(isActive := false), None);
    assert table.FindJobById(1, None).value.totalSize == 100;
    assert !table.FindJobById(1, None).value.isActive;
  }
}
