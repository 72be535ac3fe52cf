/**
 * The job repository: the `job` table as an in-memory sequence of rows
 * with distinct ids, and one member per engine function, each with the
 * effect of the SQL statement it issues.
 *
 * Inputs the engine takes from its surroundings are parameters: the
 * clock's reading `now`, the id the UUID generator drew, and `fault`, a
 * failure the database client may report for the statement (a lost
 * connection, a constraint, anything the backend rejects). A statement
 * that fails changes nothing.
 */
module JobEngine {
  import opened Wrappers
  import opened JobModel
  import opened ErrorModel

  // ---------------------------------------------------------------------
  // Rows

  predicate HasId(rows: seq<Job>, id: Uuid) {
    exists i :: 0 <= i < |rows| && rows[i].id == id
  }

  /** The primary key: no two rows share an id. */
  predicate DistinctIds(rows: seq<Job>) {
    forall i, k :: 0 <= i < k < |rows| ==> rows[i].id != rows[k].id
  }

  /** The row with primary key `id`, if there is one. */
  function Find(rows: seq<Job>, id: Uuid): (r: Option<Job>)
    ensures r.Some? ==> r.value in rows && r.value.id == id
    ensures r.None? <==> !HasId(rows, id)
  {
    if rows == [] then None
    else if rows[0].id == id then Some(rows[0])
    else
      var r := Find(rows[1..], id);
      assert forall i :: 1 <= i < |rows| ==> rows[i] == rows[1..][i - 1];
      r
  }

  /** Under the primary key, looking up a row's id finds that very row. */
  lemma {:induction false} FindRow(rows: seq<Job>, i: int)
    requires DistinctIds(rows) && 0 <= i < |rows|
    ensures Find(rows, rows[i].id) == Some(rows[i])
  {
    if i > 0 {
      assert rows[0].id != rows[i].id;
      FindRow(rows[1..], i - 1);
    }
  }

  /** Removing the row with id `id` (the effect of DELETE ... WHERE id = ...). */
  function RemoveId(rows: seq<Job>, id: Uuid): (r: seq<Job>)
    ensures forall j :: j in r <==> j in rows && j.id != id
    ensures |r| <= |rows|
  {
    if rows == [] then []
    else if rows[0].id == id then RemoveId(rows[1..], id)
    else [rows[0]] + RemoveId(rows[1..], id)
  }

  /** A missing id leaves the rows as they are. */
  lemma {:induction false} RemoveAbsent(rows: seq<Job>, id: Uuid)
    requires !HasId(rows, id)
    ensures RemoveId(rows, id) == rows
  {
    if rows != [] {
      assert rows[0].id != id;
      assert !HasId(rows[1..], id) by {
        assert forall i :: 1 <= i < |rows| ==> rows[1..][i - 1] == rows[i];
      }
      RemoveAbsent(rows[1..], id);
    }
  }

  /** The rows after the first keep distinct ids, none of them the first row's. */
  lemma DistinctTail(rows: seq<Job>)
    requires DistinctIds(rows) && |rows| > 0
    ensures DistinctIds(rows[1..]) && !HasId(rows[1..], rows[0].id)
  {
    var t := rows[1..];
    forall a, b | 0 <= a < b < |t| ensures t[a].id != t[b].id {
      assert t[a] == rows[a + 1] && t[b] == rows[b + 1];
    }
    forall k | 0 <= k < |t| ensures t[k].id != rows[0].id {
      assert t[k] == rows[k + 1];
    }
  }

  /** Under the primary key, deleting a row's id takes out that row alone and keeps the others in order. */
  lemma {:induction false} RemoveExact(rows: seq<Job>, i: int)
    requires DistinctIds(rows) && 0 <= i < |rows|
    ensures RemoveId(rows, rows[i].id) == rows[..i] + rows[i + 1..]
  {
    var t := rows[1..];
    DistinctTail(rows);
    if i == 0 {
      RemoveAbsent(t, rows[0].id);
    } else {
      var id := rows[i].id;
      assert t[i - 1] == rows[i] && rows[0].id != id;
      RemoveExact(t, i - 1);
      assert RemoveId(rows, id) == [rows[0]] + (t[..i - 1] + t[i..]);
      SplitAround(rows, i);
    }
  }

  /** Cutting out row `i` is cutting it out of the tail, behind the first row. */
  lemma SplitAround(rows: seq<Job>, i: int)
    requires 0 < i < |rows|
    ensures rows[..i] + rows[i + 1..] == [rows[0]] + (rows[1..][..i - 1] + rows[1..][i..])
  {
    assert rows[..i] == [rows[0]] + rows[1..][..i - 1];
    assert rows[i + 1..] == rows[1..][i..];
  }

  /** Dropping one row keeps the primary key. */
  lemma DropKeepsDistinct(rows: seq<Job>, i: int)
    requires DistinctIds(rows) && 0 <= i < |rows|
    ensures DistinctIds(rows[..i] + rows[i + 1..])
  {
    var r := rows[..i] + rows[i + 1..];
    assert forall k :: 0 <= k < |r| ==> r[k] == if k < i then rows[k] else rows[k + 1];
  }

  /** The effect of UPDATE ... WHERE id = `id`: `f` applied to the matching rows, every other row untouched. */
  function UpdateWhere(rows: seq<Job>, id: Uuid, f: Job -> Job): (r: seq<Job>)
    ensures |r| == |rows|
    ensures forall i :: 0 <= i < |rows| ==> r[i] == if rows[i].id == id then f(rows[i]) else rows[i]
  {
    if rows == [] then []
    else [if rows[0].id == id then f(rows[0]) else rows[0]] + UpdateWhere(rows[1..], id, f)
  }

  /** The number of rows an UPDATE ... WHERE id = `id` affects. */
  function MatchCount(rows: seq<Job>, id: Uuid): (n: nat)
    ensures n <= |rows|
    ensures n == 0 <==> !HasId(rows, id)
  {
    if rows == [] then 0
    else
      assert forall i :: 1 <= i < |rows| ==> rows[i] == rows[1..][i - 1];
      (if rows[0].id == id then 1 else 0) + MatchCount(rows[1..], id)
  }

  /** Under the primary key an id matches at most one row. */
  lemma {:induction false} MatchCountAtMostOne(rows: seq<Job>, id: Uuid)
    requires DistinctIds(rows)
    ensures MatchCount(rows, id) == if HasId(rows, id) then 1 else 0
  {
    if rows != [] {
      MatchCountAtMostOne(rows[1..], id);
      if rows[0].id == id {
        assert !HasId(rows[1..], id) by {
          assert forall k :: 1 <= k < |rows| ==> rows[1..][k - 1] == rows[k];
        }
      }
    }
  }

  /** An update that keeps ids keeps the primary key and the set of ids. */
  lemma UpdateKeepsIds(rows: seq<Job>, id: Uuid, f: Job -> Job)
    requires forall j :: f(j).id == j.id
    ensures forall i :: 0 <= i < |rows| ==> UpdateWhere(rows, id, f)[i].id == rows[i].id
    ensures DistinctIds(rows) ==> DistinctIds(UpdateWhere(rows, id, f))
    ensures forall x :: HasId(UpdateWhere(rows, id, f), x) <==> HasId(rows, x)
  {
    var r := UpdateWhere(rows, id, f);
    forall x ensures HasId(r, x) <==> HasId(rows, x) {
      if HasId(rows, x) {
        var i :| 0 <= i < |rows| && rows[i].id == x;
        assert r[i].id == x;
      }
    }
  }

  /** Updating an existing row and then looking it up gives the updated row. */
  lemma FindUpdated(rows: seq<Job>, id: Uuid, f: Job -> Job)
    requires DistinctIds(rows) && HasId(rows, id)
    requires forall j :: f(j).id == j.id
    ensures Find(UpdateWhere(rows, id, f), id) == Some(f(Find(rows, id).value))
  {
    var i :| 0 <= i < |rows| && rows[i].id == id;
    FindRow(rows, i);
    UpdateKeepsIds(rows, id, f);
    FindRow(UpdateWhere(rows, id, f), i);
  }

  // ---------------------------------------------------------------------
  // Columns written by the statements

  const ACTIVE_STATUS: string := "Active"

  /** The row `add_job` builds from a creation request: active status, dated `now`, never expiring. */
  function NewRow(newJob: NewJob, id: Uuid, now: Timestamp): (r: Job)
    ensures r.id == id && r.creationDate == now && r.expirationDate.None? && r.status == ACTIVE_STATUS
    ensures r.name == newJob.name && r.totalSize == newJob.totalSize && r.isActive == newJob.isActive
    ensures r.downloadedSize == 0 && r.percentDownloaded == 0
  {
    Job(id, newJob.name, newJob.totalSize, 0, 0, ACTIVE_STATUS, newJob.isActive, now, None)
  }

  /** A created row has nothing downloaded, so all of its total size remains. */
  lemma NewRowInfo(newJob: NewJob, id: Uuid, now: Timestamp)
    ensures Info(NewRow(newJob, id, now)) == JobInfo(newJob.name, 0, newJob.totalSize)
  {
  }

  /** `set_activate_job`'s SET clause: it writes the flag alone. */
  function SetActive(active: bool): (f: Job -> Job)
    ensures forall j :: f(j).isActive == active && f(j).(isActive := j.isActive) == j
  {
    (j: Job) => j.(isActive := active)
  }

  /** `update_job`'s SET clause: only name, total_size and is_active are written; the key and the other five columns stay. */
  function Narrowed(incoming: Job): (f: Job -> Job)
    ensures forall j :: f(j).name == incoming.name && f(j).totalSize == incoming.totalSize && f(j).isActive == incoming.isActive
    ensures forall j :: f(j).(name := j.name, totalSize := j.totalSize, isActive := j.isActive) == j
  {
    (j: Job) => j.(name := incoming.name, totalSize := incoming.totalSize, isActive := incoming.isActive)
  }

  /** Activating a row twice with the same flag is activating it once. */
  lemma SetActiveTwice(rows: seq<Job>, id: Uuid, active: bool)
    ensures UpdateWhere(UpdateWhere(rows, id, SetActive(active)), id, SetActive(active))
         == UpdateWhere(rows, id, SetActive(active))
  {
    var a := UpdateWhere(UpdateWhere(rows, id, SetActive(active)), id, SetActive(active));
    var b := UpdateWhere(rows, id, SetActive(active));
    assert |a| == |b|;
    forall i | 0 <= i < |a| ensures a[i] == b[i] {
    }
  }

  /** Two updates of the same row: the second overwrites every column the first wrote. */
  lemma LastWriteWins(rows: seq<Job>, first: Job, second: Job)
    requires first.id == second.id
    ensures UpdateWhere(UpdateWhere(rows, first.id, Narrowed(first)), second.id, Narrowed(second))
         == UpdateWhere(rows, second.id, Narrowed(second))
  {
    var a := UpdateWhere(UpdateWhere(rows, first.id, Narrowed(first)), second.id, Narrowed(second));
    var b := UpdateWhere(rows, second.id, Narrowed(second));
    assert |a| == |b|;
    forall i | 0 <= i < |a| ensures a[i] == b[i] {
    }
  }

  /** An update whose three written columns already hold the stored values changes nothing. */
  lemma NarrowedNoOp(rows: seq<Job>, incoming: Job)
    requires DistinctIds(rows)
    requires Find(rows, incoming.id).Some?
    requires var stored := Find(rows, incoming.id).value;
      incoming.name == stored.name && incoming.totalSize == stored.totalSize && incoming.isActive == stored.isActive
    ensures UpdateWhere(rows, incoming.id, Narrowed(incoming)) == rows
  {
    var r := UpdateWhere(rows, incoming.id, Narrowed(incoming));
    forall i | 0 <= i < |rows| ensures r[i] == rows[i] {
      if rows[i].id == incoming.id {
        FindRow(rows, i);
      }
    }
  }

  // ---------------------------------------------------------------------
  // Order and pages

  /** Non-increasing creation dates: the order of ORDER BY creation_date DESC. */
  predicate DateDescending(s: seq<Job>) {
    forall i, k :: 0 <= i < k < |s| ==> s[i].creationDate >= s[k].creationDate
  }

  /** A row no earlier than every row of an ordered sequence can head it. */
  lemma ConsDescending(x: Job, t: seq<Job>)
    requires DateDescending(t)
    requires forall y :: y in t ==> x.creationDate >= y.creationDate
    ensures DateDescending([x] + t)
  {
    var r := [x] + t;
    forall i, k | 0 <= i < k < |r| ensures r[i].creationDate >= r[k].creationDate {
      assert r[k] == t[k - 1];
      if i > 0 {
        assert r[i] == t[i - 1];
      } else {
        assert t[k - 1] in t;
      }
    }
  }

  /** Places `j` before the first row of `s` with a strictly earlier date. */
  function InsertByDate(j: Job, s: seq<Job>): (r: seq<Job>)
    requires DateDescending(s)
    ensures DateDescending(r)
    ensures multiset(r) == multiset(s) + multiset{j}
  {
    if s == [] || j.creationDate >= s[0].creationDate then
      ConsDescending(j, s);
      [j] + s
    else
      var tail := InsertByDate(j, s[1..]);
      HeadBoundsTail(j, s, tail);
      ConsDescending(s[0], tail);
      assert s == [s[0]] + s[1..];
      [s[0]] + tail
  }

  /** The head of an ordered `s` is no earlier than anything in `s[1..]` with an earlier-dated `j` added. */
  lemma HeadBoundsTail(j: Job, s: seq<Job>, tail: seq<Job>)
    requires DateDescending(s) && |s| > 0 && j.creationDate < s[0].creationDate
    requires multiset(tail) == multiset(s[1..]) + multiset{j}
    ensures forall y :: y in tail ==> s[0].creationDate >= y.creationDate
  {
    forall y | y in tail ensures s[0].creationDate >= y.creationDate {
      assert y in multiset(tail);
      if y != j {
        assert y in multiset(s[1..]);
        var k :| 0 <= k < |s[1..]| && s[1..][k] == y;
        assert s[k + 1] == y;
      }
    }
  }

  /**
   * One order the database may give under ORDER BY creation_date DESC:
   * rows with the same date keep their physical order here, which is
   * one of the orders SQL admits (it leaves ties unspecified). The
   * column is NOT NULL, so NULLS LAST places nothing.
   */
  function SortByDateDesc(rows: seq<Job>): (r: seq<Job>)
    ensures DateDescending(r)
    ensures multiset(r) == multiset(rows)
  {
    if rows == [] then []
    else
      assert rows == [rows[0]] + rows[1..];
      InsertByDate(rows[0], SortByDateDesc(rows[1..]))
  }

  function Min(a: int, b: int): int {
    if a <= b then a else b
  }

  /** LIMIT `size` OFFSET `offset` on an ordered result: skip `offset` rows, keep at most `size`. */
  function Window(s: seq<Job>, offset: nat, size: nat): (r: seq<Job>)
    ensures |r| == Min(size, if offset <= |s| then |s| - offset else 0)
    ensures forall i :: 0 <= i < |r| ==> r[i] == s[offset + i]
  {
    var lo := Min(offset, |s|);
    s[lo..Min(offset + size, |s|)]
  }

  /** A window of an ordered result is itself ordered. */
  lemma WindowDescending(s: seq<Job>, offset: nat, size: nat)
    requires DateDescending(s)
    ensures DateDescending(Window(s, offset, size))
  {
  }

  const NEGATIVE_LIMIT: string := "LIMIT must not be negative"
  const NEGATIVE_OFFSET: string := "OFFSET must not be negative"

  /** Two's-complement wrap-around into 32 bits, what an unchecked `i32` subtraction gives. */
  function WrapI32(x: int): (r: i32)
    ensures -0x8000_0000 <= x < 0x8000_0000 ==> r as int == x
    ensures (r as int - x) % 0x1_0000_0000 == 0
  {
    ((x + 0x8000_0000) % 0x1_0000_0000 - 0x8000_0000) as i32
  }

  /** The download-info projection of a stored row; the remaining size is the 32-bit difference. */
  function Info(j: Job): (r: JobInfo)
    ensures r.name == j.name && r.downloadedSize == j.downloadedSize
    ensures (r.remainingSize as int - (j.totalSize as int - j.downloadedSize as int)) % 0x1_0000_0000 == 0
  {
    JobInfo(j.name, j.downloadedSize, WrapI32(j.totalSize as int - j.downloadedSize as int))
  }

  /** With non-negative sizes the subtraction cannot wrap: the remaining size is exact. */
  lemma InfoExact(j: Job)
    requires j.totalSize >= 0 && j.downloadedSize >= 0
    ensures Info(j).remainingSize as int == j.totalSize as int - j.downloadedSize as int
    ensures Info(j).name == j.name && Info(j).downloadedSize == j.downloadedSize
  {
  }

  // ---------------------------------------------------------------------
  // The table

  class JobTable {
    var rows: seq<Job>

    ghost predicate Valid()
      reads this
    {
      DistinctIds(rows)
    }

    constructor ()
      ensures Valid() && rows == []
    {
      rows := [];
    }

    /**
     * `NewJob::add_job`: INSERT of the built row, RETURNING it. A
     * colliding id fails the insert as a unique violation; every failure,
     * that one as much as any backend fault, is reported as
     * DuplicationError.
     */
    method AddJob(newJob: NewJob, id: Uuid, now: Timestamp, fault: Option<DieselError>) returns (r: Result<Job, Error>)
      requires Valid()
      modifies this
      ensures Valid()
      ensures r.Ok? <==> fault.None? && !HasId(old(rows), id)
      ensures r.Ok? ==> r.value == NewRow(newJob, id, now) && rows == old(rows) + [r.value]
      ensures r.Err? ==> r.error == Error.DuplicationError && rows == old(rows)
    {
      var failure := if fault.Some? then fault else if HasId(rows, id) then Some(UniqueViolation) else None;
      if failure.Some? {
        return Err(Error.DuplicationError);
      }
      var row := NewRow(newJob, id, now);
      rows := rows + [row];
      r := Ok(row);
    }

    /**
     * `create_bulk_jobs`: one INSERT of all `jobs`, RETURNING them. It
     * succeeds only if the primary key still holds with all of them
     * added, a unique violation otherwise; any failure is reported as
     * DuplicationError.
     */
    method CreateBulkJobs(jobs: seq<Job>, fault: Option<DieselError>) returns (r: Result<seq<Job>, Error>)
      requires Valid()
      modifies this
      ensures Valid()
      ensures r.Ok? <==> fault.None? && DistinctIds(old(rows) + jobs)
      ensures r.Ok? ==> r.value == jobs && rows == old(rows) + jobs
      ensures r.Err? ==> r.error == Error.DuplicationError && rows == old(rows)
    {
      var failure := if fault.Some? then fault else if !DistinctIds(rows + jobs) then Some(UniqueViolation) else None;
      if failure.Some? {
        return Err(Error.DuplicationError);
      }
      rows := rows + jobs;
      r := Ok(jobs);
    }

    /** `get_all_jobs`: every row, in an order SELECT without ORDER BY leaves open. */
    function GetAllJobs(fault: Option<DieselError>): (r: Result<seq<Job>, DieselError>)
      reads this
      ensures r.Err? <==> fault.Some?
      ensures r.Err? ==> r.error == fault.value
      ensures r.Ok? ==> multiset(r.value) == multiset(rows)
    {
      if fault.Some? then Err(fault.value) else Ok(rows)
    }

    /**
     * `get_all_paginated_jobs`: ORDER BY creation_date DESC NULLS LAST
     * LIMIT page_size OFFSET offset. The service passes both numbers on
     * unchecked; the database refuses a negative one, looking at the
     * offset first.
     */
    function GetAllPaginatedJobs(dto: PaginationDTO, fault: Option<DieselError>): (r: Result<seq<Job>, Error>)
      reads this
      ensures fault.Some? ==> r == Err(Error.DBError(fault.value))
      ensures r.Ok? <==> fault.None? && dto.pageSize >= 0 && dto.offset >= 0
      ensures r.Err? ==> r.error.DBError?
      ensures r.Ok? ==> |r.value| <= dto.pageSize as int
      ensures r.Ok? ==> |r.value| == Min(dto.pageSize as int, if dto.offset as int <= |rows| then |rows| - dto.offset as int else 0)
      ensures r.Ok? ==> DateDescending(r.value) && multiset(r.value) <= multiset(rows)
      ensures r.Ok? ==> r.value == Window(SortByDateDesc(rows), dto.offset as nat, dto.pageSize as nat)
    {
      if fault.Some? then Err(Error.DBError(fault.value))
      else if dto.offset < 0 then Err(Error.DBError(DatabaseError(NEGATIVE_OFFSET)))
      else if dto.pageSize < 0 then Err(Error.DBError(DatabaseError(NEGATIVE_LIMIT)))
      else
        var sorted := SortByDateDesc(rows);
        var page := Window(sorted, dto.offset as nat, dto.pageSize as nat);
        WindowDescending(sorted, dto.offset as nat, dto.pageSize as nat);
        WindowSubMultiset(sorted, dto.offset as nat, dto.pageSize as nat);
        Ok(page)
    }

    /** `count_jobs`: SELECT COUNT(*), whatever page is asked for; no page is longer. */
    function CountJobs(fault: Option<DieselError>): (r: Result<nat, Error>)
      reads this
      ensures r.Err? <==> fault.Some?
      ensures r.Err? ==> r.error == Error.DBError(fault.value)
      ensures r.Ok? ==> r.value == |rows|
      ensures r.Ok? ==> r.value == |GetAllJobs(None).value|
      ensures r.Ok? ==> forall dto :: GetAllPaginatedJobs(dto, None).Ok? ==> |GetAllPaginatedJobs(dto, None).value| <= r.value
    {
      if fault.Some? then Err(Error.DBError(fault.value)) else Ok(|rows|)
    }

    /**
     * `delete_job_by_id`: DELETE ... WHERE id = ... RETURNING the row.
     * No deleted row is reported as the client's NotFound.
     */
    method DeleteJobById(id: Uuid, fault: Option<DieselError>) returns (r: Result<Job, Error>)
      requires Valid()
      modifies this
      ensures Valid()
      ensures fault.Some? ==> r == Err(Error.DBError(fault.value)) && rows == old(rows)
      ensures fault.None? && !HasId(old(rows), id) ==> r == Err(Error.DBError(DieselError.NotFound)) && rows == old(rows)
      ensures fault.None? && HasId(old(rows), id) ==>
        exists i :: 0 <= i < |old(rows)| && old(rows)[i].id == id &&
          r == Ok(old(rows)[i]) && rows == old(rows)[..i] + old(rows)[i + 1..]
    {
      if fault.Some? {
        return Err(Error.DBError(fault.value));
      }
      var found := Find(rows, id);
      if found.None? {
        return Err(Error.DBError(DieselError.NotFound));
      }
      var i :| 0 <= i < |rows| && rows[i].id == id;
      FindRow(rows, i);
      RemoveExact(rows, i);
      DropKeepsDistinct(rows, i);
      rows := RemoveId(rows, id);
      r := Ok(found.value);
    }

    /** `set_activate_job`: UPDATE ... SET is_active WHERE id = ..., answering the number of rows affected. */
    method SetActivateJob(id: Uuid, activate: bool, fault: Option<DieselError>) returns (r: Result<nat, Error>)
      requires Valid()
      modifies this
      ensures Valid()
      ensures fault.Some? ==> r == Err(Error.DBError(fault.value)) && rows == old(rows)
      ensures fault.None? ==> r == Ok(if HasId(old(rows), id) then 1 else 0)
      ensures fault.None? ==> rows == UpdateWhere(old(rows), id, SetActive(activate))
      ensures fault.None? && HasId(old(rows), id) ==> Find(rows, id) == Some(Find(old(rows), id).value.(isActive := activate))
    {
      if fault.Some? {
        return Err(Error.DBError(fault.value));
      }
      MatchCountAtMostOne(rows, id);
      var affected := MatchCount(rows, id);
      UpdateKeepsIds(rows, id, SetActive(activate));
      if HasId(rows, id) {
        FindUpdated(rows, id, SetActive(activate));
      }
      rows := UpdateWhere(rows, id, SetActive(activate));
      r := Ok(affected);
    }

    /** `delete_all_jobs`: DELETE of every row, answering how many there were. */
    method DeleteAllJobs(fault: Option<DieselError>) returns (r: Result<nat, Error>)
      requires Valid()
      modifies this
      ensures Valid()
      ensures fault.Some? ==> r == Err(Error.DBError(fault.value)) && rows == old(rows)
      ensures fault.None? ==> r == Ok(|old(rows)|) && rows == []
    {
      if fault.Some? {
        return Err(Error.DBError(fault.value));
      }
      r := Ok(|rows|);
      rows := [];
    }

    /** `find_job_by_id`: SELECT by primary key; no row is the client's NotFound. */
    function FindJobById(id: Uuid, fault: Option<DieselError>): (r: Result<Job, Error>)
      reads this
      ensures fault.Some? ==> r == Err(Error.DBError(fault.value))
      ensures fault.None? ==> (r.Ok? <==> HasId(rows, id))
      ensures fault.None? && r.Err? ==> r.error == Error.DBError(DieselError.NotFound)
      ensures r.Ok? ==> r.value in rows && r.value.id == id
    {
      if fault.Some? then Err(Error.DBError(fault.value))
      else match Find(rows, id)
        case Some(j) => Ok(j)
        case None => Err(Error.DBError(DieselError.NotFound))
    }

    /**
     * `update_job`: UPDATE ... SET name, total_size, is_active WHERE
     * id = incoming.id, RETURNING the stored row. The other columns
     * of `incoming` are not written. No matching row is the client's
     * NotFound.
     */
    method UpdateJob(incoming: Job, fault: Option<DieselError>) returns (r: Result<Job, Error>)
      requires Valid()
      modifies this
      ensures Valid()
      ensures fault.Some? ==> r == Err(Error.DBError(fault.value)) && rows == old(rows)
      ensures fault.None? && !HasId(old(rows), incoming.id) ==> r == Err(Error.DBError(DieselError.NotFound)) && rows == old(rows)
      ensures fault.None? && HasId(old(rows), incoming.id) ==>
        rows == UpdateWhere(old(rows), incoming.id, Narrowed(incoming)) &&
        r == Ok(Narrowed(incoming)(Find(old(rows), incoming.id).value)) &&
        Find(rows, incoming.id) == Some(r.value)
    {
      if fault.Some? {
        return Err(Error.DBError(fault.value));
      }
      var found := Find(rows, incoming.id);
      if found.None? {
        return Err(Error.DBError(DieselError.NotFound));
      }
      UpdateKeepsIds(rows, incoming.id, Narrowed(incoming));
      FindUpdated(rows, incoming.id, Narrowed(incoming));
      rows := UpdateWhere(rows, incoming.id, Narrowed(incoming));
      r := Ok(Narrowed(incoming)(found.value));
    }

    /** `get_job_info`: the row's download-info projection; `find_job_by_id`'s errors pass through as they are. */
    function GetJobInfo(id: Uuid, fault: Option<DieselError>): (r: Result<JobInfo, Error>)
      reads this
      ensures r.Err? <==> FindJobById(id, fault).Err?
      ensures r.Err? ==> r.error == FindJobById(id, fault).error
      ensures r.Ok? ==>
        var j := FindJobById(id, fault).value;
        r.value.name == j.name && r.value.downloadedSize == j.downloadedSize &&
        (r.value.remainingSize as int - (j.totalSize as int - j.downloadedSize as int)) % 0x1_0000_0000 == 0
    {
      match FindJobById(id, fault)
      case Ok(j) => Ok(Info(j))
      case Err(e) => Err(e)
    }
  }

  /** A window takes nothing that is not in the ordered result. */
  lemma WindowSubMultiset(s: seq<Job>, offset: nat, size: nat)
    ensures multiset(Window(s, offset, size)) <= multiset(s)
  {
    var lo := Min(offset, |s|);
    var hi := Min(offset + size, |s|);
    assert s == s[..lo] + s[lo..hi] + s[hi..];
    assert Window(s, offset, size) == s[lo..hi];
  }
}
