/**
 * The `jobs` and `job_logs` tables (`src/database/job.rs`), held in memory.
 * A stored row may hold SQL `NULL`s; reading it back into a `Job` fails on
 * a `NULL` or on an integer outside `i32`, and such rows are skipped.
 */
module Jobs {
  import opened Wrappers
  import opened Text
  import opened Messages

  /** One job as the program reads it. */
  datatype Job = Job(
    id: int,
    repo: string,
    status: string,
    priority: int,
    createdAt: string,
    updatedAt: string,
    startTime: string,
    finishTime: string,
    errorMessage: string,
    result: string,
    sha: string,
    targetBranch: string)

  /** One stored row of `jobs`; `None` is `NULL`. */
  datatype Row = Row(
    id: int,
    repo: Option<string>,
    status: Option<string>,
    priority: Option<int>,
    createdAt: Option<string>,
    updatedAt: Option<string>,
    startTime: Option<string>,
    finishTime: Option<string>,
    errorMessage: Option<string>,
    result: Option<string>,
    sha: Option<string>,
    targetBranch: Option<string>)

  /** One row of `job_logs`, keyed by the repository path. */
  datatype JobLog = JobLog(repo: string, message: Message, loggedAt: string)

  /** Appending job logs is associative; stated on its own to keep callers' proofs small. */
  lemma LogsAssoc(a: seq<JobLog>, b: seq<JobLog>, c: seq<JobLog>)
    ensures (a + b) + c == a + (b + c)
  {
  }

  predicate IsI32(x: int) {
    I32_MIN <= x <= I32_MAX
  }

  /** The row a job is stored as. */
  function Encode(j: Job): Row {
    Row(j.id, Some(j.repo), Some(j.status), Some(j.priority), Some(j.createdAt), Some(j.updatedAt),
        Some(j.startTime), Some(j.finishTime), Some(j.errorMessage), Some(j.result), Some(j.sha),
        Some(j.targetBranch))
  }

  /** `query_map`'s row mapping: every column present, and `id` and `priority` within `i32`. */
  function Decode(r: Row): (j: Option<Job>)
    ensures j.Some? ==> Encode(j.value) == r && IsI32(j.value.id) && IsI32(j.value.priority)
    ensures j.None? ==> (
      || !IsI32(r.id) || r.priority.None? || !IsI32(r.priority.value)
      || r.repo.None? || r.status.None? || r.createdAt.None? || r.updatedAt.None?
      || r.startTime.None? || r.finishTime.None? || r.errorMessage.None? || r.result.None?
      || r.sha.None? || r.targetBranch.None?)
  {
    if IsI32(r.id) && r.repo.Some? && r.status.Some? && r.priority.Some? && IsI32(r.priority.value)
      && r.createdAt.Some? && r.updatedAt.Some? && r.startTime.Some? && r.finishTime.Some?
      && r.errorMessage.Some? && r.result.Some? && r.sha.Some? && r.targetBranch.Some?
    then
      Some(Job(r.id, r.repo.value, r.status.value, r.priority.value, r.createdAt.value,
               r.updatedAt.value, r.startTime.value, r.finishTime.value, r.errorMessage.value,
               r.result.value, r.sha.value, r.targetBranch.value))
    else None
  }

  /** A job whose integers fit `i32` is read back as itself. */
  lemma DecodeEncode(j: Job)
    requires IsI32(j.id) && IsI32(j.priority)
    ensures Decode(Encode(j)) == Some(j)
  {
  }

  /** The jobs `get_jobs` returns: the decodable rows, in table order. */
  function Decoded(rows: seq<Row>): seq<Job> {
    if rows == [] then []
    else
      Decoded(rows[..|rows| - 1])
      + (match Decode(rows[|rows| - 1]) case Some(j) => [j] case None => [])
  }

  lemma {:induction false} DecodedAppend(a: seq<Row>, b: seq<Row>)
    ensures Decoded(a + b) == Decoded(a) + Decoded(b)
    decreases |b|
  {
    if b == [] {
      assert a + b == a;
    } else {
      assert (a + b)[..|a + b| - 1] == a + b[..|b| - 1];
      DecodedAppend(a, b[..|b| - 1]);
    }
  }

  /** A job is returned exactly when some row decodes to it. */
  lemma {:induction false} DecodedMembers(rows: seq<Row>, j: Job)
    ensures j in Decoded(rows) <==> exists i :: 0 <= i < |rows| && Decode(rows[i]) == Some(j)
  {
    if rows != [] {
      var init := rows[..|rows| - 1];
      DecodedMembers(init, j);
      if exists i :: 0 <= i < |init| && Decode(init[i]) == Some(j) {
        var i :| 0 <= i < |init| && Decode(init[i]) == Some(j);
        assert rows[i] == init[i];
      }
      if exists i :: 0 <= i < |rows| && Decode(rows[i]) == Some(j) {
        var i :| 0 <= i < |rows| && Decode(rows[i]) == Some(j);
        if i < |init| {
          assert init[i] == rows[i];
        }
      }
    }
  }

  /** `WHERE repo = ?2 AND target_branch = ?3`; a `NULL` never matches. */
  predicate Matches(r: Row, repo: string, branch: string) {
    r.repo == Some(repo) && r.targetBranch == Some(branch)
  }

  predicate IsFor(j: Job, repo: string, branch: string) {
    j.repo == repo && j.targetBranch == branch
  }

  /** Some job in the list belongs to the pair. */
  predicate HasJobFor(jobs: seq<Job>, repo: string, branch: string) {
    exists i :: 0 <= i < |jobs| && IsFor(jobs[i], repo, branch)
  }

  /** The columns the program updates. */
  datatype Column = Sha | Status | UpdatedAt | StartTime | FinishTime

  function SetColumn(r: Row, c: Column, v: string): Row {
    match c
    case Sha => r.(sha := Some(v))
    case Status => r.(status := Some(v))
    case UpdatedAt => r.(updatedAt := Some(v))
    case StartTime => r.(startTime := Some(v))
    case FinishTime => r.(finishTime := Some(v))
  }

  /** `UPDATE jobs SET <c> = v WHERE repo = .. AND target_branch = ..`. */
  function UpdateWhere(rows: seq<Row>, c: Column, v: string, repo: string, branch: string): (r: seq<Row>)
    ensures |r| == |rows|
    ensures forall i :: 0 <= i < |rows| ==>
      r[i] == if Matches(rows[i], repo, branch) then SetColumn(rows[i], c, v) else rows[i]
  {
    seq(|rows|, i requires 0 <= i < |rows| =>
      if Matches(rows[i], repo, branch) then SetColumn(rows[i], c, v) else rows[i])
  }

  /** The number of rows the statement reports as updated. */
  function CountWhere(rows: seq<Row>, repo: string, branch: string): (n: nat)
    ensures n <= |rows|
    ensures n == 0 <==> forall i :: 0 <= i < |rows| ==> !Matches(rows[i], repo, branch)
  {
    if rows == [] then 0
    else
      var n := CountWhere(rows[..|rows| - 1], repo, branch);
      assert forall i :: 0 <= i < |rows| - 1 ==> rows[..|rows| - 1][i] == rows[i];
      n + (if Matches(rows[|rows| - 1], repo, branch) then 1 else 0)
  }

  /**
   * The table after `update_sha` or `update_status`: the column is set on
   * the matching rows, whose `updated_at` is then refreshed only if the
   * first statement reported at least one row.
   */
  function AfterUpdate(rows: seq<Row>, c: Column, v: string, repo: string, branch: string, now: string): seq<Row> {
    var set1 := UpdateWhere(rows, c, v, repo, branch);
    if CountWhere(rows, repo, branch) > 0 then UpdateWhere(set1, UpdatedAt, now, repo, branch) else set1
  }

  /**
   * `update_sha`: the matching rows get the new SHA and a fresh
   * `updated_at`, and nothing else changes; with no matching row the table
   * is unchanged.
   */
  lemma UpdateShaRows(rows: seq<Row>, sha: string, repo: string, branch: string, now: string)
    ensures |AfterUpdate(rows, Sha, sha, repo, branch, now)| == |rows|
    ensures forall i :: 0 <= i < |rows| ==>
      AfterUpdate(rows, Sha, sha, repo, branch, now)[i]
        == if Matches(rows[i], repo, branch) then rows[i].(sha := Some(sha), updatedAt := Some(now)) else rows[i]
  {
  }

  /** `update_status`: the same, for the status column. */
  lemma UpdateStatusRows(rows: seq<Row>, status: string, repo: string, branch: string, now: string)
    ensures |AfterUpdate(rows, Status, status, repo, branch, now)| == |rows|
    ensures forall i :: 0 <= i < |rows| ==>
      AfterUpdate(rows, Status, status, repo, branch, now)[i]
        == if Matches(rows[i], repo, branch) then rows[i].(status := Some(status), updatedAt := Some(now)) else rows[i]
  {
  }

  /** With no matching row an update changes nothing, `updated_at` included. */
  lemma UpdateWithoutMatch(rows: seq<Row>, c: Column, v: string, repo: string, branch: string, now: string)
    requires forall i :: 0 <= i < |rows| ==> !Matches(rows[i], repo, branch)
    ensures AfterUpdate(rows, c, v, repo, branch, now) == rows
  {
    assert UpdateWhere(rows, c, v, repo, branch) == rows;
  }

  /** The row `add_job` inserts; both timestamps are the current time. */
  function NewRow(id: int, j: Job, now: string): Row {
    Row(id, Some(j.repo), Some(j.status), Some(j.priority), Some(now), Some(now), Some(j.startTime),
        Some(j.finishTime), Some(j.errorMessage), Some(j.result), Some(j.sha), Some(j.targetBranch))
  }

  /** The table after `add_job`: a new row only when no readable job has the pair. */
  function InsertJob(rows: seq<Row>, id: int, j: Job, now: string): (r: seq<Row>)
    ensures r == rows || r == rows + [NewRow(id, j, now)]
  {
    if HasJobFor(Decoded(rows), j.repo, j.targetBranch) then rows else rows + [NewRow(id, j, now)]
  }

  /** No two rows share a (repo, branch) pair. */
  predicate OneRowPerPair(rows: seq<Row>) {
    forall i, k :: 0 <= i < k < |rows| && rows[i].repo.Some? && rows[i].targetBranch.Some?
      ==> !Matches(rows[k], rows[i].repo.value, rows[i].targetBranch.value)
  }

  /** A matching row that decodes makes the pair visible to `check_exists`. */
  lemma MatchingRowIsSeen(rows: seq<Row>, i: int, repo: string, branch: string)
    requires 0 <= i < |rows| && Matches(rows[i], repo, branch) && Decode(rows[i]).Some?
    ensures HasJobFor(Decoded(rows), repo, branch)
  {
    var j := Decode(rows[i]).value;
    DecodedMembers(rows, j);
    var k :| 0 <= k < |Decoded(rows)| && Decoded(rows)[k] == j;
    assert IsFor(Decoded(rows)[k], repo, branch);
  }

  /**
   * `add_job` keeps at most one row per pair, provided every row already
   * stored for the new job's pair can be read back.
   */
  lemma InsertJobKeepsOneRowPerPair(rows: seq<Row>, id: int, j: Job, now: string)
    requires OneRowPerPair(rows)
    requires forall i :: 0 <= i < |rows| && Matches(rows[i], j.repo, j.targetBranch) ==> Decode(rows[i]).Some?
    ensures OneRowPerPair(InsertJob(rows, id, j, now))
  {
    var r := InsertJob(rows, id, j, now);
    if r != rows {
      forall i | 0 <= i < |rows| && Matches(rows[i], j.repo, j.targetBranch)
        ensures false
      {
        MatchingRowIsSeen(rows, i, j.repo, j.targetBranch);
      }
      assert r == rows + [NewRow(id, j, now)];
      forall i, k | 0 <= i < k < |r| && r[i].repo.Some? && r[i].targetBranch.Some?
        ensures !Matches(r[k], r[i].repo.value, r[i].targetBranch.value)
      {
        if k == |rows| {
          assert r[i] == rows[i];
        } else {
          assert r[i] == rows[i] && r[k] == rows[k];
        }
      }
    }
  }

  /** Adding the same job twice leaves one row for it. */
  lemma InsertJobTwice(rows: seq<Row>, id: int, id2: int, j: Job, now: string, now2: string)
    requires IsI32(id) && IsI32(j.priority)
    ensures InsertJob(InsertJob(rows, id, j, now), id2, j, now2) == InsertJob(rows, id, j, now)
  {
    var r := InsertJob(rows, id, j, now);
    if r != rows {
      assert r == rows + [NewRow(id, j, now)];
      MatchingRowIsSeen(r, |rows|, j.repo, j.targetBranch);
    }
  }

  /**
   * A stored row for the pair that cannot be read back (here a `NULL`
   * status) is invisible to the existence check, so a second row is added.
   */
  lemma UnreadableRowAllowsDuplicate(j: Job, now: string)
    requires IsI32(j.id)
    ensures var stored := Encode(j).(status := None);
      InsertJob([stored], j.id + 1, j, now) == [stored, NewRow(j.id + 1, j, now)]
  {
    var stored := Encode(j).(status := None);
    assert [stored][..0] == [];
    assert Decoded([stored]) == [];
  }

  /** The jobs with the given status, in order (`get_jobs_by_status`). */
  function WithStatus(jobs: seq<Job>, status: string): (r: seq<Job>)
    ensures forall i :: 0 <= i < |r| ==> r[i].status == status
    ensures forall i :: 0 <= i < |jobs| && jobs[i].status == status ==> jobs[i] in r
    ensures forall x :: x in r ==> x in jobs
  {
    if jobs == [] then []
    else (if jobs[0].status == status then [jobs[0]] else []) + WithStatus(jobs[1..], status)
  }

  /** The jobs for the pair, in order (`get_jobs_by_repo`). */
  function ForPair(jobs: seq<Job>, repo: string, branch: string): (r: seq<Job>)
    ensures forall i :: 0 <= i < |r| ==> IsFor(r[i], repo, branch)
    ensures forall i :: 0 <= i < |jobs| && IsFor(jobs[i], repo, branch) ==> jobs[i] in r
    ensures forall x :: x in r ==> x in jobs
  {
    if jobs == [] then []
    else (if IsFor(jobs[0], repo, branch) then [jobs[0]] else []) + ForPair(jobs[1..], repo, branch)
  }

  /** Filtering by status keeps table order. */
  lemma {:induction false} WithStatusAppend(a: seq<Job>, b: seq<Job>, status: string)
    ensures WithStatus(a + b, status) == WithStatus(a, status) + WithStatus(b, status)
  {
    if a == [] {
      assert a + b == b;
    } else {
      assert (a + b)[1..] == a[1..] + b;
      WithStatusAppend(a[1..], b, status);
    }
  }

  /** Filtering by pair keeps table order. */
  lemma {:induction false} ForPairAppend(a: seq<Job>, b: seq<Job>, repo: string, branch: string)
    ensures ForPair(a + b, repo, branch) == ForPair(a, repo, branch) + ForPair(b, repo, branch)
  {
    if a == [] {
      assert a + b == b;
    } else {
      assert (a + b)[1..] == a[1..] + b;
      ForPairAppend(a[1..], b, repo, branch);
    }
  }

  /** The SQLite database: the `jobs` rows, the next row id, and the job log. */
  class Database {
    var rows: seq<Row>
    var nextId: int
    var logs: seq<JobLog>

    /** A database with empty tables. */
    constructor ()
      ensures rows == [] && nextId == 1 && logs == []
    {
      rows := [];
      nextId := 1;
      logs := [];
    }

    /** `get_jobs`: `SELECT * FROM jobs`, keeping the rows that decode. */
    method GetJobs() returns (jobs: seq<Job>)
      ensures jobs == Decoded(rows)
    {
      jobs := [];
      var i := 0;
      while i < |rows|
        invariant 0 <= i <= |rows|
        invariant jobs == Decoded(rows[..i])
      {
        assert rows[..i + 1][..i] == rows[..i];
        match Decode(rows[i]) {
          case Some(j) => jobs := jobs + [j];
          case None =>
        }
        i := i + 1;
      }
      assert rows[..i] == rows;
    }

    /** `check_exists`: whether some readable job has the pair. */
    method CheckExists(repo: string, branch: string) returns (contained: bool)
      ensures contained <==> HasJobFor(Decoded(rows), repo, branch)
    {
      contained := false;
      var jobs := GetJobs();
      var i := 0;
      while i < |jobs|
        invariant 0 <= i <= |jobs|
        invariant contained <==> exists k :: 0 <= k < i && IsFor(jobs[k], repo, branch)
      {
        if jobs[i].repo == repo && jobs[i].targetBranch == branch {
          contained := true;
        }
        i := i + 1;
      }
    }

    /** `add_job`: insert the job unless its pair already exists. */
    method AddJob(j: Job, now: string)
      modifies this
      ensures rows == InsertJob(old(rows), old(nextId), j, now)
      ensures nextId == if rows == old(rows) then old(nextId) else old(nextId) + 1
      ensures logs == old(logs)
    {
      var exists_ := CheckExists(j.repo, j.targetBranch);
      if !exists_ {
        rows := rows + [NewRow(nextId, j, now)];
        nextId := nextId + 1;
      }
    }

    /** One `UPDATE … WHERE repo AND target_branch`, rewriting the matching rows in place. */
    method Execute(c: Column, v: string, repo: string, branch: string) returns (updated: nat)
      modifies this
      ensures rows == UpdateWhere(old(rows), c, v, repo, branch)
      ensures updated == CountWhere(old(rows), repo, branch)
      ensures nextId == old(nextId) && logs == old(logs)
    {
      updated := 0;
      var i := 0;
      ghost var before := rows;
      while i < |rows|
        invariant 0 <= i <= |rows| == |before|
        invariant forall j :: i <= j < |rows| ==> rows[j] == before[j]
        invariant forall j :: 0 <= j < i ==>
          rows[j] == if Matches(before[j], repo, branch) then SetColumn(before[j], c, v) else before[j]
        invariant updated == CountWhere(before[..i], repo, branch)
        invariant nextId == old(nextId) && logs == old(logs)
      {
        assert before[..i + 1][..i] == before[..i] && before[..i + 1][i] == before[i];
        if Matches(rows[i], repo, branch) {
          rows := rows[i := SetColumn(rows[i], c, v)];
          updated := updated + 1;
        }
        i := i + 1;
      }
      assert before[..i] == before;
    }

    /** `update_updated_time`. */
    method UpdateUpdatedTime(repo: string, branch: string, now: string)
      modifies this
      ensures rows == UpdateWhere(old(rows), UpdatedAt, now, repo, branch)
      ensures nextId == old(nextId) && logs == old(logs)
    {
      var _ := Execute(UpdatedAt, now, repo, branch);
    }

    /** `update_start_time`. */
    method UpdateStartTime(repo: string, branch: string, now: string)
      modifies this
      ensures rows == UpdateWhere(old(rows), StartTime, now, repo, branch)
      ensures nextId == old(nextId) && logs == old(logs)
    {
      var _ := Execute(StartTime, now, repo, branch);
    }

    /** `update_finished_time`. */
    method UpdateFinishedTime(repo: string, branch: string, now: string)
      modifies this
      ensures rows == UpdateWhere(old(rows), FinishTime, now, repo, branch)
      ensures nextId == old(nextId) && logs == old(logs)
    {
      var _ := Execute(FinishTime, now, repo, branch);
    }

    /** `update_sha`. */
    method UpdateSha(repo: string, branch: string, sha: string, now: string)
      modifies this
      ensures rows == AfterUpdate(old(rows), Sha, sha, repo, branch, now)
      ensures nextId == old(nextId) && logs == old(logs)
    {
      var updated := Execute(Sha, sha, repo, branch);
      if updated > 0 {
        UpdateUpdatedTime(repo, branch, now);
      }
    }

    /** `update_status`. */
    method UpdateStatus(repo: string, branch: string, status: string, now: string)
      modifies this
      ensures rows == AfterUpdate(old(rows), Status, status, repo, branch, now)
      ensures nextId == old(nextId) && logs == old(logs)
    {
      var updated := Execute(Status, status, repo, branch);
      if updated > 0 {
        UpdateUpdatedTime(repo, branch, now);
      }
    }

    /** `get_jobs_by_status`. */
    method GetJobsByStatus(status: string) returns (jobs: seq<Job>)
      ensures jobs == WithStatus(Decoded(rows), status)
    {
      var all := GetJobs();
      jobs := WithStatus(all, status);
    }

    /** `get_jobs_by_repo`. */
    method GetJobsByRepo(repo: string, branch: string) returns (jobs: seq<Job>)
      ensures jobs == ForPair(Decoded(rows), repo, branch)
    {
      var all := GetJobs();
      jobs := ForPair(all, repo, branch);
    }

    /** `add_job_log`: append one entry to `job_logs`. */
    method AddJobLog(entry: JobLog)
      modifies this
      ensures logs == old(logs) + [entry]
      ensures rows == old(rows) && nextId == old(nextId)
    {
      logs := logs + [entry];
    }
  }
}
