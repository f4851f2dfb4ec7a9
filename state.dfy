/**
 * The daemon's own `AppState` (`src/app/state.rs`): the same repository
 * table as `App`, reconciled against the configuration while seeding one
 * job per configured (path, branch) pair, the polling tick with its
 * snapshot, write-back and queue drain, the state-file names derived from
 * the clock, and the command-line subcommands.
 */
module State {
  import opened Wrappers
  import opened Text
  import opened Env
  import opened Util
  import opened Messages
  import opened Jobs
  import opened Repository
  import opened RepoSetup
  import opened App
  import opened Scm

  const STATE_DIR := ".state"
  const STAMP_LENGTH: nat := 8
  const CHANNEL_CAPACITY: nat := 100
  const SERVICE := "service"

  // ---------------------------------------------------------------------
  // State-file names

  /** The characters `to_string` writes for an integer: digits and `-`. */
  predicate StampChars(s: string) {
    forall i :: 0 <= i < |s| ==> IsDigit(s[i]) || s[i] == '-'
  }

  lemma IntToStringChars(ts: int)
    ensures |IntToString(ts)| >= 1 && StampChars(IntToString(ts))
  {
    if ts < 0 {
      var d := NatToString(-ts);
      assert forall i :: 1 <= i < |"-" + d| ==> ("-" + d)[i] == d[i - 1];
    }
  }

  /** `timestamp().to_string()` truncated to its first eight characters. */
  function ShortStamp(ts: int): (s: string)
    ensures 0 < |s| <= STAMP_LENGTH && StartsWith(IntToString(ts), s)
    ensures |IntToString(ts)| <= STAMP_LENGTH ==> s == IntToString(ts)
    ensures |IntToString(ts)| > STAMP_LENGTH ==> s == IntToString(ts)[..STAMP_LENGTH]
    ensures StampChars(s) && '/' !in s
  {
    IntToStringChars(ts);
    var s := Truncate(IntToString(ts), STAMP_LENGTH);
    assert forall i :: 0 <= i < |s| ==> s[i] == IntToString(ts)[i];
    s
  }

  /**
   * `get_state_path`: the stamp appended to the `.state` work directory.
   * It is never empty, and its last `/`-segment is the stamp.
   */
  function StatePath(user: Option<string>, ts: int): (p: string)
    ensures |p| > 0
    ensures StartsWith(p, DefaultRepoWorkPath(user, STATE_DIR))
    ensures LastSegment(p) == ShortStamp(ts)
  {
    var base := DefaultRepoWorkPath(user, STATE_DIR);
    var stamp := ShortStamp(ts);
    var p := base + stamp;
    assert p[..|base|] == base;
    if base == [] then
      assert p == stamp;
      LastSegmentNoSlash(stamp);
      p
    else
      assert p == base[..|base| - 1] + "/" + stamp;
      LastSegmentAfterSlash(base[..|base| - 1], stamp);
      p
  }

  /** A prefix of a string of digits is a string of digits. */
  lemma DigitsPrefix(s: string, n: nat)
    requires AllDigits(s) && n <= |s|
    ensures AllDigits(s[..n])
  {
    assert forall i :: 0 <= i < n ==> s[..n][i] == s[i];
  }

  /**
   * Reading the stamp back as an `i32` always succeeds: at most eight
   * digits, or a minus sign and at most seven; and one less is still an
   * `i32`.
   */
  lemma StampParses(ts: int)
    ensures ParseSigned(ShortStamp(ts), I32_MIN, I32_MAX).Some?
    ensures I32_MIN <= ParseSigned(ShortStamp(ts), I32_MIN, I32_MAX).value - 1
  {
    var s := ShortStamp(ts);
    var full := IntToString(ts);
    assert s == full[..|s|];
    assert Pow10(7) == 10000000 && Pow10(8) == 100000000 by {
      assert Pow10(1) == 10 && Pow10(2) == 100 && Pow10(3) == 1000 && Pow10(4) == 10000;
      assert Pow10(5) == 100000 && Pow10(6) == 1000000;
    }
    if ts < 0 {
      var d := NatToString(-ts);
      assert full == "-" + d;
      assert s[0] == '-';
      assert s[1..] == d[..|s| - 1];
      DigitsPrefix(d, |s| - 1);
      if s[1..] != [] {
        assert DigitsValue(s[1..]) < Pow10(|s[1..]|);
        PowMonotone(|s[1..]|, 7);
      }
    } else {
      var d := NatToString(ts);
      DigitsPrefix(d, |s|);
      assert s[0] != '-' && s[0] != '+' by { assert IsDigit(d[0]); }
      PowMonotone(|s|, 8);
    }
  }

  lemma {:induction false} PowMonotone(a: nat, b: nat)
    requires a <= b
    ensures Pow10(a) <= Pow10(b)
    decreases b
  {
    if a < b {
      PowMonotone(a, b - 1);
    }
  }

  /** The stamp read back as the integer `get_previous_state_path` parses. */
  function StampValue(ts: int): (v: int)
    ensures I32_MIN < v <= I32_MAX
    ensures ParseSigned(ShortStamp(ts), I32_MIN, I32_MAX) == Some(v)
  {
    StampParses(ts);
    ParseSigned(ShortStamp(ts), I32_MIN, I32_MAX).value
  }

  /**
   * `get_previous_state_path`: the stamp parsed, decreased by one and
   * formatted again after the `.state` work directory. The `unwrap` and
   * the `i32` subtraction never fail.
   */
  function PreviousStatePath(user: Option<string>, ts: int): (p: string)
    ensures StartsWith(p, DefaultRepoWorkPath(user, STATE_DIR))
    ensures p[|DefaultRepoWorkPath(user, STATE_DIR)|..] == IntToString(StampValue(ts) - 1)
  {
    var base := DefaultRepoWorkPath(user, STATE_DIR);
    var p := base + IntToString(StampValue(ts) - 1);
    assert p[..|base|] == base;
    p
  }

  /**
   * A ten-digit timestamp (every instant from September 2001 to 2286)
   * loses its last two digits: the state file changes name every 100
   * seconds, and the previous path is the one of 100 seconds earlier.
   */
  lemma {:induction false} TenDigitStamp(ts: int)
    requires 1000000000 <= ts < 10000000000
    ensures ShortStamp(ts) == NatToString(ts / 100)
    ensures StampValue(ts) == ts / 100
    ensures PreviousStatePath(None, ts) == IntToString(ts / 100 - 1)
  {
    var q := ts / 100;
    assert Pow10(7) == 10000000 && Pow10(8) == 100000000 by {
      assert Pow10(1) == 10 && Pow10(2) == 100 && Pow10(3) == 1000 && Pow10(4) == 10000;
      assert Pow10(5) == 100000 && Pow10(6) == 1000000;
    }
    NatToStringLength(q, 8);
    var full := NatToString(ts);
    assert full == NatToString(ts / 10) + [Digit(ts % 10)];
    assert ts / 10 >= 10 && (ts / 10) / 10 == q;
    assert NatToString(ts / 10) == NatToString(q) + [Digit((ts / 10) % 10)];
    assert full == NatToString(q) + ([Digit((ts / 10) % 10)] + [Digit(ts % 10)]);
    assert full[..8] == NatToString(q);
    assert ShortStamp(ts) == NatToString(q);
    DigitsValueOfNat(q);
    assert ShortStamp(ts)[0] != '-' && ShortStamp(ts)[0] != '+' by {
      assert IsDigit(NatToString(q)[0]);
    }
  }

  /**
   * The directory `save_state` creates, as written: the state path with
   * every occurrence of its last segment, the stamp, removed.
   */
  function SaveStateDir(user: Option<string>, ts: int): (d: string)
    ensures |d| <= |StatePath(user, ts)|
  {
    var p := StatePath(user, ts);
    RemoveAll(p, LastSegment(p))
  }

  /**
   * The directory is the `.state` work directory whenever the stamp does
   * not also occur in it (for instance in the user name).
   */
  lemma SaveStateDirIsStateDir(user: string, ts: int)
    requires !Contains(DefaultRepoWorkPath(Some(user), STATE_DIR), ShortStamp(ts))
    ensures SaveStateDir(Some(user), ts) == DefaultRepoWorkPath(Some(user), STATE_DIR)
  {
    var base := DefaultRepoWorkPath(Some(user), STATE_DIR);
    assert StatePath(Some(user), ts) == base + ShortStamp(ts);
    RemoveAllTrailingSegment(base, ShortStamp(ts));
  }

  // ---------------------------------------------------------------------
  // Seeding the jobs table

  /** The jobs table as `add_job` sees it: the rows and the next row id. */
  datatype Table = Table(rows: seq<Row>, nextId: int)

  /** The job `add_repos_from_config` records for a prepared repository. */
  function SeedJob(p: Repo): (j: Job)
    ensures j.repo == p.path && j.targetBranch == p.targetBranch && j.priority == 0
    ensures j.sha == (match p.lastSha case Some(s) => s case None => "")
  {
    Job(0, p.path, "", 0, "", "", "", "", "", "", match p.lastSha case Some(s) => s case None => "", p.targetBranch)
  }

  /** The table after `add_job` for one prepared repository. */
  function SeedOne(t: Table, p: Repo, now: string): (r: Table)
    ensures r.rows == InsertJob(t.rows, t.nextId, SeedJob(p), now)
    ensures r.nextId == if r.rows == t.rows then t.nextId else t.nextId + 1
  {
    var rows := InsertJob(t.rows, t.nextId, SeedJob(p), now);
    Table(rows, if rows == t.rows then t.nextId else t.nextId + 1)
  }

  /**
   * The table after a job is offered for each prepared repository in
   * turn: rows are only ever appended, one id per new row.
   */
  function Seeded(t: Table, ps: seq<Repo>, now: string): (r: Table)
    ensures |t.rows| <= |r.rows| && r.rows[..|t.rows|] == t.rows
    ensures r.nextId - t.nextId == |r.rows| - |t.rows| <= |ps|
  {
    if ps == [] then t
    else
      var before := Seeded(t, ps[..|ps| - 1], now);
      var after := SeedOne(before, ps[|ps| - 1], now);
      assert after.rows[..|before.rows|] == before.rows;
      assert after.rows[..|t.rows|] == before.rows[..|t.rows|];
      after
  }

  /** Every stored row can be read back. */
  predicate AllReadable(rows: seq<Row>) {
    forall i :: 0 <= i < |rows| ==> Decode(rows[i]).Some?
  }

  /** The row added for a repository reads back when its id is an `i32`. */
  lemma NewRowReadable(id: int, p: Repo, now: string)
    requires IsI32(id)
    ensures Decode(NewRow(id, SeedJob(p), now)).Some?
  {
  }

  /** A pair with a readable job keeps it when rows are appended. */
  lemma {:induction false} HasJobForExtended(a: seq<Row>, b: seq<Row>, repo: string, branch: string)
    requires HasJobFor(Decoded(a), repo, branch)
    ensures HasJobFor(Decoded(a + b), repo, branch)
  {
    DecodedAppend(a, b);
    var i :| 0 <= i < |Decoded(a)| && IsFor(Decoded(a)[i], repo, branch);
    assert Decoded(a + b)[i] == Decoded(a)[i];
  }

  /** A pair with a readable job keeps it in any table that extends the rows. */
  lemma HasJobForKept(a: seq<Row>, r: seq<Row>, repo: string, branch: string)
    requires |a| <= |r| && r[..|a|] == a
    requires HasJobFor(Decoded(a), repo, branch)
    ensures HasJobFor(Decoded(r), repo, branch)
  {
    assert r == a + r[|a|..];
    HasJobForExtended(a, r[|a|..], repo, branch);
  }

  /** After one seeding step the repository's pair has a readable job. */
  lemma SeedOneCovers(t: Table, p: Repo, now: string)
    requires IsI32(t.nextId)
    ensures HasJobFor(Decoded(SeedOne(t, p, now).rows), p.path, p.targetBranch)
  {
    var r := SeedOne(t, p, now).rows;
    if r != t.rows {
      assert r == t.rows + [NewRow(t.nextId, SeedJob(p), now)];
      NewRowReadable(t.nextId, p, now);
      MatchingRowIsSeen(r, |t.rows|, p.path, p.targetBranch);
    }
  }

  /**
   * Once every repository has been offered, each configured (path, branch)
   * pair has a readable job, provided the new ids stay within `i32`.
   */
  lemma {:induction false} SeededCovers(t: Table, ps: seq<Repo>, now: string)
    requires I32_MIN <= t.nextId && t.nextId + |ps| <= I32_MAX + 1
    ensures forall i :: 0 <= i < |ps| ==> HasJobFor(Decoded(Seeded(t, ps, now).rows), ps[i].path, ps[i].targetBranch)
  {
    if ps != [] {
      var init := ps[..|ps| - 1];
      var before := Seeded(t, init, now);
      var after := Seeded(t, ps, now);
      SeededCovers(t, init, now);
      SeedOneCovers(before, ps[|ps| - 1], now);
      assert after == SeedOne(before, ps[|ps| - 1], now);
      forall i | 0 <= i < |init|
        ensures HasJobFor(Decoded(after.rows), ps[i].path, ps[i].targetBranch)
      {
        assert init[i] == ps[i];
        HasJobForKept(before.rows, after.rows, ps[i].path, ps[i].targetBranch);
      }
      assert HasJobFor(Decoded(after.rows), ps[|ps| - 1].path, ps[|ps| - 1].targetBranch);
    }
  }

  /**
   * Seeding keeps at most one row per pair, and every row readable, on a
   * table whose rows all read back, while the new ids stay within `i32`.
   */
  lemma {:induction false} SeededKeepsOneRowPerPair(t: Table, ps: seq<Repo>, now: string)
    requires OneRowPerPair(t.rows) && AllReadable(t.rows)
    requires I32_MIN <= t.nextId && t.nextId + |ps| <= I32_MAX + 1
    ensures OneRowPerPair(Seeded(t, ps, now).rows) && AllReadable(Seeded(t, ps, now).rows)
  {
    if ps != [] {
      var before := Seeded(t, ps[..|ps| - 1], now);
      var p := ps[|ps| - 1];
      SeededKeepsOneRowPerPair(t, ps[..|ps| - 1], now);
      InsertJobKeepsOneRowPerPair(before.rows, before.nextId, SeedJob(p), now);
      var r := SeedOne(before, p, now).rows;
      if r != before.rows {
        assert r == before.rows + [NewRow(before.nextId, SeedJob(p), now)];
        NewRowReadable(before.nextId, p, now);
        assert forall i :: 0 <= i < |before.rows| ==> r[i] == before.rows[i];
      }
    }
  }

  /** One step of the seeding loop. */
  lemma SeedStep(t0: Table, rs: seq<Repo>, w: World, i: nat, before: Table, after: Table)
    requires i < |rs|
    requires before == Seeded(t0, PreparedAll(rs, w)[..i], w.now)
    requires after == SeedOne(before, Prepared(rs[i], w), w.now)
    ensures after == Seeded(t0, PreparedAll(rs, w)[..i + 1], w.now)
  {
    var ps := PreparedAll(rs, w);
    assert ps[..i + 1][..i] == ps[..i];
    assert ps[i] == Prepared(rs[i], w);
  }

  // ---------------------------------------------------------------------
  // Command-line subcommands

  /** The subcommands `process_arguments` matches on. */
  datatype CliCommand =
    | NoCommand
    | Add(path: Option<string>, branch: Option<string>)
    | Configure(sub: string)
    | Reset
    | List

  /**
   * The effects of `process_arguments` that the model keeps: how it ends,
   * the configuration entry it appends, and the cache directory it removes.
   */
  datatype ArgsOutcome = ArgsOutcome(how: Termination, appended: Option<string>, removed: Option<string>)

  /** The repository `Add` writes to the configuration, on the branch given. */
  function AddedRepo(user: Option<string>, path: string, branch: string): (r: Repo)
    ensures r.name == LastSegment(path) && r.path == path && r.targetBranch == branch
    ensures r.lastSha.None? && !r.triggered
  {
    New(LastSegment(path), path, DefaultRepoWorkPath(user, path), None, branch, false)
  }

  /**
   * `process_arguments` after the configuration file has been created if
   * missing. `Add` with a path and a non-empty branch appends an entry
   * and exits 0; an empty branch, or a missing path or branch, exits 1;
   * an empty path falls through. `configure service` exits 0 and any
   * other subcommand 1. `reset` removes the cache directory and exits 0.
   * `list` reads the configuration, which exits or panics as reading it
   * does, and otherwise exits 0.
   */
  function ProcessArguments(cmd: CliCommand, w: World, configDir: string): (o: ArgsOutcome)
    ensures o.appended.Some? <==> cmd.Add? && cmd.path.Some? && cmd.branch.Some? && cmd.branch.value != [] && cmd.path.value != []
    ensures o.removed.Some? ==> cmd.Reset?
    ensures cmd.Add? && cmd.branch.Some? && cmd.branch.value == [] ==> o.how == Exit(1)
    ensures cmd.Add? && (cmd.path.None? || cmd.branch.None?) ==> o.how == Exit(1)
    ensures o.how == Completed <==>
      cmd.NoCommand? || (cmd.Add? && cmd.path == Some([]) && cmd.branch.Some? && cmd.branch.value != [])
  {
    match cmd
    case NoCommand => ArgsOutcome(Completed, None, None)
    case Add(path, branch) =>
      if path.Some? && branch.Some? then
        if branch.value == [] then ArgsOutcome(Exit(1), None, None)
        else if path.value != [] then
          ArgsOutcome(Exit(0), Some(ConfigEntry(AddedRepo(w.user, path.value, branch.value))), None)
        else ArgsOutcome(Completed, None, None)
      else ArgsOutcome(Exit(1), None, None)
    case Configure(sub) => ArgsOutcome(if sub == SERVICE then Exit(0) else Exit(1), None, None)
    case Reset =>
      (match RemoveCacheDataPath(w.os, w.user)
       case Panic(msg) => ArgsOutcome(Panicked(msg), None, None)
       case Path(dir) => ArgsOutcome(Exit(0), None, Some(dir)))
    case List =>
      (match FromConfig(w.user, w.repoConfig(configDir + REPO_CONFIG))
       case Stopped(how) => ArgsOutcome(how, None, None)
       case Repos(_) => ArgsOutcome(Exit(0), None, None))
  }

  /**
   * `Add` appends an entry named after the last segment of the path, with
   * the repository's path, and on branch `master` whatever branch was given;
   * a path free of `"` and a name free of `]` read back from it.
   */
  lemma AddWritesMasterEntry(w: World, configDir: string, path: string, branch: string)
    requires path != [] && branch != []
    requires ']' !in LastSegment(path) && '"' !in path
    ensures var o := ProcessArguments(Add(Some(path), Some(branch)), w, configDir);
      && o.how == Exit(0) && o.removed.None?
      && o.appended == Some(ConfigEntry(AddedRepo(w.user, path, branch)))
      && o.appended == Some(ConfigEntry(AddedRepo(w.user, path, DEFAULT_BRANCH)))
      && ReadEntry(o.appended.value) == Some((LastSegment(path), path))
  {
    var r := AddedRepo(w.user, path, branch);
    assert ProcessArguments(Add(Some(path), Some(branch)), w, configDir) == ArgsOutcome(Exit(0), Some(ConfigEntry(r)), None);
    ConfigEntryIgnoresBranch(r, DEFAULT_BRANCH);
    assert AddedRepo(w.user, path, DEFAULT_BRANCH) == r.(targetBranch := DEFAULT_BRANCH);
    ConfigEntryReadsBack(r);
  }

  /**
   * `reset` removes the corrected cache directory, and fails only without a
   * user or a known platform. The directory is the one the program removes
   * except for a non-root Linux user, where the program's is relative.
   */
  lemma ResetRemovesCache(w: World, configDir: string)
    ensures var o := ProcessArguments(Reset, w, configDir);
      && (o.how.Panicked? <==> w.user.None? || w.os.OtherOs?)
      && (o.removed.Some? <==> RemoveCacheDataPath(w.os, w.user).Path?)
      && (o.removed.Some? ==> o.removed.value == RemoveCacheDataPath(w.os, w.user).path)
      && (o.removed.Some? ==> IsAbsolute(o.removed.value) && EndsInSlash(o.removed.value))
      && (o.removed.Some? && !(w.os.Linux? && w.user.value != "root") ==>
            RemoveCacheDataPathAsWritten(w.os, w.user) == Path(o.removed.value))
  {
  }

  // ---------------------------------------------------------------------
  // The message queue

  /**
   * The inner loop of `poll_repos`: `try_recv` until the queue reports
   * `Empty` or `Disconnected`. Every buffered message is received, oldest
   * first, and the queue is left empty.
   */
  method Drain(ch: Channel) returns (received: seq<Message>, end: Received)
    requires ch.Valid()
    modifies ch
    ensures received == old(ch.buffer) && ch.buffer == []
    ensures end == if ch.senders == 0 then Disconnected else Empty
    ensures ch.Valid() && ch.senders == old(ch.senders)
  {
    received := [];
    end := Empty;
    var done := false;
    while !done
      invariant ch.Valid() && ch.senders == old(ch.senders)
      invariant received + ch.buffer == old(ch.buffer)
      invariant done ==> ch.buffer == [] && end == if ch.senders == 0 then Disconnected else Empty
      decreases if done then 0 else 1, |ch.buffer|
    {
      ghost var before := ch.buffer;
      var r := ch.TryRecv();
      match r {
        case Received(m) =>
          assert before == [m] + ch.buffer;
          received := received + [m];
        case Empty =>
          end := r;
          done := true;
        case Disconnected =>
          end := r;
          done := true;
      }
    }
  }

  // ---------------------------------------------------------------------
  // The daemon's state

  /** `AppState` of the daemon: the repository table, the polling interval and the database handle. */
  class AppState {
    var repos: map<string, Repo>
    var scmInterval: nat
    var hasDbConn: bool

    /** The state `AppState::new` builds once the database is open. */
    constructor ()
      ensures repos == map[] && scmInterval == SCM_INTERVAL && hasDbConn
    {
      repos := map[];
      scmInterval := SCM_INTERVAL;
      hasDbConn := true;
    }

    /** `get_serialized_state`: a copy of the table. */
    method GetSerializedState() returns (s: Snapshot)
      ensures s.repos == repos
    {
      s := Snapshot(repos);
    }

    /** `set_deserialize_state`: the table becomes the snapshot's. */
    method SetDeserializeState(s: Snapshot)
      modifies this
      ensures repos == s.repos
      ensures scmInterval == old(scmInterval) && hasDbConn == old(hasDbConn)
    {
      repos := s.repos;
    }

    /** `add_repo_to_state`: insert under `name` unless the name is already tracked. */
    method AddRepoToState(name: string, r: Repo)
      modifies this
      ensures repos == Added(old(repos), name, r)
      ensures scmInterval == old(scmInterval) && hasDbConn == old(hasDbConn)
    {
      if name !in repos {
        repos := repos[name := r];
      }
    }

    /**
     * The body of the `for_each` over one configured repository: prepare
     * it, offer it to the table, and add its job unless `check_exists`
     * finds one for its (path, branch) pair.
     */
    method PrepareAndSeed(r: Repo, w: World, db: Database)
      modifies this, db
      ensures repos == Added(old(repos), r.name, Prepared(r, w))
      ensures Table(db.rows, db.nextId) == SeedOne(Table(old(db.rows), old(db.nextId)), Prepared(r, w), w.now)
      ensures db.logs == old(db.logs)
      ensures scmInterval == old(scmInterval) && hasDbConn == old(hasDbConn)
    {
      var p, _ := Prepare(r, w);
      AddRepoToState(p.name, p);
      var exists_ := db.CheckExists(p.path, p.targetBranch);
      if !exists_ {
        db.AddJob(SeedJob(p), w.now);
      }
    }

    /**
     * The `for_each` over the configured repositories: each is dropped from
     * `leftOut`, prepared, offered to the table and given a job.
     */
    method OfferConfigured(rs: seq<Repo>, w: World, db: Database, leftOut0: map<string, Repo>)
      returns (leftOut: map<string, Repo>)
      modifies this, db
      ensures repos == AddedAll(old(repos), PreparedAll(rs, w))
      ensures forall k :: k in leftOut <==> k in leftOut0 && k !in Names(rs)
      ensures Table(db.rows, db.nextId) == Seeded(Table(old(db.rows), old(db.nextId)), PreparedAll(rs, w), w.now)
      ensures db.logs == old(db.logs)
      ensures scmInterval == old(scmInterval) && hasDbConn == old(hasDbConn)
    {
      leftOut := leftOut0;
      ghost var m := repos;
      ghost var t0 := Table(db.rows, db.nextId);
      ghost var ps := PreparedAll(rs, w);
      var i := 0;
      while i < |rs|
        invariant 0 <= i <= |rs|
        invariant repos == AddedAll(m, ps[..i])
        invariant forall k :: k in leftOut <==> k in leftOut0 && k !in Names(ps[..i])
        invariant Table(db.rows, db.nextId) == Seeded(t0, ps[..i], w.now)
        invariant db.logs == old(db.logs)
        invariant scmInterval == old(scmInterval) && hasDbConn == old(hasDbConn)
      {
        ghost var before := repos;
        ghost var tb := Table(db.rows, db.nextId);
        LeftOutStep(leftOut0, leftOut, rs, w, i);
        leftOut := leftOut - {rs[i].name};
        PrepareAndSeed(rs[i], w, db);
        OfferStep(m, rs, w, i, before, repos);
        SeedStep(t0, rs, w, i, tb, Table(db.rows, db.nextId));
        i := i + 1;
      }
      assert ps[..i] == ps;
      SameNameSet(ps, rs);
    }

    /**
     * The `for_each` over the left-out entries: each is removed from the
     * table. `default_repo_work_path_delete(..).unwrap()` cannot panic, as
     * the user name and platform were already accepted.
     */
    method DropLeftOut(leftOut0: map<string, Repo>, os: Os, user: Option<string>)
      requires user.Some? && !os.OtherOs?
      modifies this
      ensures forall k :: k in repos <==> k in old(repos) && k !in leftOut0
      ensures forall k :: k in repos ==> repos[k] == old(repos)[k]
      ensures scmInterval == old(scmInterval) && hasDbConn == old(hasDbConn)
    {
      var leftOut := leftOut0;
      while leftOut != map[]
        invariant leftOut.Keys <= leftOut0.Keys
        invariant forall k :: k in repos <==> k in old(repos) && (k !in leftOut0 || k in leftOut)
        invariant forall k :: k in repos ==> repos[k] == old(repos)[k]
        invariant scmInterval == old(scmInterval) && hasDbConn == old(hasDbConn)
        decreases |leftOut.Keys|
      {
        var k :| k in leftOut;
        ghost var before := leftOut.Keys;
        repos := repos - {k};
        assert DefaultRepoWorkPathDelete(os, user, leftOut[k].name).Path?;
        leftOut := leftOut - {k};
        assert leftOut.Keys < before by {
          assert k in before && k !in leftOut.Keys;
        }
      }
    }

    /**
     * `add_repos_from_config`: the table is reconciled as `App`'s is, and
     * each configured repository, once prepared, gets a job unless its
     * (path, branch) pair already has one.
     */
    method AddReposFromConfig(w: World, db: Database) returns (how: Termination)
      modifies this, db
      ensures ConfigLoad(w).Stopped? ==> how == ConfigLoad(w).how && repos == old(repos)
      ensures ConfigLoad(w).Stopped? ==> db.rows == old(db.rows) && db.nextId == old(db.nextId)
      ensures ConfigLoad(w).Repos? ==> how == Completed && repos == Reconciled(old(repos), ConfigLoad(w).repos, w)
      ensures ConfigLoad(w).Repos? ==>
        Table(db.rows, db.nextId) == Seeded(Table(old(db.rows), old(db.nextId)), PreparedAll(ConfigLoad(w).repos, w), w.now)
      ensures db.logs == old(db.logs)
      ensures scmInterval == old(scmInterval) && hasDbConn == old(hasDbConn)
    {
      var dir := DefaultConfigPath(w.os, w.user);
      if dir.Panic? {
        return Panicked(dir.message);
      }
      var leftOut := repos;
      var loaded := GetRepoFromConfig(w.user, w.repoConfig(dir.path + REPO_CONFIG));
      if loaded.Stopped? {
        return loaded.how;
      }
      ghost var m := repos;
      var rs := loaded.repos;
      leftOut := OfferConfigured(rs, w, db, leftOut);
      assert DefaultConfigPath(w.os, w.user).Path?;
      DropLeftOut(leftOut, w.os, w.user);
      ReconciledIsDropped(m, rs, w, repos);
      how := Completed;
    }

    /**
     * What `AppState::new` does once the database is open: reconcile the
     * table with the configuration, then act on the command line. A panic
     * or exit while reading the configuration ends it before the arguments
     * are looked at.
     */
    method Start(cmd: CliCommand, w: World, db: Database) returns (how: Termination, args: Option<ArgsOutcome>)
      modifies this, db
      ensures ConfigLoad(w).Stopped? ==> how == ConfigLoad(w).how && args.None? && repos == old(repos)
      ensures ConfigLoad(w).Repos? ==> repos == Reconciled(old(repos), ConfigLoad(w).repos, w)
      ensures ConfigLoad(w).Repos? ==>
        && DefaultConfigPath(w.os, w.user).Path?
        && args == Some(ProcessArguments(cmd, w, DefaultConfigPath(w.os, w.user).path))
        && how == args.value.how
      ensures ConfigLoad(w).Stopped? ==> db.rows == old(db.rows) && db.nextId == old(db.nextId)
      ensures ConfigLoad(w).Repos? ==>
        Table(db.rows, db.nextId) == Seeded(Table(old(db.rows), old(db.nextId)), PreparedAll(ConfigLoad(w).repos, w), w.now)
      ensures db.logs == old(db.logs)
      ensures scmInterval == old(scmInterval) && hasDbConn == old(hasDbConn)
    {
      how := AddReposFromConfig(w, db);
      if how != Completed {
        return how, None;
      }
      var dir := DefaultConfigPath(w.os, w.user);
      var o := ProcessArguments(cmd, w, dir.path);
      how, args := o.how, Some(o);
    }

    /**
     * One tick of `poll_repos`: a sender is cloned, the pass runs on a
     * copy of the table (each visit sending on its own clone, dropped when
     * the visit ends), the copy is written back, the clone is dropped and
     * the queue drained. With the daemon's own sender still alive the
     * drain always ends on `Empty`.
     */
    method PollTick(order: seq<string>, w: World, db: Database, ch: Channel)
      returns (alerts: seq<Message>, received: seq<Message>, end: Received)
      requires ch.Valid() && ch.senders >= 1 && Enumerates(order, repos)
      modifies this, db, ch
      ensures forall k :: k in repos <==> k in old(repos)
      ensures forall k :: k in repos ==> repos[k] == Polled(old(repos)[k], w)
      ensures alerts == PassAlerts(InOrder(order, old(repos)), w)
      ensures db.rows == PassRows(old(db.rows), InOrder(order, old(repos)), w)
      ensures db.logs == old(db.logs) + PassLogs(InOrder(order, old(repos)), w)
      ensures received == Offer(old(ch.buffer), PassQueued(InOrder(order, old(repos)), w), ch.capacity)
      ensures ch.buffer == [] && end == Empty
      ensures db.nextId == old(db.nextId) && ch.Valid() && ch.senders == old(ch.senders)
      ensures scmInterval == old(scmInterval) && hasDbConn == old(hasDbConn)
    {
      ch.CloneSender();
      var snapshot := GetSerializedState();
      var polled;
      polled, alerts := PollPass(snapshot.repos, order, w, db, ch);
      SetDeserializeState(Snapshot(polled));
      ch.DropSender();
      received, end := Drain(ch);
    }
  }

  /**
   * `poll_repos`: the queue of 100 messages is opened, then one tick per
   * entry of `orders`, each visiting the table in the order given. Between
   * ticks the queue is empty and the tracked names never change; after a
   * tick no repository is left triggered.
   */
  method PollRepos(state: AppState, orders: seq<seq<string>>, w: World, db: Database)
    requires forall t :: 0 <= t < |orders| ==> Enumerates(orders[t], state.repos)
    modifies state, db
    ensures state.repos.Keys == old(state.repos.Keys)
    ensures |orders| > 0 ==> forall k :: k in state.repos ==> !state.repos[k].triggered
    ensures db.nextId == old(db.nextId)
    ensures state.scmInterval == old(state.scmInterval) && state.hasDbConn == old(state.hasDbConn)
  {
    var ch := new Channel(CHANNEL_CAPACITY);
    var t := 0;
    while t < |orders|
      invariant 0 <= t <= |orders|
      invariant state.repos.Keys == old(state.repos.Keys)
      invariant t > 0 ==> forall k :: k in state.repos ==> !state.repos[k].triggered
      invariant ch.Valid() && ch.senders == 1 && ch.buffer == []
      invariant db.nextId == old(db.nextId)
      invariant state.scmInterval == old(state.scmInterval) && state.hasDbConn == old(state.hasDbConn)
    {
      ghost var before := state.repos;
      assert Enumerates(orders[t], state.repos);
      var _, _, _ := state.PollTick(orders[t], w, db, ch);
      PassConsumesTriggers(before, state.repos, w);
      t := t + 1;
    }
  }
}
