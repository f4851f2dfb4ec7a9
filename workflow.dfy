/**
 * The workflow executor (`src/parser/mod.rs`): the steps of a workflow
 * file ordered by numeric key, run one after another until the first that
 * fails, with a log entry per step, a queue message per started step, a
 * webhook message per failure, and a final job status.
 */
module Workflow {
  import opened Wrappers
  import opened Text
  import opened Env
  import opened Messages
  import opened Jobs
  import opened Repository

  // ---------------------------------------------------------------------
  // Step ordering: a `BTreeMap<usize, WorkflowCommand>` as an ascending
  // sequence of (key, command) pairs.
  // ---------------------------------------------------------------------

  type Steps = seq<(nat, string)>

  /** `k.parse::<usize>()`. */
  function ParseUsize(k: string): (r: Option<nat>)
    ensures r.Some? ==> r.value <= USIZE_MAX
  {
    ParseUnsigned(k, USIZE_MAX)
  }

  /** Each key below the next, as a `BTreeMap` iterates them. */
  predicate Ascending(steps: Steps) {
    |steps| <= 1 || (steps[0].0 < steps[1].0 && Ascending(steps[1..]))
  }

  /** `BTreeMap::get`. */
  function Lookup(steps: Steps, k: nat): Option<string> {
    if steps == [] then None
    else if steps[0].0 == k then Some(steps[0].1)
    else Lookup(steps[1..], k)
  }

  /** `BTreeMap::insert`: the key gets the command, replacing an earlier one. */
  function InsertStep(steps: Steps, k: nat, v: string): (r: Steps)
    requires Ascending(steps)
    ensures Ascending(r)
    ensures r != [] && r[0].0 == if steps != [] && steps[0].0 < k then steps[0].0 else k
    ensures forall x :: Lookup(r, x) == if x == k then Some(v) else Lookup(steps, x)
  {
    if steps == [] then [(k, v)]
    else if k < steps[0].0 then
      AscendingLookup(steps, k);
      [(k, v)] + steps
    else if k == steps[0].0 then
      AscendingLookup(steps[1..], k);
      [(k, v)] + steps[1..]
    else
      var rest := InsertStep(steps[1..], k, v);
      var r := [steps[0]] + rest;
      assert r[1..] == rest;
      r
  }

  /** A key below the first is absent. */
  lemma {:induction false} AscendingLookup(steps: Steps, k: nat)
    requires Ascending(steps) && (steps == [] || k < steps[0].0)
    ensures Lookup(steps, k).None?
    decreases |steps|
  {
    if |steps| > 1 {
      AscendingLookup(steps[1..], k);
    }
  }

  /** Ascending neighbours make every earlier key smaller than every later one. */
  lemma {:induction false} AscendingSorted(steps: Steps, i: nat, j: nat)
    requires Ascending(steps) && i < j < |steps|
    ensures steps[i].0 < steps[j].0
    decreases j
  {
    if j > i + 1 {
      AscendingSorted(steps, i, j - 1);
      AscendingNeighbours(steps, j - 1);
    } else {
      AscendingNeighbours(steps, i);
    }
  }

  lemma {:induction false} AscendingNeighbours(steps: Steps, i: nat)
    requires Ascending(steps) && i + 1 < |steps|
    ensures steps[i].0 < steps[i + 1].0
    decreases i
  {
    if i > 0 {
      AscendingNeighbours(steps[1..], i - 1);
    }
  }

  /**
   * The map the filtering loop builds: each pair whose key parses is
   * inserted in iteration order; the others are skipped.
   */
  function Ordered(commands: seq<(string, string)>): (steps: Steps)
    ensures Ascending(steps)
  {
    if commands == [] then []
    else
      var before := Ordered(commands[..|commands| - 1]);
      var last := commands[|commands| - 1];
      match ParseUsize(last.0)
      case Some(i) => InsertStep(before, i, last.1)
      case None => before
  }

  /** The filtering loop of `parse_workflow`. */
  method OrderSteps(commands: seq<(string, string)>) returns (ordered: Steps)
    ensures ordered == Ordered(commands)
  {
    ordered := [];
    var n := 0;
    while n < |commands|
      invariant 0 <= n <= |commands|
      invariant ordered == Ordered(commands[..n])
    {
      var (k, v) := commands[n];
      assert commands[..n + 1][..n] == commands[..n];
      match ParseUsize(k) {
        case Some(i) => ordered := InsertStep(ordered, i, v);
        case None =>
      }
      n := n + 1;
    }
    assert commands[..n] == commands;
  }

  /** A key is a step exactly when some configured key parses to it. */
  lemma {:induction false} OrderedKeys(commands: seq<(string, string)>, x: nat)
    ensures Lookup(Ordered(commands), x).Some? <==> exists i :: 0 <= i < |commands| && ParseUsize(commands[i].0) == Some(x)
  {
    if commands != [] {
      var init := commands[..|commands| - 1];
      OrderedKeys(init, x);
      if Lookup(Ordered(commands), x).Some? && Lookup(Ordered(init), x).Some? {
        var i :| 0 <= i < |init| && ParseUsize(init[i].0) == Some(x);
        assert commands[i] == init[i];
      }
      if exists i :: 0 <= i < |commands| && ParseUsize(commands[i].0) == Some(x) {
        var i :| 0 <= i < |commands| && ParseUsize(commands[i].0) == Some(x);
        if i < |init| {
          assert init[i] == commands[i];
        }
      }
    }
  }

  /** The step for a key runs the command of the last pair whose key parses to it. */
  lemma {:induction false} OrderedLastWins(commands: seq<(string, string)>, i: nat, x: nat)
    requires i < |commands| && ParseUsize(commands[i].0) == Some(x)
    requires forall j :: i < j < |commands| ==> ParseUsize(commands[j].0) != Some(x)
    ensures Lookup(Ordered(commands), x) == Some(commands[i].1)
  {
    var init := commands[..|commands| - 1];
    if i < |commands| - 1 {
      assert forall j :: i < j < |init| ==> init[j] == commands[j];
      OrderedLastWins(init, i, x);
    }
  }

  /** Keys `"2"`, `"0"`, `"1"` run as steps 0, 1, 2. */
  lemma OrderedAscendingExample(a: string, b: string, c: string)
    ensures Ordered([("2", a), ("0", b), ("1", c)]) == [(0, b), (1, c), (2, a)]
  {
    assert ParseUsize("2") == Some(2) && ParseUsize("0") == Some(0) && ParseUsize("1") == Some(1);
    assert [("2", a), ("0", b), ("1", c)][..2] == [("2", a), ("0", b)];
    assert [("2", a), ("0", b)][..1] == [("2", a)];
    assert [("2", a)][..0] == [];
    assert Ordered([("2", a)]) == [(2, a)];
    assert Ordered([("2", a), ("0", b)]) == [(0, b), (2, a)];
    assert InsertStep([(2, a)], 1, c) == [(1, c), (2, a)];
    assert [(0, b), (2, a)][1..] == [(2, a)];
  }

  /** Keys `"1"` and `"01"` name the same step; the later pair wins. */
  lemma OrderedCollapseExample(a: string, b: string)
    ensures Ordered([("1", a), ("01", b)]) == [(1, b)]
  {
    assert ParseUsize("1") == Some(1);
    assert "01"[1..] == "1";
    assert DigitsValue("01") == DigitsValue("0") * 10 + 1;
    assert ParseUsize("01") == Some(1);
    assert [("1", a), ("01", b)][..1] == [("1", a)];
    assert [("1", a)][..0] == [];
    assert Ordered([("1", a)]) == [(1, a)];
  }

  // ---------------------------------------------------------------------
  // Output previews.
  // ---------------------------------------------------------------------

  /** `LIM`: the byte length above which output is cut. */
  const PREVIEW_LIMIT: nat := 4000
  const ELLIPSIS: char := '\U{2026}'

  /**
   * The `preview` closure as written: longer output is cut with
   * `&s[..LIM]`, a byte slice that panics (`None`) when byte 4000 falls
   * inside a character.
   */
  function PreviewAsWritten(s: string): (r: Option<string>)
    ensures ByteLen(s) <= PREVIEW_LIMIT ==> r == Some(s)
  {
    if ByteLen(s) <= PREVIEW_LIMIT then Some(s)
    else
      var k := CharsWithin(s, PREVIEW_LIMIT);
      if ByteLen(s[..k]) == PREVIEW_LIMIT then Some(s[..k] + [ELLIPSIS]) else None
  }

  /**
   * `preview` cutting at the last character boundary at or before byte
   * 4000: output of at most 4000 bytes is kept, longer output is cut and
   * marked with an ellipsis.
   */
  function Preview(s: string): (r: string)
    ensures ByteLen(s) <= PREVIEW_LIMIT ==> r == s
    ensures ByteLen(s) > PREVIEW_LIMIT ==> exists k :: (
      && 0 <= k < |s| && r == s[..k] + [ELLIPSIS]
      && ByteLen(s[..k]) <= PREVIEW_LIMIT < ByteLen(s[..k + 1]))
  {
    if ByteLen(s) <= PREVIEW_LIMIT then s
    else
      var k := CharsWithin(s, PREVIEW_LIMIT);
      CharsWithinBounds(s, PREVIEW_LIMIT);
      assert s[..|s|] == s;
      s[..k] + [ELLIPSIS]
  }

  /** A preview takes at most 4003 bytes and 4001 characters. */
  lemma PreviewBounded(s: string)
    ensures ByteLen(Preview(s)) <= PREVIEW_LIMIT + 3
    ensures |Preview(s)| <= PREVIEW_LIMIT + 1
  {
    if ByteLen(s) > PREVIEW_LIMIT {
      var k := CharsWithin(s, PREVIEW_LIMIT);
      CharsWithinBounds(s, PREVIEW_LIMIT);
      ByteLenAppend(s[..k], [ELLIPSIS]);
      assert ByteLen([ELLIPSIS]) == 3;
    }
  }

  /** Wherever the slice does not panic, the corrected preview agrees with it. */
  lemma PreviewAgrees(s: string)
    requires PreviewAsWritten(s).Some?
    ensures PreviewAsWritten(s).value == Preview(s)
  {
  }

  /** For ASCII output the preview is the first 4000 characters and an ellipsis. */
  lemma PreviewAscii(s: string)
    requires IsAscii(s)
    ensures Preview(s) == if |s| <= PREVIEW_LIMIT then s else s[..PREVIEW_LIMIT] + [ELLIPSIS]
    ensures PreviewAsWritten(s) == Some(Preview(s))
  {
    ByteLenAscii(s);
    if |s| > PREVIEW_LIMIT {
      assert s == s[..PREVIEW_LIMIT] + s[PREVIEW_LIMIT..];
      assert IsAscii(s[..PREVIEW_LIMIT]);
      CharsWithinAsciiPrefix(s[..PREVIEW_LIMIT], s[PREVIEW_LIMIT..], PREVIEW_LIMIT);
      assert CharsWithin(s[PREVIEW_LIMIT..], 0) == 0;
      ByteLenAscii(s[..PREVIEW_LIMIT]);
    }
  }

  /**
   * 3999 ASCII characters followed by a two-byte character (such as `é`)
   * make the slice panic.
   */
  lemma PreviewAsWrittenPanics(a: string, c: char)
    requires IsAscii(a) && |a| == PREVIEW_LIMIT - 1 && Utf8Width(c) == 2
    ensures PreviewAsWritten(a + [c]).None?
    ensures Preview(a + [c]) == a + [ELLIPSIS]
  {
    var s := a + [c];
    ByteLenAscii(a);
    ByteLenAppend(a, [c]);
    assert ByteLen([c]) == 2;
    CharsWithinAsciiPrefix(a, [c], PREVIEW_LIMIT);
    assert CharsWithin([c], 1) == 0;
    assert s[..|a|] == a;
  }

  // ---------------------------------------------------------------------
  // Running the steps.
  // ---------------------------------------------------------------------

  const SUCCESS := "success"
  const FAILED := "failed"

  /**
   * What one step produced: its message, the time its log entry carries,
   * whether the message went to the queue and to the webhook, and whether
   * the step succeeded.
   */
  datatype StepResult = StepResult(message: Message, loggedAt: string, queued: bool, alerted: bool, ok: bool)

  /** The step's program is its first token; the rest are its arguments. */
  function StepCommand(tokens: seq<string>, workDir: string): (c: Command)
    requires tokens != []
    ensures [c.program] + c.args == tokens && c.cwd == Some(workDir)
  {
    Command(tokens[0], tokens[1..], Some(workDir))
  }

  /** The command ran and exited successfully. */
  predicate Succeeded(o: Output) {
    o.Exited? && o.success
  }

  /**
   * One iteration of the step loop. A command with no token is logged
   * with `to_string()` time and goes nowhere else; a command that ran is
   * queued, and alerted only when it failed; one that could not be
   * started is queued and alerted. Output is cut with the corrected
   * `Preview`, so the mid-character panic of the byte slice is not taken.
   */
  function RunStep(idx: nat, run: string, workDir: string, w: World): (s: StepResult)
    ensures SplitWhitespace(run) == [] ==> s == StepResult(InvalidEmptyCommand(idx), w.nowPlain, false, false, false)
    ensures SplitWhitespace(run) != [] ==> s.queued && s.loggedAt == w.now && (s.alerted <==> !s.ok)
    ensures s.ok <==> SplitWhitespace(run) != [] && Succeeded(w.run(StepCommand(SplitWhitespace(run), workDir)))
    ensures s.ok ==> s.message.StepSucceeded? && s.message.step == idx
  {
    var tokens := SplitWhitespace(run);
    if tokens == [] then StepResult(InvalidEmptyCommand(idx), w.nowPlain, false, false, false)
    else
      match w.run(StepCommand(tokens, workDir))
      case SpawnError(e) => StepResult(StepFailedToStart(idx, run, e), w.now, true, true, false)
      case Exited(success, code, out, err) =>
        if success then StepResult(StepSucceeded(idx, run, code, Preview(out)), w.now, true, false, true)
        else StepResult(StepFailed(idx, run, code, Preview(out), Preview(err)), w.now, true, true, false)
  }

  /** Every step's result, had each one run. */
  function RunAll(steps: Steps, workDir: string, w: World): (rs: seq<StepResult>)
    ensures |rs| == |steps|
    ensures forall i :: 0 <= i < |steps| ==> rs[i] == RunStep(steps[i].0, steps[i].1, workDir, w)
  {
    seq(|steps|, i requires 0 <= i < |steps| => RunStep(steps[i].0, steps[i].1, workDir, w))
  }

  predicate AllOk(rs: seq<StepResult>) {
    forall i :: 0 <= i < |rs| ==> rs[i].ok
  }

  /** Fail-fast: the results up to and including the first failure. */
  function UntilFailure(rs: seq<StepResult>): (r: seq<StepResult>)
    ensures |r| <= |rs| && r == rs[..|r|]
    ensures forall i :: 0 <= i < |r| - 1 ==> r[i].ok
    ensures |r| < |rs| ==> r != [] && !r[|r| - 1].ok
    ensures AllOk(rs) ==> r == rs
  {
    if rs == [] then []
    else if !rs[0].ok then [rs[0]]
    else
      var rest := UntilFailure(rs[1..]);
      assert AllOk(rs) ==> AllOk(rs[1..]);
      [rs[0]] + rest
  }

  /** The first failure ends the run. */
  lemma {:induction false} UntilFailureAt(rs: seq<StepResult>, i: nat)
    requires i < |rs| && AllOk(rs[..i]) && !rs[i].ok
    ensures UntilFailure(rs) == rs[..i + 1]
  {
    if i > 0 {
      assert rs[0] == rs[..i][0];
      assert rs[1..][..i - 1] == rs[..i][1..];
      UntilFailureAt(rs[1..], i - 1);
      assert [rs[0]] + rs[1..][..i] == rs[..i + 1];
    }
  }

  /** The steps that run, in order. */
  function Executed(steps: Steps, workDir: string, w: World): seq<StepResult> {
    UntilFailure(RunAll(steps, workDir, w))
  }

  /** A failing step is the last one to run. */
  lemma ExecutedStopsAt(steps: Steps, workDir: string, w: World, i: nat)
    requires i < |steps|
    requires AllOk(RunAll(steps, workDir, w)[..i]) && !RunAll(steps, workDir, w)[i].ok
    ensures Executed(steps, workDir, w) == RunAll(steps, workDir, w)[..i + 1]
    ensures !AllOk(RunAll(steps, workDir, w))
  {
    UntilFailureAt(RunAll(steps, workDir, w), i);
  }

  /** Without a failure every step runs. */
  lemma ExecutedAll(steps: Steps, workDir: string, w: World)
    requires AllOk(RunAll(steps, workDir, w))
    ensures Executed(steps, workDir, w) == RunAll(steps, workDir, w)
  {
  }

  /** The log entries of the executed steps. */
  function LogsOf(path: string, rs: seq<StepResult>): (logs: seq<JobLog>)
    ensures |logs| == |rs|
    ensures forall i :: 0 <= i < |rs| ==> logs[i] == JobLog(path, rs[i].message, rs[i].loggedAt)
  {
    seq(|rs|, i requires 0 <= i < |rs| => JobLog(path, rs[i].message, rs[i].loggedAt))
  }

  /** The messages put on the queue, in order. */
  function QueuedOf(rs: seq<StepResult>): seq<Message> {
    if rs == [] then []
    else QueuedOf(rs[..|rs| - 1]) + (if rs[|rs| - 1].queued then [rs[|rs| - 1].message] else [])
  }

  /** The messages sent to the webhook, in order. */
  function AlertsOf(rs: seq<StepResult>): seq<Message> {
    if rs == [] then []
    else AlertsOf(rs[..|rs| - 1]) + (if rs[|rs| - 1].alerted then [rs[|rs| - 1].message] else [])
  }

  /** The steps of the workflow file, ordered. */
  function StepsOf(file: string, w: World): Steps {
    Ordered(w.workflow(file))
  }

  /** The results of the steps that run. */
  function ResultsOf(file: string, r: Repo, w: World): seq<StepResult> {
    Executed(StepsOf(file, w), r.workDir, w)
  }

  /** The job succeeds when there is at least one step and every step succeeds. */
  predicate WorkflowSucceeds(file: string, r: Repo, w: World) {
    var steps := StepsOf(file, w);
    steps != [] && forall i :: 0 <= i < |steps| ==> RunStep(steps[i].0, steps[i].1, r.workDir, w).ok
  }

  function FinalStatus(file: string, r: Repo, w: World): string {
    if WorkflowSucceeds(file, r, w) then SUCCESS else FAILED
  }

  /** The closing message: no steps, success or failure. */
  function FinalMessage(file: string, r: Repo, w: World): Message {
    if StepsOf(file, w) == [] then NoWorkflowSteps(file, r.path, r.targetBranch)
    else if WorkflowSucceeds(file, r, w) then WorkflowSucceeded(r.path, r.targetBranch)
    else WorkflowFailed(r.path, r.targetBranch)
  }

  /** The job log entries, in order: one per executed step, then the closing one. */
  function WorkflowLogs(file: string, r: Repo, w: World): seq<JobLog> {
    LogsOf(r.path, ResultsOf(file, r, w)) + [JobLog(r.path, FinalMessage(file, r, w), w.now)]
  }

  /** The webhook messages, in order: the start, each failure, the close. */
  function WorkflowAlerts(file: string, r: Repo, w: World): seq<Message> {
    [WorkflowStarting(r.path, r.targetBranch, w.host)] + AlertsOf(ResultsOf(file, r, w)) + [FinalMessage(file, r, w)]
  }

  /** The jobs table after the final status and finish time are written. */
  function WorkflowRows(rows: seq<Row>, file: string, r: Repo, w: World): seq<Row> {
    UpdateWhere(AfterUpdate(rows, Status, FinalStatus(file, r, w), r.path, r.targetBranch, w.now),
                FinishTime, w.now, r.path, r.targetBranch)
  }

  /** One more executed step adds its log entry, and its messages where they go. */
  lemma ResultsSnoc(path: string, rs: seq<StepResult>, s: StepResult)
    ensures LogsOf(path, rs + [s]) == LogsOf(path, rs) + [JobLog(path, s.message, s.loggedAt)]
    ensures QueuedOf(rs + [s]) == QueuedOf(rs) + (if s.queued then [s.message] else [])
    ensures AlertsOf(rs + [s]) == AlertsOf(rs) + (if s.alerted then [s.message] else [])
  {
    assert (rs + [s])[..|rs|] == rs;
  }

  /** The facts the step loop needs to take one more step. */
  lemma Advance(path: string, all: seq<StepResult>, i: nat)
    requires i < |all|
    ensures all[..i + 1] == all[..i] + [all[i]]
    ensures LogsOf(path, all[..i + 1]) == LogsOf(path, all[..i]) + [JobLog(path, all[i].message, all[i].loggedAt)]
    ensures QueuedOf(all[..i + 1]) == QueuedOf(all[..i]) + (if all[i].queued then [all[i].message] else [])
    ensures AlertsOf(all[..i + 1]) == AlertsOf(all[..i]) + (if all[i].alerted then [all[i].message] else [])
  {
    assert all[..i + 1] == all[..i] + [all[i]];
    ResultsSnoc(path, all[..i], all[i]);
  }

  /** What the queue holds after one `try_send`. */
  lemma OfferOne(buffer: seq<Message>, msgs: seq<Message>, m: Message, capacity: nat)
    requires |buffer| <= capacity
    ensures Offer(Offer(buffer, msgs, capacity), [m], capacity) == Offer(buffer, msgs + [m], capacity)
  {
    OfferAppend(buffer, msgs, m, capacity);
    var b := Offer(buffer, msgs, capacity);
    if |b| < capacity {
      assert [m][..1] == [m];
    }
  }

  /**
   * The body of the step loop for one step: its log entry, its queue
   * message and its webhook message (returned), as `RunStep` describes them.
   * The message is queued with `try_send` in place of the awaited `send`,
   * which blocks once the queue is full and no receiver runs.
   */
  method Step(idx: nat, run: string, r: Repo, w: World, db: Database, ch: Channel,
               ghost base: seq<Message>, ghost sent: seq<Message>)
    returns (ok: bool, alert: seq<Message>)
    requires |base| <= ch.capacity && ch.buffer == Offer(base, sent, ch.capacity)
    modifies db, ch
    ensures var s := RunStep(idx, run, r.workDir, w);
      && ok == s.ok
      && alert == (if s.alerted then [s.message] else [])
      && db.logs == old(db.logs) + [JobLog(r.path, s.message, s.loggedAt)]
      && ch.buffer == Offer(base, sent + (if s.queued then [s.message] else []), ch.capacity)
    ensures db.rows == old(db.rows) && db.nextId == old(db.nextId)
    ensures ch.Valid() && ch.senders == old(ch.senders)
  {
    var tokens := SplitWhitespace(run);
    if tokens == [] {
      db.AddJobLog(JobLog(r.path, InvalidEmptyCommand(idx), w.nowPlain));
      assert sent + [] == sent;
      return false, [];
    }
    var output := w.run(StepCommand(tokens, r.workDir));
    var msg;
    match output {
      case Exited(success, code, out, err) =>
        msg := if success then StepSucceeded(idx, run, code, Preview(out))
               else StepFailed(idx, run, code, Preview(out), Preview(err));
        alert := if success then [] else [msg];
        ok := success;
      case SpawnError(e) =>
        msg := StepFailedToStart(idx, run, e);
        alert := [msg];
        ok := false;
    }
    db.AddJobLog(JobLog(r.path, msg, w.now));
    OfferOne(base, sent, msg, ch.capacity);
    var _ := ch.TrySend(msg);
  }

  /**
   * The step loop: each step in order until one fails. Returns `all_ok`
   * and the webhook messages of the steps.
   */
  method RunSteps(steps: Steps, r: Repo, w: World, db: Database, ch: Channel)
    returns (allOk: bool, alerts: seq<Message>, ghost results: seq<StepResult>)
    requires ch.Valid()
    modifies db, ch
    ensures results == Executed(steps, r.workDir, w)
    ensures allOk <==> AllOk(RunAll(steps, r.workDir, w))
    ensures alerts == AlertsOf(results)
    ensures db.logs == old(db.logs) + LogsOf(r.path, results)
    ensures ch.buffer == Offer(old(ch.buffer), QueuedOf(results), ch.capacity)
    ensures db.rows == old(db.rows) && db.nextId == old(db.nextId)
    ensures ch.Valid() && ch.senders == old(ch.senders)
  {
    ghost var all := RunAll(steps, r.workDir, w);
    ghost var base := ch.buffer;
    assert ch.buffer == Offer(base, [], ch.capacity);
    results := [];
    allOk := true;
    alerts := [];
    var i := 0;
    while i < |steps| && allOk
      invariant 0 <= i <= |steps| && results == all[..i]
      invariant allOk ==> AllOk(results)
      invariant !allOk ==> 0 < i && AllOk(all[..i - 1]) && !all[i - 1].ok
      invariant db.rows == old(db.rows) && db.nextId == old(db.nextId)
      invariant db.logs == old(db.logs) + LogsOf(r.path, results)
      invariant ch.Valid() && ch.senders == old(ch.senders)
      invariant ch.buffer == Offer(base, QueuedOf(results), ch.capacity)
      invariant alerts == AlertsOf(results)
    {
      Advance(r.path, all, i);
      var (idx, run) := steps[i];
      var ok, alert := Step(idx, run, r, w, db, ch, base, QueuedOf(results));
      alerts := alerts + alert;
      results := all[..i + 1];
      allOk := ok;
      i := i + 1;
    }
    if allOk {
      assert results == all;
      ExecutedAll(steps, r.workDir, w);
    } else {
      ExecutedStopsAt(steps, r.workDir, w, i - 1);
    }
  }

  /** A non-empty workflow succeeds exactly when every step, had it run, succeeds. */
  lemma SucceedsWhenAllOk(file: string, r: Repo, w: World)
    requires StepsOf(file, w) != []
    ensures WorkflowSucceeds(file, r, w) <==> AllOk(RunAll(StepsOf(file, w), r.workDir, w))
  {
  }

  /** A workflow succeeds exactly when it has steps and every step that ran succeeded. */
  lemma SucceedsIffExecutedOk(file: string, r: Repo, w: World)
    ensures WorkflowSucceeds(file, r, w) <==> StepsOf(file, w) != [] && AllOk(ResultsOf(file, r, w))
    ensures StepsOf(file, w) == [] ==> ResultsOf(file, r, w) == []
  {
    var all := RunAll(StepsOf(file, w), r.workDir, w);
    var ex := ResultsOf(file, r, w);
    if StepsOf(file, w) != [] {
      SucceedsWhenAllOk(file, r, w);
      if !AllOk(all) {
        if |ex| == |all| {
          assert ex == all;
        } else {
          assert !ex[|ex| - 1].ok;
        }
      }
    }
  }

  /** Results none of which went to the webhook send nothing. */
  lemma {:induction false} AlertsNone(rs: seq<StepResult>)
    requires forall i :: 0 <= i < |rs| ==> !rs[i].alerted
    ensures AlertsOf(rs) == []
  {
    if rs != [] {
      var init := rs[..|rs| - 1];
      assert forall i :: 0 <= i < |init| ==> init[i] == rs[i];
      AlertsNone(init);
    }
  }

  /**
   * Only the step that ends the run can notify the webhook: the executed
   * steps send at most one step message, the last one's, and none when
   * every step succeeds.
   */
  lemma StepAlerts(steps: Steps, workDir: string, w: World)
    ensures var ex := Executed(steps, workDir, w);
      AlertsOf(ex) == if ex != [] && ex[|ex| - 1].alerted then [ex[|ex| - 1].message] else []
    ensures AllOk(RunAll(steps, workDir, w)) ==> AlertsOf(Executed(steps, workDir, w)) == []
  {
    var all := RunAll(steps, workDir, w);
    var ex := Executed(steps, workDir, w);
    if ex != [] {
      var init := ex[..|ex| - 1];
      forall i | 0 <= i < |init|
        ensures !init[i].alerted
      {
        assert init[i] == all[i] == RunStep(steps[i].0, steps[i].1, workDir, w);
        assert all[i].ok;
      }
      AlertsNone(init);
    }
  }

  /** The closing writes of `parse_workflow`: final status, finish time and the closing log entry. */
  method CloseJob(r: Repo, w: World, db: Database, status: string, msg: Message)
    modifies db
    ensures db.rows == UpdateWhere(AfterUpdate(old(db.rows), Status, status, r.path, r.targetBranch, w.now),
                                   FinishTime, w.now, r.path, r.targetBranch)
    ensures db.logs == old(db.logs) + [JobLog(r.path, msg, w.now)]
    ensures db.nextId == old(db.nextId)
  {
    db.UpdateStatus(r.path, r.targetBranch, status, w.now);
    db.UpdateFinishedTime(r.path, r.targetBranch, w.now);
    db.AddJobLog(JobLog(r.path, msg, w.now));
  }

  /**
   * `parse_workflow` on the steps read from `file`: the webhook messages it
   * sends are returned; the job row, the job log and the queue are updated
   * in place. A queue message is offered with `try_send` in place of the
   * awaited `send`, and output is cut with the corrected `Preview`.
   */
  method ParseWorkflow(file: string, r: Repo, w: World, db: Database, ch: Channel) returns (alerts: seq<Message>)
    requires ch.Valid()
    modifies db, ch
    ensures ch.Valid() && ch.senders == old(ch.senders)
    ensures db.rows == WorkflowRows(old(db.rows), file, r, w)
    ensures db.logs == old(db.logs) + WorkflowLogs(file, r, w)
    ensures db.nextId == old(db.nextId)
    ensures ch.buffer == Offer(old(ch.buffer), QueuedOf(ResultsOf(file, r, w)), ch.capacity)
    ensures alerts == WorkflowAlerts(file, r, w)
  {
    alerts := [WorkflowStarting(r.path, r.targetBranch, w.host)];
    var ordered := OrderSteps(w.workflow(file));
    if ordered == [] {
      var msg := NoWorkflowSteps(file, r.path, r.targetBranch);
      CloseJob(r, w, db, FAILED, msg);
      alerts := alerts + [msg];
      assert ResultsOf(file, r, w) == [];
      assert old(ch.buffer) == Offer(old(ch.buffer), [], ch.capacity);
      return;
    }
    ghost var logs0 := db.logs;
    var allOk, stepAlerts, _ := RunSteps(ordered, r, w, db, ch);
    alerts := alerts + stepAlerts;
    SucceedsWhenAllOk(file, r, w);
    var msg := if allOk then WorkflowSucceeded(r.path, r.targetBranch) else WorkflowFailed(r.path, r.targetBranch);
    CloseJob(r, w, db, if allOk then SUCCESS else FAILED, msg);
    LogsAssoc(logs0, LogsOf(r.path, ResultsOf(file, r, w)), [JobLog(r.path, msg, w.now)]);
    alerts := alerts + [msg];
  }
}
