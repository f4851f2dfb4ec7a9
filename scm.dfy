/**
 * Change detection and trigger consumption (`src/scm/mod.rs`): each poll
 * records the commit a repository's branch now points at, marks the
 * repository triggered when it moved, and runs the workflow of a triggered
 * repository once, clearing the trigger.
 */
module Scm {
  import opened Wrappers
  import opened Text
  import opened Env
  import opened Util
  import opened Messages
  import opened Jobs
  import opened Repository
  import opened Git
  import opened Workflow
  import opened App

  /** The repository after `check_repo_changes` read `fetched` from `fetch_latest_sha`. */
  function ChangeChecked(r: Repo, fetched: Option<string>): (c: Repo)
    ensures c.lastSha == (if fetched.Some? then fetched else r.lastSha)
    ensures c.triggered <==> r.triggered || (fetched.Some? && fetched != r.lastSha)
    ensures c.name == r.name && c.path == r.path && c.workDir == r.workDir
    ensures c.workflowFile == r.workflowFile && c.targetBranch == r.targetBranch
  {
    if fetched.Some? && r.lastSha != fetched then r.(lastSha := fetched, triggered := true) else r
  }

  /** A repository never fetched before is triggered by its first successful fetch. */
  lemma FirstFetchTriggers(r: Repo, sha: string)
    requires r.lastSha.None?
    ensures ChangeChecked(r, Some(sha)) == r.(lastSha := Some(sha), triggered := true)
  {
  }

  /** A failed fetch, or the commit already recorded, changes nothing. */
  lemma UnchangedWithoutNews(r: Repo)
    ensures ChangeChecked(r, None) == r
    ensures ChangeChecked(r, r.lastSha) == r
  {
  }

  /** Checking twice against the same fetch result changes nothing more. */
  lemma ChangeCheckedIdempotent(r: Repo, fetched: Option<string>)
    ensures ChangeChecked(ChangeChecked(r, fetched), fetched) == ChangeChecked(r, fetched)
  {
  }

  /** `check_repo_changes`: fetch, then record a new commit and set the trigger. */
  method CheckRepoChanges(r: Repo, run: Command -> Output) returns (c: Repo, issued: seq<Command>)
    ensures c == ChangeChecked(r, LatestSha(run(RevParse(r))))
    ensures issued == UntilSpawnError(FetchPullCommands(r), run) + [RevParse(r)]
  {
    var latest;
    latest, issued := FetchLatestSha(r, run);
    c := r;
    if latest.Some? {
      if r.lastSha != latest {
        c := c.(lastSha := latest);
        c := c.(triggered := true);
      }
    }
  }

  /** `<work path of the last path segment>workflow/<branch>.toml`. */
  function WorkflowPath(user: Option<string>, r: Repo): (p: string)
    ensures EndsWith(p, ".toml")
    ensures user.Some? ==> StartsWith(p, DefaultRepoWorkPath(user, LastSegment(r.path)))
  {
    var base := DefaultRepoWorkPath(user, LastSegment(r.path));
    var p := base + "workflow/" + r.targetBranch + ".toml";
    assert p[..|base|] == base;
    assert p[|p| - 5..] == ".toml";
    p
  }

  /** Whether `check_repo_triggered` runs the workflow: triggered, with the file present. */
  predicate RunsWorkflow(r: Repo, w: World) {
    r.triggered && w.pathExists(WorkflowPath(w.user, r))
  }

  /**
   * `check_repo_triggered`: a triggered repository has its trigger cleared
   * and, when its workflow file exists, the workflow run on the cleared
   * repository; an untriggered repository is left alone.
   */
  method CheckRepoTriggered(r: Repo, w: World, db: Database, ch: Channel) returns (c: Repo, alerts: seq<Message>)
    requires ch.Valid()
    modifies db, ch
    ensures c == r.(triggered := false)
    ensures ch.Valid() && ch.senders == old(ch.senders) && db.nextId == old(db.nextId)
    ensures RunsWorkflow(r, w) ==>
      && db.rows == WorkflowRows(old(db.rows), WorkflowPath(w.user, r), c, w)
      && db.logs == old(db.logs) + WorkflowLogs(WorkflowPath(w.user, r), c, w)
      && ch.buffer == Offer(old(ch.buffer), QueuedOf(ResultsOf(WorkflowPath(w.user, r), c, w)), ch.capacity)
      && alerts == WorkflowAlerts(WorkflowPath(w.user, r), c, w)
    ensures !RunsWorkflow(r, w) ==>
      db.rows == old(db.rows) && db.logs == old(db.logs) && ch.buffer == old(ch.buffer) && alerts == []
  {
    c := r;
    alerts := [];
    if c.triggered {
      c := c.(triggered := false);
      var wp := WorkflowPath(w.user, c);
      assert wp == WorkflowPath(w.user, r);
      if w.pathExists(wp) {
        alerts := ParseWorkflow(wp, c, w, db, ch);
      }
    }
  }

  /** The repository after one visit of the polling pass. */
  function Checked(r: Repo, w: World): Repo {
    ChangeChecked(r, LatestSha(w.run(RevParse(r))))
  }

  /** Whether one visit of the polling pass runs the repository's workflow. */
  predicate Runs(r: Repo, w: World) {
    RunsWorkflow(Checked(r, w), w)
  }

  /**
   * The repository after one visit: the fetched commit recorded, and the
   * trigger consumed whether or not it was set.
   */
  function Polled(r: Repo, w: World): (p: Repo)
    ensures !p.triggered
    ensures p.lastSha == (var f := LatestSha(w.run(RevParse(r))); if f.Some? then f else r.lastSha)
    ensures p.name == r.name && p.path == r.path && p.workDir == r.workDir
    ensures p.workflowFile == r.workflowFile && p.targetBranch == r.targetBranch
  {
    Checked(r, w).(triggered := false)
  }

  /** What one visit sends to the webhook. */
  function VisitAlerts(r: Repo, w: World): seq<Message> {
    if Runs(r, w) then WorkflowAlerts(WorkflowPath(w.user, r), Polled(r, w), w) else []
  }

  /** What one visit writes to the job log. */
  function VisitLogs(r: Repo, w: World): seq<JobLog> {
    if Runs(r, w) then WorkflowLogs(WorkflowPath(w.user, r), Polled(r, w), w) else []
  }

  /** What one visit offers to the queue. */
  function VisitQueued(r: Repo, w: World): seq<Message> {
    if Runs(r, w) then QueuedOf(ResultsOf(WorkflowPath(w.user, r), Polled(r, w), w)) else []
  }

  /** The jobs table after one visit. */
  function VisitRows(rows: seq<Row>, r: Repo, w: World): seq<Row> {
    if Runs(r, w) then WorkflowRows(rows, WorkflowPath(w.user, r), Polled(r, w), w) else rows
  }

  /**
   * One iteration of the polling loop body: `check_repo_changes` then
   * `check_repo_triggered`. `base` and `sent` describe the queue so far.
   */
  method Visit(r: Repo, w: World, db: Database, ch: Channel, ghost base: seq<Message>, ghost sent: seq<Message>)
    returns (p: Repo, alerts: seq<Message>)
    requires |base| <= ch.capacity && ch.buffer == Offer(base, sent, ch.capacity)
    modifies db, ch
    ensures p == Polled(r, w) && alerts == VisitAlerts(r, w)
    ensures db.rows == VisitRows(old(db.rows), r, w) && db.logs == old(db.logs) + VisitLogs(r, w)
    ensures ch.buffer == Offer(base, sent + VisitQueued(r, w), ch.capacity)
    ensures db.nextId == old(db.nextId) && ch.Valid() && ch.senders == old(ch.senders)
  {
    var c, _ := CheckRepoChanges(r, w.run);
    assert c == Checked(r, w);
    assert WorkflowPath(w.user, c) == WorkflowPath(w.user, r);
    OfferConcat(base, sent, VisitQueued(r, w), ch.capacity);
    p, alerts := CheckRepoTriggered(c, w, db, ch);
    if !Runs(r, w) {
      assert sent + [] == sent;
    }
  }

  /** `order` lists every key of the table exactly once: the `HashMap`'s iteration order. */
  predicate Enumerates(order: seq<string>, repos: map<string, Repo>) {
    && (forall k :: k in repos ==> k in order)
    && (forall i :: 0 <= i < |order| ==> order[i] in repos)
    && (forall i, j :: 0 <= i < j < |order| ==> order[i] != order[j])
  }

  /** The repositories of the table in visiting order. */
  function InOrder(order: seq<string>, repos: map<string, Repo>): (rs: seq<Repo>)
    requires forall i :: 0 <= i < |order| ==> order[i] in repos
    ensures |rs| == |order| && forall i :: 0 <= i < |order| ==> rs[i] == repos[order[i]]
  {
    seq(|order|, i requires 0 <= i < |order| => repos[order[i]])
  }

  /** The webhook messages of a pass, visit by visit. */
  function PassAlerts(rs: seq<Repo>, w: World): seq<Message> {
    if rs == [] then [] else PassAlerts(rs[..|rs| - 1], w) + VisitAlerts(rs[|rs| - 1], w)
  }

  /** The job log entries of a pass, visit by visit. */
  function PassLogs(rs: seq<Repo>, w: World): seq<JobLog> {
    if rs == [] then [] else PassLogs(rs[..|rs| - 1], w) + VisitLogs(rs[|rs| - 1], w)
  }

  /** The queue messages of a pass, visit by visit. */
  function PassQueued(rs: seq<Repo>, w: World): seq<Message> {
    if rs == [] then [] else PassQueued(rs[..|rs| - 1], w) + VisitQueued(rs[|rs| - 1], w)
  }

  /** The jobs table after a pass, visit by visit. */
  function PassRows(rows: seq<Row>, rs: seq<Repo>, w: World): seq<Row> {
    if rs == [] then rows else VisitRows(PassRows(rows, rs[..|rs| - 1], w), rs[|rs| - 1], w)
  }

  /** The facts the polling loop needs to take one more visit. */
  lemma PassSnoc(rows: seq<Row>, rs: seq<Repo>, i: nat, w: World)
    requires i < |rs|
    ensures PassAlerts(rs[..i + 1], w) == PassAlerts(rs[..i], w) + VisitAlerts(rs[i], w)
    ensures PassLogs(rs[..i + 1], w) == PassLogs(rs[..i], w) + VisitLogs(rs[i], w)
    ensures PassQueued(rs[..i + 1], w) == PassQueued(rs[..i], w) + VisitQueued(rs[i], w)
    ensures PassRows(rows, rs[..i + 1], w) == VisitRows(PassRows(rows, rs[..i], w), rs[i], w)
  {
    assert rs[..i + 1][..i] == rs[..i];
  }

  /**
   * The body of `poll_repos`' loop over a copy of the table: every
   * repository visited in `order`. The copy, changed, is returned; the
   * job table, the job log and the queue change as each visit says.
   */
  method PollPass(repos: map<string, Repo>, order: seq<string>, w: World, db: Database, ch: Channel)
    returns (polled: map<string, Repo>, alerts: seq<Message>)
    requires ch.Valid() && Enumerates(order, repos)
    modifies db, ch
    ensures forall k :: k in polled <==> k in repos
    ensures forall k :: k in polled ==> polled[k] == Polled(repos[k], w)
    ensures alerts == PassAlerts(InOrder(order, repos), w)
    ensures db.rows == PassRows(old(db.rows), InOrder(order, repos), w)
    ensures db.logs == old(db.logs) + PassLogs(InOrder(order, repos), w)
    ensures ch.buffer == Offer(old(ch.buffer), PassQueued(InOrder(order, repos), w), ch.capacity)
    ensures db.nextId == old(db.nextId) && ch.Valid() && ch.senders == old(ch.senders)
  {
    var rs := InOrder(order, repos);
    ghost var base := ch.buffer;
    assert ch.buffer == Offer(base, [], ch.capacity);
    polled := repos;
    alerts := [];
    var i := 0;
    while i < |order|
      invariant 0 <= i <= |order|
      invariant forall k :: k in polled <==> k in repos
      invariant forall j :: 0 <= j < i ==> polled[order[j]] == Polled(repos[order[j]], w)
      invariant forall j :: i <= j < |order| ==> polled[order[j]] == repos[order[j]]
      invariant alerts == PassAlerts(rs[..i], w)
      invariant db.rows == PassRows(old(db.rows), rs[..i], w)
      invariant db.logs == old(db.logs) + PassLogs(rs[..i], w)
      invariant ch.buffer == Offer(base, PassQueued(rs[..i], w), ch.capacity)
      invariant db.nextId == old(db.nextId) && ch.Valid() && ch.senders == old(ch.senders)
    {
      var k := order[i];
      var p, a := PassStep(rs, i, w, db, ch, old(db.rows), old(db.logs), base);
      VisitedOne(repos, order, w, i, polled, p);
      polled := polled[k := p];
      alerts := alerts + a;
      i := i + 1;
    }
    assert rs[..i] == rs;
    VisitedAll(repos, order, w, polled);
  }

  /** The `i`th visit of a pass over `rs`, with the pass's record so far. */
  method PassStep(rs: seq<Repo>, i: nat, w: World, db: Database, ch: Channel,
                  ghost rows0: seq<Row>, ghost logs0: seq<JobLog>, ghost base: seq<Message>)
    returns (p: Repo, a: seq<Message>)
    requires i < |rs|
    requires db.rows == PassRows(rows0, rs[..i], w)
    requires db.logs == logs0 + PassLogs(rs[..i], w)
    requires |base| <= ch.capacity && ch.buffer == Offer(base, PassQueued(rs[..i], w), ch.capacity)
    modifies db, ch
    ensures p == Polled(rs[i], w)
    ensures PassAlerts(rs[..i + 1], w) == PassAlerts(rs[..i], w) + a
    ensures db.rows == PassRows(rows0, rs[..i + 1], w)
    ensures db.logs == logs0 + PassLogs(rs[..i + 1], w)
    ensures ch.buffer == Offer(base, PassQueued(rs[..i + 1], w), ch.capacity)
    ensures db.nextId == old(db.nextId) && ch.Valid() && ch.senders == old(ch.senders)
  {
    PassSnoc(rows0, rs, i, w);
    p, a := Visit(rs[i], w, db, ch, base, PassQueued(rs[..i], w));
    LogsAssoc(logs0, PassLogs(rs[..i], w), VisitLogs(rs[i], w));
  }

  /** Writing one visited repository back into the copy. */
  lemma VisitedOne(repos: map<string, Repo>, order: seq<string>, w: World, i: nat, polled: map<string, Repo>, p: Repo)
    requires Enumerates(order, repos) && i < |order|
    requires forall k :: k in polled <==> k in repos
    requires forall j :: 0 <= j < i ==> polled[order[j]] == Polled(repos[order[j]], w)
    requires forall j :: i <= j < |order| ==> polled[order[j]] == repos[order[j]]
    requires p == Polled(repos[order[i]], w)
    ensures forall k :: k in polled[order[i] := p] <==> k in repos
    ensures forall j :: 0 <= j < i + 1 ==> polled[order[i] := p][order[j]] == Polled(repos[order[j]], w)
    ensures forall j :: i + 1 <= j < |order| ==> polled[order[i] := p][order[j]] == repos[order[j]]
  {
  }

  /** Once every key has been visited, every entry of the copy is polled. */
  lemma VisitedAll(repos: map<string, Repo>, order: seq<string>, w: World, polled: map<string, Repo>)
    requires Enumerates(order, repos)
    requires forall k :: k in polled <==> k in repos
    requires forall j :: 0 <= j < |order| ==> polled[order[j]] == Polled(repos[order[j]], w)
    ensures forall k :: k in polled ==> polled[k] == Polled(repos[k], w)
  {
    forall k | k in polled
      ensures polled[k] == Polled(repos[k], w)
    {
      var j :| 0 <= j < |order| && order[j] == k;
    }
  }

  /**
   * One tick of `poll_repos`: copy the table, run the pass on the copy,
   * and write the copy back over the table.
   */
  method PollRepos(state: AppState, order: seq<string>, w: World, db: Database, ch: Channel)
    returns (alerts: seq<Message>)
    requires ch.Valid() && Enumerates(order, state.repos)
    modifies state, db, ch
    ensures forall k :: k in state.repos <==> k in old(state.repos)
    ensures forall k :: k in state.repos ==> state.repos[k] == Polled(old(state.repos)[k], w)
    ensures alerts == PassAlerts(InOrder(order, old(state.repos)), w)
    ensures db.rows == PassRows(old(db.rows), InOrder(order, old(state.repos)), w)
    ensures db.logs == old(db.logs) + PassLogs(InOrder(order, old(state.repos)), w)
    ensures ch.buffer == Offer(old(ch.buffer), PassQueued(InOrder(order, old(state.repos)), w), ch.capacity)
    ensures db.nextId == old(db.nextId) && ch.Valid() && ch.senders == old(ch.senders)
    ensures state.scmInterval == old(state.scmInterval) && state.hasDbConn == old(state.hasDbConn)
  {
    var snapshot := state.GetSerializable();
    var polled;
    polled, alerts := PollPass(snapshot.repos, order, w, db, ch);
    state.DeserializeRestore(Snapshot(polled));
  }

  /** After a pass no repository is left triggered, and no key is added or lost. */
  lemma PassConsumesTriggers(repos: map<string, Repo>, polled: map<string, Repo>, w: World)
    requires forall k :: k in polled <==> k in repos
    requires forall k :: k in polled ==> polled[k] == Polled(repos[k], w)
    ensures polled.Keys == repos.Keys
    ensures forall k :: k in polled ==> !polled[k].triggered
  {
  }
}
