/**
 * Repositories (`src/repo/mod.rs`): the `Repo` record, the default-branch
 * parser, the mapping from `Repo.toml` tables, the work directory, the
 * configuration entry text and the clone target directory.
 */
module Repository {
  import opened Wrappers
  import opened Text
  import opened Env

  /**
   * A watched repository. `name` is the key it is tracked under (the
   * `Repo.toml` table name or the last `/`-segment of the path).
   */
  datatype Repo = Repo(
    name: string,
    path: string,
    workDir: string,
    workflowFile: string,
    lastSha: Option<string>,
    targetBranch: string,
    triggered: bool)

  const DEFAULT_BRANCH := "master"
  const WORKFLOW_FILE := "workflow.toml"
  const HEAD_MARKER := "HEAD branch:"
  const CONFIG_NOT_FOUND := "Config not found !!"
  /**
   * The panic of `whoami::username().unwrap()`: the message prefix of
   * `Result::unwrap`; the error's own description after it is not modelled.
   */
  const USERNAME_UNWRAP := "called `Result::unwrap()` on an `Err` value"

  /** `Repo::default`: nothing configured, on branch `master`. */
  function Default(): (r: Repo)
    ensures r.path == [] && r.workDir == [] && r.workflowFile == []
    ensures r.lastSha.None? && r.targetBranch == DEFAULT_BRANCH && !r.triggered
  {
    Repo([], [], [], [], None, DEFAULT_BRANCH, false)
  }

  /** `Repo::new`, with the workflow file name every caller uses. */
  function New(name: string, path: string, workDir: string, lastSha: Option<string>, targetBranch: string, triggered: bool): (r: Repo)
    ensures r.name == name && r.path == path && r.workDir == workDir && r.workflowFile == WORKFLOW_FILE
    ensures r.lastSha == lastSha && r.targetBranch == targetBranch && r.triggered == triggered
  {
    Repo(name, path, workDir, WORKFLOW_FILE, lastSha, targetBranch, triggered)
  }

  /** The first line mentioning `HEAD branch:`, with every occurrence of it removed. */
  function FindHeadBranch(lines: seq<string>): (r: Option<string>)
    ensures r.None? <==> forall i :: 0 <= i < |lines| ==> !Contains(lines[i], HEAD_MARKER)
    ensures r.Some? ==> exists i :: (
      && 0 <= i < |lines| && Contains(lines[i], HEAD_MARKER)
      && (forall k :: 0 <= k < i ==> !Contains(lines[k], HEAD_MARKER))
      && r.value == RemoveAll(lines[i], HEAD_MARKER))
  {
    if lines == [] then None
    else if Contains(lines[0], HEAD_MARKER) then Some(RemoveAll(lines[0], HEAD_MARKER))
    else
      var r := FindHeadBranch(lines[1..]);
      assert forall i :: 1 <= i < |lines| ==> lines[i] == lines[1..][i - 1];
      r
  }

  /** The default branch read from `git remote show` output lines; `master` when none is named. */
  function HeadBranchOf(lines: seq<string>): string {
    match FindHeadBranch(lines)
    case Some(l) => Trim(l)
    case None => DEFAULT_BRANCH
  }

  function HeadBranch(stdout: string): string {
    HeadBranchOf(Lines(stdout))
  }

  /** Output without a `HEAD branch:` line leaves the default branch `master`. */
  lemma HeadBranchMissing(lines: seq<string>)
    requires forall i :: 0 <= i < |lines| ==> !Contains(lines[i], HEAD_MARKER)
    ensures HeadBranchOf(lines) == DEFAULT_BRANCH
  {
  }

  /** Removing the marker from `lead + marker + sp + name` keeps the rest of the line. */
  lemma MarkerLine(lead: string, m: string, sp: string, name: string)
    requires m != [] && !Contains(name, m)
    requires forall i :: 0 <= i < |lead| ==> lead[i] != m[0]
    requires forall i :: 0 <= i < |sp| ==> sp[i] != m[0]
    ensures Contains(lead + m + sp + name, m)
    ensures RemoveAll(lead + m + sp + name, m) == lead + sp + name
  {
    OccursAfter(lead, m, sp + name);
    assert lead + m + sp + name == lead + (m + (sp + name));
    RemoveAllSkip(lead, m, m + (sp + name));
    RemoveAllLeading(m, sp + name);
    RemoveAllSkip(sp, m, name);
  }

  /**
   * The line `git remote show` prints names the branch: the first such line
   * wins and the surrounding spaces are trimmed.
   */
  lemma HeadBranchFirstMarkedLine(pre: seq<string>, name: string, post: seq<string>)
    requires forall i :: 0 <= i < |pre| ==> !Contains(pre[i], HEAD_MARKER)
    requires name != [] && NoWhitespace(name) && !Contains(name, HEAD_MARKER)
    ensures HeadBranchOf(pre + ["  " + HEAD_MARKER + " " + name] + post) == name
  {
    var line := "  " + HEAD_MARKER + " " + name;
    HeadLine(name);
    FindFirstAt(pre, line, post);
  }

  /** The marked line holds the marker, and removing it and trimming leaves the name. */
  lemma HeadLine(name: string)
    requires name != [] && NoWhitespace(name) && !Contains(name, HEAD_MARKER)
    ensures Contains("  " + HEAD_MARKER + " " + name, HEAD_MARKER)
    ensures Trim(RemoveAll("  " + HEAD_MARKER + " " + name, HEAD_MARKER)) == name
  {
    MarkerLine("  ", HEAD_MARKER, " ", name);
    assert "  " + " " + name == "   " + name;
    TrimPadded("   ", name);
  }

  /** Leading blanks before a word without whitespace are trimmed away. */
  lemma TrimPadded(ws: string, name: string)
    requires forall i :: 0 <= i < |ws| ==> IsWhitespace(ws[i])
    requires name != [] && NoWhitespace(name)
    ensures Trim(ws + name) == name
  {
    TrimStartSkip(ws, name);
    assert TrimEnd(name) == name;
  }

  lemma {:induction false} FindFirstAt(pre: seq<string>, line: string, post: seq<string>)
    requires forall i :: 0 <= i < |pre| ==> !Contains(pre[i], HEAD_MARKER)
    requires Contains(line, HEAD_MARKER)
    ensures FindHeadBranch(pre + [line] + post) == Some(RemoveAll(line, HEAD_MARKER))
  {
    if pre == [] {
      assert (pre + [line] + post)[0] == line;
    } else {
      assert (pre + [line] + post)[1..] == pre[1..] + [line] + post;
      FindFirstAt(pre[1..], line, post);
    }
  }

  /** The `git remote show <path>` command, run in the work directory. */
  function RemoteShow(r: Repo): Command {
    Command("git", ["-C", r.workDir, "remote", "show", r.path], None)
  }

  /** The branch `git remote show` names, `master` when it cannot be started. */
  function RemoteHead(o: Output): (head: string)
    ensures o.SpawnError? ==> head == DEFAULT_BRANCH
    ensures o.Exited? ==> head == HeadBranch(o.stdout)
  {
    match o
    case SpawnError(_) => DEFAULT_BRANCH
    case Exited(_, _, out, _) => HeadBranch(out)
  }

  /**
   * `get_default_branch`: the branch named by the remote, whatever the
   * exit status; `master` when git cannot be started. The repository's
   * target branch is filled in only when it is empty.
   */
  method GetDefaultBranch(r: Repo, run: Command -> Output) returns (updated: Repo, head: string)
    ensures head == RemoteHead(run(RemoteShow(r)))
    ensures r.targetBranch == [] ==> updated == r.(targetBranch := head)
    ensures r.targetBranch != [] ==> updated == r
  {
    head := DEFAULT_BRANCH;
    match run(RemoteShow(r)) {
      case Exited(_, _, out, _) =>
        head := HeadBranch(out);
      case SpawnError(_) =>
    }
    updated := r;
    if r.targetBranch == [] {
      updated := updated.(targetBranch := head);
    }
  }

  datatype WorkDir = WorkDir(path: string) | Panic(message: string)

  /** The clone directory for a repository whose path ends in `seg`. */
  function WorkDirFor(user: Option<string>, seg: string): (w: WorkDir)
    ensures w.Panic? <==> user.None?
    ensures w.WorkDir? && '/' !in seg ==> LastSegment(w.path) == seg
    ensures w.WorkDir? ==> (StartsWith(w.path, "/root/") <==> Contains(user.value, "root"))
  {
    match user
    case None => Panic(USERNAME_UNWRAP)
    case Some(u) =>
      var root := Contains(u, "root");
      var dir := (if root then "/root" else "/home/" + u) + "/.cache/phantomCI";
      var p := dir + "/" + seg;
      assert '/' !in seg ==> LastSegment(p) == seg by {
        if '/' !in seg { LastSegmentAfterSlash(dir, seg); }
      }
      assert root ==> p[..6] == "/root/";
      assert !root ==> p[1] == 'h';
      WorkDir(p)
  }

  /**
   * `repo_work_dir`: the clone directory, under `/root` when the user name
   * contains `root`. `split('/').last()` always yields a segment, so the
   * random fallback name is never used; a failed user lookup panics.
   */
  function RepoWorkDir(user: Option<string>, repoPath: string): (w: WorkDir)
    ensures w.Panic? <==> user.None?
    ensures w.WorkDir? ==> LastSegment(w.path) == LastSegment(repoPath)
    ensures w.WorkDir? ==> (StartsWith(w.path, "/root/") <==> Contains(user.value, "root"))
  {
    WorkDirFor(user, LastSegment(repoPath))
  }

  lemma WorkDirForParent(user: string, seg: string)
    requires '/' !in seg
    ensures WorkDirFor(Some(user), seg).WorkDir?
    ensures ParentDir(WorkDirFor(Some(user), seg).path)
         == (if Contains(user, "root") then "/root" else "/home/" + user) + "/.cache/phantomCI/"
  {
    var dir := (if Contains(user, "root") then "/root" else "/home/" + user) + "/.cache/phantomCI";
    var p := WorkDirFor(Some(user), seg).path;
    assert p == dir + "/" + seg;
    assert p[..|p| - |seg|] == dir + "/";
  }

  /** A repository is cloned into a directory directly under the cache root. */
  lemma RepoWorkDirParent(user: string, repoPath: string)
    ensures RepoWorkDir(Some(user), repoPath).WorkDir?
    ensures ParentDir(RepoWorkDir(Some(user), repoPath).path)
         == (if Contains(user, "root") then "/root" else "/home/" + user) + "/.cache/phantomCI/"
  {
    WorkDirForParent(user, LastSegment(repoPath));
  }

  /** How reading the configuration ends: with the repositories, or by exit or panic. */
  datatype Loaded = Repos(repos: seq<Repo>) | Stopped(how: Termination)

  /** The repository one `Repo.toml` table describes. */
  function FromEntry(user: string, key: string, e: RepoEntry): (r: Repo)
    ensures r.name == key && r.path == e.path && r.workflowFile == WORKFLOW_FILE
    ensures r.lastSha.None? && !r.triggered
    ensures r.targetBranch == match e.targetBranch case Some(b) => b case None => DEFAULT_BRANCH
    ensures r.workDir == RepoWorkDir(Some(user), e.path).path
  {
    Repo(key, e.path, RepoWorkDir(Some(user), e.path).path, WORKFLOW_FILE, None,
         match e.targetBranch case Some(b) => b case None => DEFAULT_BRANCH, false)
  }

  /**
   * `get_repo_from_config` on the tables read from the file (`None` when it
   * cannot be loaded): a panic when it cannot be read, exit code 1 when it
   * has no table, and a panic in `repo_work_dir` when the user is unknown.
   */
  function FromConfig(user: Option<string>, config: Option<seq<(string, RepoEntry)>>): (l: Loaded)
    ensures config.None? ==> l == Stopped(Panicked(CONFIG_NOT_FOUND))
    ensures config == Some([]) ==> l == Stopped(Exit(1))
    ensures config.Some? && config.value != [] && user.None? ==> l == Stopped(Panicked(USERNAME_UNWRAP))
    ensures l.Repos? <==> config.Some? && config.value != [] && user.Some?
    ensures l.Repos? ==> |l.repos| == |config.value|
    ensures l.Repos? ==> forall i :: 0 <= i < |l.repos| ==>
      l.repos[i] == FromEntry(user.value, config.value[i].0, config.value[i].1)
  {
    match config
    case None => Stopped(Panicked(CONFIG_NOT_FOUND))
    case Some(tables) =>
      if tables == [] then Stopped(Exit(1))
      else if user.None? then Stopped(Panicked(USERNAME_UNWRAP))
      else Repos(seq(|tables|, i requires 0 <= i < |tables| => FromEntry(user.value, tables[i].0, tables[i].1)))
  }

  lemma ReposSnoc(s: seq<Repo>, i: nat)
    requires i < |s|
    ensures s[..i + 1] == s[..i] + [s[i]]
  {
  }

  /** `get_repo_from_config`, pushing one repository per table. */
  method GetRepoFromConfig(user: Option<string>, config: Option<seq<(string, RepoEntry)>>) returns (l: Loaded)
    ensures l == FromConfig(user, config)
  {
    if config.None? {
      return Stopped(Panicked(CONFIG_NOT_FOUND));
    }
    var tables := config.value;
    ghost var expected := seq(|tables|, k requires 0 <= k < |tables| =>
      FromEntry(if user.Some? then user.value else [], tables[k].0, tables[k].1));
    var repos: seq<Repo> := [];
    var i := 0;
    while i < |tables|
      invariant 0 <= i <= |tables|
      invariant i > 0 ==> user.Some?
      invariant repos == expected[..i]
    {
      if user.None? {
        return Stopped(Panicked(USERNAME_UNWRAP));
      }
      var r := FromEntry(user.value, tables[i].0, tables[i].1);
      assert expected[i] == r;
      ReposSnoc(expected, i);
      repos := repos + [r];
      i := i + 1;
    }
    assert repos == expected;
    if repos == [] {
      return Stopped(Exit(1));
    }
    l := Repos(repos);
    assert l == FromConfig(user, config);
  }

  const PATH_KEY := "]\npath = \""
  const BRANCH_LINE := "\"\ntarget_branch = \"master\"\n\n"

  /**
   * The table `write_repo_to_config` appends: named after the last
   * segment of the path, and always on branch `master`.
   */
  function ConfigEntry(r: Repo): string {
    "[" + LastSegment(r.path) + PATH_KEY + r.path + BRANCH_LINE
  }

  /** A reader for exactly the entry format above: the table name and the path. */
  function ReadEntry(e: string): Option<(string, string)> {
    if e == [] || e[0] != '[' then None else ReadTable(e[1..])
  }

  function ReadTable(body: string): Option<(string, string)> {
    if ']' !in body then None
    else
      var i := IndexOf(body, ']');
      match ReadPath(body[i..])
      case Some(p) => Some((body[..i], p))
      case None => None
  }

  function ReadPath(rest: string): Option<string> {
    if StartsWith(rest, PATH_KEY) then ReadValue(rest[|PATH_KEY|..]) else None
  }

  function ReadValue(after: string): Option<string> {
    if '"' !in after then None
    else
      var j := IndexOf(after, '"');
      if after[j..] == BRANCH_LINE then Some(after[..j]) else None
  }

  /** `a + [c] + b` where `a` has no `c`: its first `c` is at `|a|`. */
  lemma SplitAtFirst(a: string, c: char, b: string) returns (s: string)
    requires c !in a
    ensures s == a + [c] + b
    ensures c in s && IndexOf(s, c) == |a| && s[..|a|] == a && s[|a|..] == [c] + b
  {
    s := a + [c] + b;
    assert s[|a|] == c;
    var i := IndexOf(s, c);
    assert forall k :: 0 <= k < |a| ==> s[k] == a[k];
  }

  lemma ReadValueOf(path: string)
    requires '"' !in path
    ensures ReadValue(path + BRANCH_LINE) == Some(path)
  {
    var after := SplitAtFirst(path, '"', BRANCH_LINE[1..]);
    assert ['"'] + BRANCH_LINE[1..] == BRANCH_LINE;
    assert after == path + BRANCH_LINE;
  }

  lemma ReadPathOf(after: string)
    ensures ReadPath(PATH_KEY + after) == ReadValue(after)
  {
    assert (PATH_KEY + after)[..|PATH_KEY|] == PATH_KEY;
    assert (PATH_KEY + after)[|PATH_KEY|..] == after;
  }

  lemma ReadTableOf(name: string, after: string)
    requires ']' !in name
    ensures ReadTable(name + PATH_KEY + after) == match ReadValue(after) case Some(p) => Some((name, p)) case None => None
  {
    var body := SplitAtFirst(name, ']', PATH_KEY[1..] + after);
    assert [']'] + PATH_KEY[1..] == PATH_KEY;
    assert body == name + PATH_KEY + after;
    ReadPathOf(after);
  }

  /** Reading the entry back gives its table name and path. */
  lemma EntryRoundTrip(name: string, path: string)
    requires ']' !in name && '"' !in path
    ensures ReadEntry("[" + name + PATH_KEY + path + BRANCH_LINE) == Some((name, path))
  {
    ReadValueOf(path);
    ReadTableOf(name, path + BRANCH_LINE);
    EntryShape("[", name, PATH_KEY, path, BRANCH_LINE);
  }

  lemma EntryShape(open: string, name: string, key: string, path: string, tail: string)
    requires |open| == 1
    ensures (open + name + key + path + tail)[0] == open[0]
    ensures (open + name + key + path + tail)[1..] == name + key + (path + tail)
  {
  }

  /** The written entry names the repository after its last segment and records its path. */
  lemma ConfigEntryReadsBack(r: Repo)
    requires ']' !in LastSegment(r.path) && '"' !in r.path
    ensures ReadEntry(ConfigEntry(r)) == Some((LastSegment(r.path), r.path))
  {
    EntryRoundTrip(LastSegment(r.path), r.path);
  }

  /**
   * `write_repo_to_config` on the configuration file's text (`None` when it
   * does not exist): the entry is appended only to an existing file.
   */
  function WriteRepoToConfig(file: Option<string>, r: Repo): (after: Option<string>)
    ensures file.None? ==> after.None?
    ensures file.Some? ==> after == Some(file.value + ConfigEntry(r))
  {
    match file
    case None => None
    case Some(text) => Some(text + ConfigEntry(r))
  }

  /** The branch never reaches the written entry. */
  lemma ConfigEntryIgnoresBranch(r: Repo, branch: string)
    ensures ConfigEntry(r.(targetBranch := branch)) == ConfigEntry(r)
  {
  }

  /**
   * The directory `clone_repo` runs `git clone` in, as written: the work
   * directory with every occurrence of its last segment removed.
   */
  function CloneParentDirAsWritten(workDir: string): (p: string)
    ensures |p| <= |workDir|
  {
    RemoveAll(workDir, LastSegment(workDir))
  }

  /** The intended clone directory: the work directory's parent. */
  function CloneParentDir(workDir: string): (p: string)
    ensures p + LastSegment(workDir) == workDir
    ensures p == [] || EndsInSlash(p)
  {
    ParentDir(workDir)
  }

  /** The two agree when the segment occurs nowhere else in the path. */
  lemma CloneParentDirAgrees(parent: string, seg: string)
    requires EndsInSlash(parent) && seg != [] && '/' !in seg && !Contains(parent, seg)
    ensures CloneParentDirAsWritten(parent + seg) == CloneParentDir(parent + seg) == parent
  {
    LastSegmentAfterSlash(parent[..|parent| - 1], seg);
    assert parent[..|parent| - 1] + "/" + seg == parent + seg;
    RemoveAllTrailingSegment(parent, seg);
  }

  lemma WithoutTrailing(p: string, c: char)
    requires c !in p
    ensures Without(p + [c], c) == p
  {
    WithoutAppend(p, [c], c);
    WithoutAbsent(p, c);
    assert Without([c], c) == [] by { assert [c][1..] == []; }
  }

  /** Removing a one-character segment that occurs three times. */
  lemma RemoveThreeCopies(p1: string, p2: string, p3: string, c: char)
    requires c !in p1 && c !in p2 && c !in p3
    ensures RemoveAll(p1 + [c] + p2 + [c] + p3 + [c], [c]) == p1 + p2 + p3
  {
    var a, b, d := p1 + [c], p2 + [c], p3 + [c];
    assert p1 + [c] + p2 + [c] + p3 + [c] == a + b + d;
    RemoveAllChar(a + b + d, c);
    WithoutTrailing(p1, c);
    WithoutTrailing(p2, c);
    WithoutTrailing(p3, c);
    WithoutAppend(a + b, d, c);
    WithoutAppend(a, b, c);
  }

  /**
   * A repository named `c` cloned as root: the `c`s of `.cache` are removed
   * too, so the clone lands outside the work directory's parent.
   */
  lemma RootCacheParts() returns (p1: string, p2: string, p3: string)
    ensures p1 + ['c'] + p2 + ['c'] + p3 == "/root/.cache/phantomCI/"
    ensures 'c' !in p1 && 'c' !in p2 && 'c' !in p3
    ensures p1 + p2 + p3 == "/root/.ahe/phantomCI/"
  {
    p1, p2, p3 := "/root/.", "a", "he/phantomCI/";
  }

  /**
   * A repository whose last segment is `c`, cloned as root: the `c`s of
   * `.cache` are removed too, so the clone lands outside the work
   * directory's parent.
   */
  lemma CloneParentDirAsWrittenMangles(user: string, repoPath: string)
    requires Contains(user, "root") && LastSegment(repoPath) == "c"
    ensures CloneParentDirAsWritten(RepoWorkDir(Some(user), repoPath).path) == "/root/.ahe/phantomCI/"
    ensures CloneParentDir(RepoWorkDir(Some(user), repoPath).path) == "/root/.cache/phantomCI/"
  {
    var c := LastSegment(repoPath);
    var w := RepoWorkDir(Some(user), repoPath).path;
    RootWorkDir(user, c);
    var p1, p2, p3 := RootCacheParts();
    assert w == (p1 + ['c'] + p2 + ['c'] + p3) + ['c'];
    assert w == p1 + ['c'] + p2 + ['c'] + p3 + ['c'];
    RemoveThreeCopies(p1, p2, p3, 'c');
    WorkDirForParent(user, c);
  }

  lemma RootWorkDir(user: string, seg: string)
    requires Contains(user, "root")
    ensures WorkDirFor(Some(user), seg).path == "/root/.cache/phantomCI/" + seg
  {
    assert "/root" + "/.cache/phantomCI" + "/" == "/root/.cache/phantomCI/";
  }

  /**
   * The `git -C <parent> clone <path>` command `clone_repo` runs, with the
   * corrected parent directory. It is the program's command whenever the
   * last segment of the work directory occurs nowhere in its parent.
   */
  function CloneCommand(r: Repo): (c: Command)
    ensures c.args == ["-C", CloneParentDir(r.workDir), "clone", r.path]
    ensures var parent := CloneParentDir(r.workDir); var seg := LastSegment(r.workDir);
      parent != [] && seg != [] && !Contains(parent, seg) ==>
        c.args == ["-C", CloneParentDirAsWritten(r.workDir), "clone", r.path]
  {
    var parent := CloneParentDir(r.workDir);
    var seg := LastSegment(r.workDir);
    assert parent != [] && seg != [] && !Contains(parent, seg) ==>
      CloneParentDirAsWritten(r.workDir) == parent by {
      if parent != [] && seg != [] && !Contains(parent, seg) {
        CloneParentDirAgrees(parent, seg);
      }
    }
    Command("git", ["-C", parent, "clone", r.path], None)
  }

  /** The webhook title: the last segment of the repository path. */
  function WebhookTitle(path: string): (t: string)
    ensures '/' !in t && EndsWith(path, t)
    ensures t == [] ==> path == [] || path[|path| - 1] == '/'
  {
    LastSegment(path)
  }

  /** The webhook title is the table name the repository is written under. */
  lemma WebhookTitleIsEntryName(r: Repo)
    requires ']' !in LastSegment(r.path) && '"' !in r.path
    ensures ReadEntry(ConfigEntry(r)).Some? && ReadEntry(ConfigEntry(r)).value.0 == WebhookTitle(r.path)
  {
    ConfigEntryReadsBack(r);
  }
}
