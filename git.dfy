/**
 * The git subprocesses the poller runs in a repository's work directory
 * (`fetch_pull` and `fetch_latest_sha` in `src/scm/mod.rs`). A subprocess
 * is the `run` oracle; only a failure to start it is an error.
 */
module Git {
  import opened Wrappers
  import opened Text
  import opened Env
  import opened Repository

  /** `git -C <workDir> <args>`. */
  function GitIn(workDir: string, args: seq<string>): (c: Command)
    ensures c.program == "git" && |c.args| == |args| + 2 && c.args[..2] == ["-C", workDir] && c.args[2..] == args && c.cwd.None?
  {
    Command("git", ["-C", workDir] + args, None)
  }

  /** The five commands `fetch_pull` issues, in order. */
  function FetchPullCommands(r: Repo): seq<Command> {
    [ GitIn(r.workDir, ["stash"]),
      GitIn(r.workDir, ["checkout", r.targetBranch]),
      GitIn(r.workDir, ["reset", "--hard", "HEAD"]),
      GitIn(r.workDir, ["fetch"]),
      GitIn(r.workDir, ["pull"]) ]
  }

  /** `git -C <workDir> rev-parse HEAD`. */
  function RevParse(r: Repo): Command {
    GitIn(r.workDir, ["rev-parse", "HEAD"])
  }

  /**
   * The commands a `?`-chained sequence issues: each one in turn, up to and
   * including the first that cannot be started. An exit status, zero or
   * not, never stops the sequence.
   */
  function UntilSpawnError(cs: seq<Command>, run: Command -> Output): (issued: seq<Command>)
    ensures 0 < |issued| <= |cs| || cs == issued == []
    ensures issued == cs[..|issued|]
    ensures forall i :: 0 <= i < |issued| - 1 ==> !run(issued[i]).SpawnError?
    ensures |issued| < |cs| ==> run(issued[|issued| - 1]).SpawnError?
    ensures issued == cs <==> forall i :: 0 <= i < |cs| - 1 ==> !run(cs[i]).SpawnError?
  {
    if cs == [] then []
    else if run(cs[0]).SpawnError? then [cs[0]]
    else
      var rest := UntilSpawnError(cs[1..], run);
      assert forall i :: 1 <= i < |cs| ==> cs[i] == cs[1..][i - 1];
      [cs[0]] + rest
  }

  /** Whether every command of a sequence could be started. */
  predicate AllStarted(cs: seq<Command>, run: Command -> Output) {
    forall i :: 0 <= i < |cs| ==> !run(cs[i]).SpawnError?
  }

  /**
   * `fetch_pull`: the commands it issues and whether it returned `Ok`.
   * The first command that cannot be started ends it with `Err`.
   */
  method FetchPull(r: Repo, run: Command -> Output) returns (issued: seq<Command>, ok: bool)
    ensures issued == UntilSpawnError(FetchPullCommands(r), run)
    ensures ok <==> AllStarted(FetchPullCommands(r), run)
  {
    var cs := FetchPullCommands(r);
    issued := [];
    ok := false;
    var stash := GitIn(r.workDir, ["stash"]);
    assert stash == cs[0];
    issued := issued + [stash];
    if run(stash).SpawnError? {
      assert UntilSpawnError(cs, run) == [cs[0]];
      return;
    }
    var checkout := GitIn(r.workDir, ["checkout", r.targetBranch]);
    assert checkout == cs[1];
    issued := issued + [checkout];
    if run(checkout).SpawnError? {
      assert UntilSpawnError(cs[1..], run) == [cs[1]];
      return;
    }
    var reset := GitIn(r.workDir, ["reset", "--hard", "HEAD"]);
    assert reset == cs[2];
    issued := issued + [reset];
    if run(reset).SpawnError? {
      assert UntilSpawnError(cs[2..], run) == [cs[2]];
      assert UntilSpawnError(cs[1..], run) == [cs[1]] + UntilSpawnError(cs[2..], run);
      return;
    }
    var fetch := GitIn(r.workDir, ["fetch"]);
    assert fetch == cs[3];
    issued := issued + [fetch];
    if run(fetch).SpawnError? {
      assert UntilSpawnError(cs[3..], run) == [cs[3]];
      assert UntilSpawnError(cs[2..], run) == [cs[2]] + UntilSpawnError(cs[3..], run);
      assert UntilSpawnError(cs[1..], run) == [cs[1]] + UntilSpawnError(cs[2..], run);
      return;
    }
    var pull := GitIn(r.workDir, ["pull"]);
    assert pull == cs[4];
    issued := issued + [pull];
    ok := !run(pull).SpawnError?;
    assert issued == cs;
  }

  /**
   * How `fetch_latest_sha` reads the `rev-parse` result: the trimmed
   * standard output when the command ran and exited successfully.
   */
  function LatestSha(o: Output): (sha: Option<string>)
    ensures sha.Some? <==> o.Exited? && o.success
    ensures sha.Some? ==> sha.value == Trim(o.stdout)
    ensures sha.Some? && sha.value != [] ==> !IsWhitespace(sha.value[0]) && !IsWhitespace(sha.value[|sha.value| - 1])
  {
    if o.Exited? && o.success then Some(Trim(o.stdout)) else None
  }

  /**
   * `fetch_latest_sha`: `fetch_pull` first, whose error is only reported,
   * then `rev-parse HEAD`.
   */
  method FetchLatestSha(r: Repo, run: Command -> Output) returns (sha: Option<string>, issued: seq<Command>)
    ensures issued == UntilSpawnError(FetchPullCommands(r), run) + [RevParse(r)]
    ensures sha == LatestSha(run(RevParse(r)))
  {
    var pulled, ok := FetchPull(r, run);
    var revParse := GitIn(r.workDir, ["rev-parse", "HEAD"]);
    issued := pulled + [revParse];
    var output := run(revParse);
    if output.Exited? && output.success {
      sha := Some(Trim(output.stdout));
    } else {
      sha := None;
    }
  }

  /** A non-zero exit status does not stop `fetch_pull`: only spawn errors do. */
  lemma FetchPullIgnoresExitStatus(r: Repo, run: Command -> Output)
    requires AllStarted(FetchPullCommands(r), run)
    ensures UntilSpawnError(FetchPullCommands(r), run) == FetchPullCommands(r)
  {
  }

  /** With `stash` failing to start nothing else is issued. */
  lemma FetchPullStopsAtStash(r: Repo, run: Command -> Output)
    requires run(GitIn(r.workDir, ["stash"])).SpawnError?
    ensures UntilSpawnError(FetchPullCommands(r), run) == [GitIn(r.workDir, ["stash"])]
  {
  }
}
