/**
 * `prepare` (`src/repo/mod.rs`): clone a repository that has no work
 * directory yet, learn its default branch, and record its current commit.
 * The file system is read through the environment; the clone's own effect
 * on it is not modelled.
 */
module RepoSetup {
  import opened Wrappers
  import opened Env
  import opened Repository
  import opened Git

  /** `prepare` clones only when the work directory is missing and can be created. */
  predicate Cloning(r: Repo, w: World) {
    !w.pathExists(r.workDir) && w.createDir(r.workDir)
  }

  /** The repository as `prepare` leaves it. */
  function Prepared(r: Repo, w: World): (p: Repo)
    ensures p.name == r.name && p.path == r.path && p.workDir == r.workDir
    ensures p.workflowFile == r.workflowFile && p.triggered == r.triggered
    ensures p.lastSha == LatestSha(w.run(RevParse(r)))
    ensures p.targetBranch == (if Cloning(r, w) && r.targetBranch == [] then RemoteHead(w.run(RemoteShow(r))) else r.targetBranch)
    ensures w.pathExists(r.workDir) ==> p == r.(lastSha := LatestSha(w.run(RevParse(r))))
  {
    var q := if Cloning(r, w) && r.targetBranch == [] then r.(targetBranch := RemoteHead(w.run(RemoteShow(r)))) else r;
    q.(lastSha := LatestSha(w.run(RevParse(q))))
  }

  /** The repository once `prepare` has chosen its branch, before the fetch. */
  function Branched(r: Repo, w: World): (q: Repo)
    ensures q == r || (Cloning(r, w) && r.targetBranch == [] && q == r.(targetBranch := RemoteHead(w.run(RemoteShow(r)))))
  {
    if Cloning(r, w) && r.targetBranch == [] then r.(targetBranch := RemoteHead(w.run(RemoteShow(r)))) else r
  }

  /** The clone step of `prepare`: `clone` and `get_default_branch` when the work directory is missing and can be created. */
  method CloneIfMissing(r: Repo, w: World) returns (q: Repo, issued: seq<Command>)
    ensures q == Branched(r, w)
    ensures issued == if Cloning(r, w) then [CloneCommand(r), RemoteShow(r)] else []
  {
    q := r;
    issued := [];
    if !w.pathExists(r.workDir) {
      if w.createDir(r.workDir) {
        var head;
        q, head := GetDefaultBranch(r, w.run);
        issued := [CloneCommand(r), RemoteShow(r)];
      }
    }
  }

  /** The git commands of a repository depend only on its work directory and branch. */
  lemma CommandsOfDirAndBranch(a: Repo, b: Repo)
    requires a.workDir == b.workDir && a.targetBranch == b.targetBranch
    ensures FetchPullCommands(a) == FetchPullCommands(b) && RevParse(a) == RevParse(b)
  {
  }

  /**
   * `prepare`: the prepared repository and the commands it issues, in
   * order: `clone` and `remote show` when cloning, then the fetch and
   * `rev-parse` of `fetch_latest_sha`, on the branch just chosen.
   */
  method Prepare(r: Repo, w: World) returns (p: Repo, issued: seq<Command>)
    ensures p == Prepared(r, w)
    ensures issued == (if Cloning(r, w) then [CloneCommand(r), RemoteShow(r)] else [])
                      + UntilSpawnError(FetchPullCommands(p), w.run) + [RevParse(p)]
  {
    var q, cloned := CloneIfMissing(r, w);
    var sha, fetched := FetchLatestSha(q, w.run);
    p := q.(lastSha := sha);
    CommandsOfDirAndBranch(p, q);
    issued := cloned + fetched;
  }

  /** Preparing twice records the same commit and chooses no other branch. */
  lemma PreparedTwice(r: Repo, w: World)
    requires w.pathExists(r.workDir)
    ensures Prepared(Prepared(r, w), w) == Prepared(r, w)
  {
  }

  /** A configured branch is never replaced by the remote's default. */
  lemma PreparedKeepsBranch(r: Repo, w: World)
    requires r.targetBranch != []
    ensures Prepared(r, w).targetBranch == r.targetBranch
  {
  }
}
