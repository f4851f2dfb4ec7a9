/**
 * The repository table of the daemon (`src/app/mod.rs`): a map from the
 * name a repository is tracked under to its `Repo`, behind a mutex that is
 * not modelled, plus the polling interval and the database handle.
 */
module App {
  import opened Wrappers
  import opened Env
  import opened Util
  import opened Repository
  import opened RepoSetup

  const SCM_INTERVAL: nat := 15
  const REPO_CONFIG := "Repo.toml"

  /** `SerializableState`: what is written to and read from the state file. */
  datatype Snapshot = Snapshot(repos: map<string, Repo>)

  /** The table after offering `r` under `name`: an existing entry is never overwritten. */
  function Added(m: map<string, Repo>, name: string, r: Repo): (a: map<string, Repo>)
    ensures a.Keys == m.Keys + {name}
    ensures forall k :: k in m ==> a[k] == m[k]
    ensures name !in m ==> a[name] == r
  {
    if name in m then m else m[name := r]
  }

  /** The names of a list of repositories. */
  function Names(rs: seq<Repo>): (names: set<string>)
    ensures forall i :: 0 <= i < |rs| ==> rs[i].name in names
  {
    if rs == [] then {} else Names(rs[..|rs| - 1]) + {rs[|rs| - 1].name}
  }

  /** The index of the first repository named `k`, or `|rs|` when there is none. */
  function FirstNamed(rs: seq<Repo>, k: string): (f: nat)
    ensures f <= |rs|
    ensures forall j :: 0 <= j < f ==> rs[j].name != k
    ensures f < |rs| ==> rs[f].name == k
    ensures f == |rs| <==> k !in Names(rs)
  {
    if rs == [] then 0
    else
      var init := rs[..|rs| - 1];
      var f := FirstNamed(init, k);
      assert forall j :: 0 <= j < |init| ==> init[j] == rs[j];
      assert k in Names(init) ==> k in Names(rs);
      if f < |init| then f
      else if rs[|rs| - 1].name == k then |init|
      else
        assert forall j :: 0 <= j < |rs| ==> rs[j].name != k;
        |rs|
  }

  /** Each configured repository as `prepare` leaves it. */
  function PreparedAll(rs: seq<Repo>, w: World): (ps: seq<Repo>)
    ensures |ps| == |rs|
    ensures forall i :: 0 <= i < |rs| ==> ps[i].name == rs[i].name
  {
    seq(|rs|, i requires 0 <= i < |rs| => Prepared(rs[i], w))
  }

  /**
   * The table after each repository of `ps` is offered in turn: old
   * entries keep their values, and a new name gets the first repository
   * carrying it.
   */
  function AddedAll(m: map<string, Repo>, ps: seq<Repo>): (a: map<string, Repo>)
    ensures a.Keys == m.Keys + Names(ps)
    ensures forall k :: k in m ==> a[k] == m[k]
  {
    if ps == [] then m
    else Added(AddedAll(m, ps[..|ps| - 1]), ps[|ps| - 1].name, ps[|ps| - 1])
  }

  /** A name that was not tracked gets the first repository carrying it. */
  lemma {:induction false} AddedAllNew(m: map<string, Repo>, ps: seq<Repo>, k: string)
    requires k in AddedAll(m, ps) && k !in m
    ensures FirstNamed(ps, k) < |ps| && AddedAll(m, ps)[k] == ps[FirstNamed(ps, k)]
  {
    var init := ps[..|ps| - 1];
    if k in AddedAll(m, init) {
      AddedAllNew(m, init, k);
      assert ps[FirstNamed(init, k)] == init[FirstNamed(init, k)];
    }
  }

  lemma NamesSnoc(rs: seq<Repo>, r: Repo)
    ensures Names(rs + [r]) == Names(rs) + {r.name}
  {
    assert (rs + [r])[..|rs|] == rs;
  }

  /** Lists with the same names, position by position, agree on every name lookup. */
  lemma {:induction false} SameNames(a: seq<Repo>, b: seq<Repo>, k: string)
    requires |a| == |b| && forall i :: 0 <= i < |a| ==> a[i].name == b[i].name
    ensures FirstNamed(a, k) == FirstNamed(b, k)
  {
    if a != [] {
      SameNames(a[..|a| - 1], b[..|b| - 1], k);
    }
  }

  lemma {:induction false} SameNameSet(a: seq<Repo>, b: seq<Repo>)
    requires |a| == |b| && forall i :: 0 <= i < |a| ==> a[i].name == b[i].name
    ensures Names(a) == Names(b)
  {
    if a != [] {
      SameNameSet(a[..|a| - 1], b[..|b| - 1]);
    }
  }

  /**
   * The table after `add_repos_from_config`: exactly the configured names,
   * with the entries that were already tracked unchanged.
   */
  function Reconciled(m: map<string, Repo>, rs: seq<Repo>, w: World): (r: map<string, Repo>)
    ensures r.Keys == Names(rs)
    ensures forall k :: k in r && k in m ==> r[k] == m[k]
  {
    var a := AddedAll(m, PreparedAll(rs, w));
    SameNameSet(PreparedAll(rs, w), rs);
    map k | k in a && k in Names(rs) :: a[k]
  }

  /** A newly tracked name holds the first configured repository carrying it, prepared. */
  lemma ReconciledNew(m: map<string, Repo>, rs: seq<Repo>, w: World, k: string)
    requires k in Reconciled(m, rs, w) && k !in m
    ensures FirstNamed(rs, k) < |rs| && Reconciled(m, rs, w)[k] == Prepared(rs[FirstNamed(rs, k)], w)
  {
    var ps := PreparedAll(rs, w);
    SameNameSet(ps, rs);
    SameNames(ps, rs, k);
    AddedAllNew(m, ps, k);
  }

  /** Reading the repository configuration: the configuration directory, then `Repo.toml`. */
  function ConfigLoad(w: World): Loaded {
    match DefaultConfigPath(w.os, w.user)
    case Panic(msg) => Stopped(Panicked(msg))
    case Path(dir) => FromConfig(w.user, w.repoConfig(dir + REPO_CONFIG))
  }

  /** One step of the configuration loop, seen from the table. */
  lemma AddedAllSnoc(m: map<string, Repo>, ps: seq<Repo>, i: nat)
    requires i < |ps|
    ensures AddedAll(m, ps[..i + 1]) == Added(AddedAll(m, ps[..i]), ps[i].name, ps[i])
    ensures Names(ps[..i + 1]) == Names(ps[..i]) + {ps[i].name}
  {
    assert ps[..i + 1][..i] == ps[..i];
    assert ps[..i + 1] == ps[..i] + [ps[i]];
    NamesSnoc(ps[..i], ps[i]);
  }

  /** One step of the configuration loop, seen from the table. */
  lemma OfferStep(m: map<string, Repo>, rs: seq<Repo>, w: World, i: nat, before: map<string, Repo>, after: map<string, Repo>)
    requires i < |rs|
    requires before == AddedAll(m, PreparedAll(rs, w)[..i])
    requires after == Added(before, rs[i].name, Prepared(rs[i], w))
    ensures after == AddedAll(m, PreparedAll(rs, w)[..i + 1])
    ensures Names(PreparedAll(rs, w)[..i + 1]) == Names(PreparedAll(rs, w)[..i]) + {rs[i].name}
  {
    AddedAllSnoc(m, PreparedAll(rs, w), i);
  }

  /** One step of the configuration loop, seen from the left-out entries. */
  lemma LeftOutStep(leftOut0: map<string, Repo>, leftOut: map<string, Repo>, rs: seq<Repo>, w: World, i: nat)
    requires i < |rs|
    requires forall k :: k in leftOut <==> k in leftOut0 && k !in Names(PreparedAll(rs, w)[..i])
    ensures forall k :: k in leftOut - {rs[i].name} <==> k in leftOut0 && k !in Names(PreparedAll(rs, w)[..i + 1])
  {
    AddedAllSnoc(map[], PreparedAll(rs, w), i);
  }

  /** Removing the names the configuration no longer lists leaves the reconciled table. */
  lemma ReconciledIsDropped(m: map<string, Repo>, rs: seq<Repo>, w: World, t: map<string, Repo>)
    requires forall k :: k in t <==> k in AddedAll(m, PreparedAll(rs, w)) && !(k in m && k !in Names(rs))
    requires forall k :: k in t ==> t[k] == AddedAll(m, PreparedAll(rs, w))[k]
    ensures t == Reconciled(m, rs, w)
  {
    SameNameSet(PreparedAll(rs, w), rs);
  }

  /** `AppState`: the repository table, the polling interval and the database handle. */
  class AppState {
    var repos: map<string, Repo>
    var scmInterval: nat
    var hasDbConn: bool

    /** `AppState::new`: an empty table, a 15-second interval, no connection. */
    constructor ()
      ensures repos == map[] && scmInterval == SCM_INTERVAL && !hasDbConn
    {
      repos := map[];
      scmInterval := SCM_INTERVAL;
      hasDbConn := false;
    }

    /** `get_serializable`: a copy of the table. */
    method GetSerializable() returns (s: Snapshot)
      ensures s.repos == repos
    {
      s := Snapshot(repos);
    }

    /** `deserialize_restore`: the table becomes the snapshot's. */
    method DeserializeRestore(s: Snapshot)
      modifies this
      ensures repos == s.repos
      ensures scmInterval == old(scmInterval) && hasDbConn == old(hasDbConn)
    {
      repos := s.repos;
    }

    /** `add_repo`: insert under `name` unless the name is already tracked. */
    method AddRepo(name: string, r: Repo)
      modifies this
      ensures repos == Added(old(repos), name, r)
      ensures scmInterval == old(scmInterval) && hasDbConn == old(hasDbConn)
    {
      if name !in repos {
        repos := repos[name := r];
      }
    }

    /** `repo.prepare()` followed by `add_repo` under the repository's name. */
    method PrepareAndAdd(r: Repo, w: World)
      modifies this
      ensures repos == Added(old(repos), r.name, Prepared(r, w))
      ensures scmInterval == old(scmInterval) && hasDbConn == old(hasDbConn)
    {
      var p, _ := Prepare(r, w);
      AddRepo(p.name, p);
    }

    /**
     * The `for_each` over the configured repositories: each is dropped from
     * `leftOut`, prepared and offered to the table.
     */
    method OfferConfigured(rs: seq<Repo>, w: World, leftOut0: map<string, Repo>) returns (leftOut: map<string, Repo>)
      modifies this
      ensures repos == AddedAll(old(repos), PreparedAll(rs, w))
      ensures forall k :: k in leftOut <==> k in leftOut0 && k !in Names(rs)
      ensures scmInterval == old(scmInterval) && hasDbConn == old(hasDbConn)
    {
      leftOut := leftOut0;
      ghost var m := repos;
      ghost var ps := PreparedAll(rs, w);
      var i := 0;
      while i < |rs|
        invariant 0 <= i <= |rs|
        invariant repos == AddedAll(m, ps[..i])
        invariant forall k :: k in leftOut <==> k in leftOut0 && k !in Names(ps[..i])
        invariant scmInterval == old(scmInterval) && hasDbConn == old(hasDbConn)
      {
        ghost var before := repos;
        LeftOutStep(leftOut0, leftOut, rs, w, i);
        leftOut := leftOut - {rs[i].name};
        PrepareAndAdd(rs[i], w);
        OfferStep(m, rs, w, i, before, repos);
        i := i + 1;
      }
      assert ps[..i] == ps;
      SameNameSet(ps, rs);
    }

    /**
     * The `for_each` over the left-out entries: each is removed from the
     * table. `default_repo_work_path_delete(..).unwrap()` cannot panic, as
     * the user name and platform were already accepted.
     */
    method DropLeftOut(leftOut0: map<string, Repo>, os: Os, user: Option<string>)
      requires user.Some? && !os.OtherOs?
      modifies this
      ensures forall k :: k in repos <==> k in old(repos) && k !in leftOut0
      ensures forall k :: k in repos ==> repos[k] == old(repos)[k]
      ensures scmInterval == old(scmInterval) && hasDbConn == old(hasDbConn)
    {
      var leftOut := leftOut0;
      while leftOut != map[]
        invariant leftOut.Keys <= leftOut0.Keys
        invariant forall k :: k in repos <==> k in old(repos) && (k !in leftOut0 || k in leftOut)
        invariant forall k :: k in repos ==> repos[k] == old(repos)[k]
        invariant scmInterval == old(scmInterval) && hasDbConn == old(hasDbConn)
        decreases |leftOut.Keys|
      {
        var k :| k in leftOut;
        ghost var before := leftOut.Keys;
        repos := repos - {k};
        assert DefaultRepoWorkPathDelete(os, user, leftOut[k].name).Path?;
        leftOut := leftOut - {k};
        assert leftOut.Keys < before by {
          assert k in before && k !in leftOut.Keys;
        }
      }
    }

    /**
     * `add_repos_from_config`: every configured repository is prepared and
     * offered, then every tracked name the configuration no longer lists is
     * removed. Reading the configuration may end the process instead.
     */
    method AddReposFromConfig(w: World) returns (how: Termination)
      modifies this
      ensures ConfigLoad(w).Stopped? ==> how == ConfigLoad(w).how && repos == old(repos)
      ensures ConfigLoad(w).Repos? ==> how == Completed && repos == Reconciled(old(repos), ConfigLoad(w).repos, w)
      ensures scmInterval == old(scmInterval) && hasDbConn == old(hasDbConn)
    {
      var dir := DefaultConfigPath(w.os, w.user);
      if dir.Panic? {
        return Panicked(dir.message);
      }
      var leftOut := repos;
      var loaded := GetRepoFromConfig(w.user, w.repoConfig(dir.path + REPO_CONFIG));
      if loaded.Stopped? {
        return loaded.how;
      }
      ghost var m := repos;
      var rs := loaded.repos;
      leftOut := OfferConfigured(rs, w, leftOut);
      assert DefaultConfigPath(w.os, w.user).Path?;
      DropLeftOut(leftOut, w.os, w.user);
      ReconciledIsDropped(m, rs, w, repos);
      how := Completed;
    }
  }
}
