/**
 * Path selection from the operating system and the user name
 * (`src/util/mod.rs`). Directory creation and removal are not modelled;
 * a panic is a result value.
 */
module Util {
  import opened Wrappers
  import opened Text
  import opened Env

  datatype PathResult = Path(path: string) | Panic(message: string)

  const NO_USER := "unable to determine user name"
  const BAD_PLATFORM := "invalid platform"

  /**
   * `default_repo_work_path`: the per-repository cache directory. A user
   * name containing `root` anywhere selects `/root`; a failed user lookup
   * gives the empty string.
   */
  function DefaultRepoWorkPath(user: Option<string>, name: string): (p: string)
    ensures user.None? <==> p == []
    ensures user.Some? ==> EndsInSlash(p)
    ensures user.Some? ==> (StartsWith(p, "/root/") <==> Contains(user.value, "root"))
    ensures user.Some? && '/' !in name ==> LastSegment(p[..|p| - 1]) == name
  {
    match user
    case None => []
    case Some(u) =>
      var base := if Contains(u, "root") then "/root" else "/home/" + u;
      WorkPathShape(base, name);
      base + "/.cache/phantom_ci/" + name + "/"
  }

  /** The shape of a work path below the home directory `base`. */
  lemma WorkPathShape(base: string, name: string)
    requires |base| >= 2
    ensures var p := base + "/.cache/phantom_ci/" + name + "/";
      && EndsInSlash(p) && p[..|base| + 1] == base + "/" && p[1] == base[1]
      && ('/' !in name ==> LastSegment(p[..|p| - 1]) == name)
  {
    WorkPathPrefix(base, "/.cache/phantom_ci/" + name + "/");
    var dir := base + "/.cache/phantom_ci";
    var p := base + "/.cache/phantom_ci/" + name + "/";
    assert p == dir + "/" + name + "/";
    assert p[..|p| - 1] == dir + "/" + name;
    if '/' !in name {
      LastSegmentAfterSlash(dir, name);
    }
  }

  /** A path continuing `base` with a `/` starts with `base + "/"`. */
  lemma WorkPathPrefix(base: string, tail: string)
    requires |base| >= 2 && tail != [] && tail[0] == '/'
    ensures (base + tail)[..|base| + 1] == base + "/" && (base + tail)[1] == base[1]
  {
  }

  /**
   * `default_repo_work_path_delete`: the base cache directory for the
   * platform. Its `repo_name` argument takes no part in the result.
   */
  function DefaultRepoWorkPathDelete(os: Os, user: Option<string>, name: string): (r: PathResult)
    ensures r.Panic? <==> user.None? || os.OtherOs?
    ensures user.None? ==> r == Panic(NO_USER)
    ensures r.Path? ==> EndsInSlash(r.path)
  {
    match user
    case None => Panic(NO_USER)
    case Some(u) =>
      match os
      case Linux =>
        if Contains(u, "root") then Path("/root/.cache/phantom_ci/")
        else Path("/home/" + u + "/.cache/phantom_ci/")
      case MacOs =>
        if Contains(u, "root") then Path("/var/root/.cache/phantom_ci/")
        else Path("/Users/" + u + "/Library/Caches/com.helloimalemur.phantom_ci/")
      case OtherOs(_) => Panic(BAD_PLATFORM)
  }

  /** The base cache directory does not depend on the repository name. */
  lemma DeleteIgnoresName(os: Os, user: Option<string>, a: string, b: string)
    ensures DefaultRepoWorkPathDelete(os, user, a) == DefaultRepoWorkPathDelete(os, user, b)
  {
  }

  /** On Linux every repository work path lies directly under the base cache directory. */
  lemma WorkPathUnderDeleteBase(user: string, name: string)
    ensures DefaultRepoWorkPath(Some(user), name)
         == DefaultRepoWorkPathDelete(Linux, Some(user), name).path + name + "/"
  {
    if Contains(user, "root") {
      assert "/root" + "/.cache/phantom_ci/" == "/root/.cache/phantom_ci/";
    } else {
      assert "/home/" + user + "/.cache/phantom_ci/" + name + "/"
          == ("/home/" + user + "/.cache/phantom_ci/") + name + "/";
    }
  }

  /** `default_config_path`: the configuration directory for the platform. */
  function DefaultConfigPath(os: Os, user: Option<string>): (r: PathResult)
    ensures r.Panic? <==> user.None? || os.OtherOs?
    ensures r.Path? ==> EndsInSlash(r.path)
    ensures r.Path? && os.Linux? ==> (StartsWith(r.path, "/root/") <==> Contains(user.value, "root"))
  {
    match user
    case None => Panic(NO_USER)
    case Some(u) =>
      match os
      case Linux =>
        if Contains(u, "root") then Path("/root/.config/phantom_ci/")
        else
          var p := "/home/" + u + "/.config/phantom_ci/";
          assert p[1] == 'h';
          Path(p)
      case MacOs =>
        if Contains(u, "root") then Path("/var/root/.config/phantom_ci/")
        else Path("/Users/" + u + "/Library/Application\\ Support/com.helloimalemur.phantom_ci/")
      case OtherOs(_) => Panic(BAD_PLATFORM)
  }

  /**
   * The directory `default_repo_work_path_remove_cache_data` removes, as
   * written: exactly the user name `root` selects the root cache, and on
   * Linux any other user name is returned unchanged as the path.
   */
  function RemoveCacheDataPathAsWritten(os: Os, user: Option<string>): (r: PathResult)
    ensures r.Panic? <==> os.OtherOs? || (user.None? && !os.OtherOs?)
  {
    match os
    case Linux =>
      if user == Some("root") then Path("/root/.cache/phantom_ci/")
      else if user.Some? then Path(user.value)
      else Panic(NO_USER)
    case MacOs =>
      if user == Some("root") then Path("/var/root/.cache/phantom_ci/")
      else if user.Some? then Path("/Users/" + user.value + "/Library/Caches/com.helloimalemur.phantom_ci/")
      else Panic(NO_USER)
    case OtherOs(_) => Panic(BAD_PLATFORM)
  }

  /** On Linux a non-root user's cache reset targets a relative path named after the user. */
  lemma RemoveCacheDataAsWrittenIsRelative()
    ensures RemoveCacheDataPathAsWritten(Linux, Some("alice")) == Path("alice")
    ensures !IsAbsolute(RemoveCacheDataPathAsWritten(Linux, Some("alice")).path)
  {
  }

  /**
   * The cache reset path with the Linux non-root case giving the user's
   * cache directory, as macOS does and as every other path function does.
   */
  function RemoveCacheDataPath(os: Os, user: Option<string>): (r: PathResult)
    ensures r.Panic? <==> user.None? || os.OtherOs?
    ensures r.Path? ==> IsAbsolute(r.path) && EndsInSlash(r.path)
    ensures !(os.Linux? && user.Some? && user.value != "root") ==> r == RemoveCacheDataPathAsWritten(os, user)
  {
    match os
    case Linux =>
      if user == Some("root") then Path("/root/.cache/phantom_ci/")
      else if user.Some? then Path("/home/" + user.value + "/.cache/phantom_ci/")
      else Panic(NO_USER)
    case MacOs => RemoveCacheDataPathAsWritten(os, user)
    case OtherOs(_) => Panic(BAD_PLATFORM)
  }

  /**
   * The corrected reset path is the base cache directory whenever the
   * `eq("root")` and `contains("root")` tests agree.
   */
  lemma RemoveCacheDataIsDeleteBase(os: Os, user: string, name: string)
    requires !os.OtherOs?
    requires user == "root" || !Contains(user, "root")
    ensures RemoveCacheDataPath(os, Some(user)) == DefaultRepoWorkPathDelete(os, Some(user), name)
  {
    if user == "root" {
      assert OccursAt(user, "root", 0);
    }
  }

  /**
   * A user name that contains `root` without being `root` is cached under
   * `/root`, but `reset` removes the bare user name as written and its
   * home directory once corrected.
   */
  lemma RootTestsDisagree()
    ensures DefaultRepoWorkPathDelete(Linux, Some("groot"), "r") == Path("/root/.cache/phantom_ci/")
    ensures RemoveCacheDataPathAsWritten(Linux, Some("groot")) == Path("groot")
    ensures RemoveCacheDataPath(Linux, Some("groot")) == Path("/home/groot/.cache/phantom_ci/")
  {
    assert OccursAt("groot", "root", 1);
  }
}
