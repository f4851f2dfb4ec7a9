/**
 * The environment the daemon reads but does not control: the user name and
 * operating system, the clock, subprocesses, the file system and the two
 * configuration files. Each is an input value; a subprocess is a pure
 * function from the command line to its result.
 */
module Env {
  import opened Wrappers

  /** `std::env::consts::OS`. */
  datatype Os = Linux | MacOs | OtherOs(name: string)

  /** A subprocess invocation; `cwd` is set by `current_dir`. */
  datatype Command = Command(program: string, args: seq<string>, cwd: Option<string>)

  /**
   * The result of `Command::output()`: either the process could not be
   * started, or it ran and exited with a status, optional exit code and
   * captured output (already decoded with `from_utf8_lossy`).
   */
  datatype Output =
    | SpawnError(reason: string)
    | Exited(success: bool, code: Option<int>, stdout: string, stderr: string)

  /** One table of `Repo.toml`: the repository path and optional branch. */
  datatype RepoEntry = RepoEntry(path: string, targetBranch: Option<string>)

  /** How a call ends: normally, by `exit(code)`, or by a panic. */
  datatype Termination = Completed | Exit(code: int) | Panicked(message: string)

  /**
   * Everything read from outside:
   * - `user`: `whoami::username()`, `None` when the lookup fails;
   * - `os`, `host`: the platform and `hostname()`;
   * - `now`, `nowPlain`: the current local time as `to_rfc3339()` and as
   *   `to_string()`; `timestamp`: `Local::now().timestamp()`;
   * - `run`: the result of running a command;
   * - `pathExists`: whether a path exists; `createDir`: whether
   *   `create_dir_all` succeeds for it;
   * - `workflow`: the `(key, run)` pairs of a workflow file, in the order the
   *   map deserialised from it iterates them (empty when it cannot be read);
   * - `repoConfig`: the tables of a `Repo.toml` in iteration order, `None`
   *   when the file cannot be loaded or deserialised.
   */
  datatype World = World(
    user: Option<string>,
    os: Os,
    host: string,
    now: string,
    nowPlain: string,
    timestamp: int,
    run: Command -> Output,
    pathExists: string -> bool,
    createDir: string -> bool,
    workflow: string -> seq<(string, string)>,
    repoConfig: string -> Option<seq<(string, RepoEntry)>>)
}
