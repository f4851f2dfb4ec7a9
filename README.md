# phantomCI poller core in Dafny

phantomCI is a single-node continuous-integration daemon. It keeps a table
of git repositories read from `Repo.toml`, each with its work directory
under the user's cache (a clone), its target branch and the last commit
SHA it has seen. It polls them on a fixed interval: for each repository,
stash, check out the target branch, reset, fetch and pull. It then reads
`HEAD` with `git rev-parse`, and when the SHA differs from the one
recorded it marks the repository as triggered. A triggered repository
has its workflow file run step by step. That file is
`workflow/<branch>.toml` under the directory `default_repo_work_path`
gives for the last segment of the repository path
(`.../.cache/phantom_ci/<segment>/`), not under the clone directory
(`.../.cache/phantomCI/<segment>`):

- the steps are ordered by numeric key;
- each is split on whitespace and run as a subprocess in the work
  directory;
- the first failure stops the run.

Every step is logged to the `job_logs` SQLite table. A step with no
command word is not run or sent and ends the run as failed; every other
step is sent, with an awaited `send`, to an in-process channel of capacity 100 that is drained
only after the whole polling pass. A webhook message (Slack) is sent at the
start of a run, on each failure and at the close. The job row of the
repository in the `jobs` table gets its final status and finish time.

The model keeps the program's structure, one Dafny module per unit:

- `Wrappers`: `Option`.
- `Text`: the Rust `str` calls the daemon makes: `contains`,
  `replace(pat, "")`, `split('/').last()`, `trim`, `split_whitespace`,
  `lines`, `truncate`, integer `parse` and formatting, and UTF-8 byte
  lengths.
- `Env`: the environment as an input value. It holds the user name,
  platform, host, clock, the configuration files, and a
  subprocess oracle `run: Command -> Output`.
- `Util`: the cache and configuration directories (`src/util/mod.rs`).
- `Slack`: the Slack payload (`src/webhook/slack.rs`), with a JSON string
  decoder (section 7 of RFC 8259) that it is proved against.
- `Messages`: the messages a workflow reports and the bounded `mpsc`
  channel, as a class `Channel` over a `seq` buffer.
- `Jobs`: the `jobs` and `job_logs` tables, as a class `Database` whose
  methods update its `rows`, `nextId` and `logs` fields
  (`src/database/job.rs`).
- `Repository`: the `Repo` record and the pure parts of
  `src/repo/mod.rs`: default and new, the work directory, reading and
  writing `Repo.toml`, the clone parent directory, and the remote `HEAD`
  branch.
- `Workflow`: the workflow executor (`src/parser/mod.rs`).
- `Git`: `fetch_pull` and `fetch_latest_sha` (`src/scm/mod.rs`).
- `RepoSetup`: `prepare`, `clone_repo` and `get_default_branch`
  (`src/repo/mod.rs`).
- `App`: `AppState` of `src/app/mod.rs`, as a class over a
  `map<string, Repo>`.
- `Scm`: change detection, the trigger, and a polling pass over the
  repository table (`src/scm/mod.rs`).
- `State`: `AppState` of `src/app/state.rs`: start-up, job seeding, the
  command line, state-file paths, and the polling tick with the channel
  drain.

Where the two `AppState` variants and the two generations of
`scm/mod.rs` signatures differ, each is modelled as written. In the model,
`parse_workflow` takes the channel, `check_repo_triggered` passes it on,
and `Repo` carries a `name` field, set from the table key of `Repo.toml`.
`Repo::new` takes the six arguments its call site in `src/app/state.rs`
passes. `default_repo_work_path` returns a `String` (`src/util/mod.rs:59-70`),
so the `.unwrap()` its callers apply (`src/scm/mod.rs:104`,
`src/app/state.rs:83`, `267` and `279`) is dropped: with an unknown user
those callers get an empty base instead of a panic.

The daemon's work directories use two spellings. `src/repo/mod.rs`
clones into `.cache/phantomCI/`; `src/util/mod.rs` and the workflow path
use `.cache/phantom_ci/`. The model keeps both.

## Model

| member | source | states |
|---|---|---|
| Text.RemoveAll | src/repo/mod.rs:220 | `replace(pat, "")` never lengthens the string and leaves a string without `pat` unchanged; `RemoveAllSkip`, `RemoveAllLeading` and `RemoveAllTrailingSegment` pin down what is removed |
| Text.RemoveAllChar | src/repo/mod.rs:184-186 | removing a one-character pattern deletes exactly the occurrences of that character |
| Text.RemoveAllTrailingSegment | src/repo/mod.rs:184-186 | removing the last path segment from a directory that does not otherwise contain it leaves exactly the directory |
| Text.LastSegment | src/repo/mod.rs:67 | `split('/').last()` is the slash-free suffix after the last `/`, or the whole string when there is none |
| Text.LastSegmentAfterSlash | src/repo/mod.rs:145-168 | the last segment of `p/n` is `n` when `n` has no slash |
| Text.ParentDir | src/app/state.rs:289-290 | the directory part and the last segment together give back the path, and the directory part is empty or ends in `/` |
| Text.TrimStart | src/scm/mod.rs:25 | drops exactly the leading whitespace: the rest is a suffix starting with a non-whitespace character |
| Text.TrimEnd | src/scm/mod.rs:25 | drops exactly the trailing whitespace: the rest is a prefix ending with a non-whitespace character |
| Text.Trim | src/repo/mod.rs:223 | the trimmed string is no longer and neither starts nor ends with whitespace |
| Text.TrimStartSkip | src/repo/mod.rs:223 | whitespace followed by a string that does not start with whitespace trims to that string |
| Text.SplitWhitespace | src/parser/mod.rs:62 | every token is non-empty and holds no whitespace |
| Text.SplitWhitespaceKeepsText | src/parser/mod.rs:62-74 | the tokens concatenated are the input with its whitespace removed |
| Text.SplitWhitespaceEmpty | src/parser/mod.rs:63-72 | there is no first token exactly when the command is all whitespace (the "Invalid empty command" case) |
| Text.SplitJoinBySpace | src/parser/mod.rs:62-74 | splitting non-empty whitespace-free tokens joined by spaces gives back the tokens |
| Text.Lines | src/repo/mod.rs:215 | no line holds a newline |
| Text.IndexOfFirst | src/repo/mod.rs:215 | the first `\n` found is the one right after a prefix free of it |
| Text.LinesOfTerminated | src/repo/mod.rs:215 | splitting newline-terminated lines that hold no `\n` and do not end in `\r` gives those lines back |
| Text.Truncate | src/app/state.rs:264 | `truncate(n)` keeps all of a string that fits and exactly the first `n` characters of a longer one |
| Text.NatToString | src/app/state.rs:263 | the decimal representation is non-empty and all digits |
| Text.DigitsValueOfNat | src/app/state.rs:263-275 | reading back the decimal representation of `n` gives `n` |
| Text.NatToStringLength | src/app/state.rs:263-264 | a number below `10^k` and at least `10^(k-1)` has exactly `k` digits |
| Text.ParseUnsigned | src/parser/mod.rs:28 | an accepted unsigned number is within the type's maximum |
| Text.ParseNatToString | src/parser/mod.rs:28 | the decimal representation of a number within the maximum parses back to that number |
| Text.ParseSigned | src/app/state.rs:275 | an accepted signed number is within the type's range |
| Text.ParseIntToString | src/app/state.rs:275 | the decimal representation of an integer within the range parses back to that integer |
| Text.ByteLen | src/parser/mod.rs:93 | `str::len` counts UTF-8 bytes, at least one per character |
| Text.ByteLenAppend | src/parser/mod.rs:93 | byte length is additive over concatenation |
| Text.ByteLenAscii | src/parser/mod.rs:93 | an ASCII string has one byte per character |
| Text.CharsWithin | src/parser/mod.rs:93 | the count of leading characters that fit in `n` bytes never exceeds the string's length |
| Text.CharsWithinBounds | src/parser/mod.rs:93 | that count gives the longest character prefix whose UTF-8 encoding fits in `n` bytes: one more character would not fit |
| Text.CharsWithinAsciiPrefix | src/parser/mod.rs:93 | an ASCII prefix that fits is wholly inside that longest prefix |
| Util.DefaultRepoWorkPath | src/util/mod.rs:59-70 | empty exactly when the user name cannot be read; otherwise a directory ending in `/`, under `/root/` exactly when the user name contains `root`, whose last segment is the repository name |
| Util.DefaultRepoWorkPathDelete | src/util/mod.rs:72-104 | panics exactly when the user name is unknown or the platform is neither Linux nor macOS, with the user-name message when the name is unknown; otherwise a directory ending in `/` |
| Util.DeleteIgnoresName | src/util/mod.rs:72-104 | the delete base does not depend on the repository name |
| Util.WorkPathUnderDeleteBase | src/util/mod.rs:59-85 | on Linux a repository's work path is the delete base followed by its name and `/` |
| Util.DefaultConfigPath | src/util/mod.rs:106-138 | panics exactly when the user name is unknown or the platform is unsupported; otherwise a directory ending in `/`, under `/root/` on Linux exactly when the user name contains `root` |
| Util.RemoveCacheDataPathAsWritten | src/util/mod.rs:17-48 | the reset path as written panics exactly on an unsupported platform or an unknown user |
| Util.RemoveCacheDataAsWrittenIsRelative | src/util/mod.rs:18-26 | for the Linux user `alice` the directory removed is the relative path `alice` |
| Util.RemoveCacheDataPath | src/util/mod.rs:17-48 | the corrected reset path is absolute and ends in `/`, panics in the same cases, and agrees with the code except for a non-root Linux user |
| Util.RemoveCacheDataIsDeleteBase | src/util/mod.rs:17-104 | the corrected reset path is the cache base every repository is deleted from, whenever the two root tests agree |
| Util.RootTestsDisagree | src/util/mod.rs:18-19 | for the user `groot` the delete base is `/root/...` (substring test) while the reset, by the equality test, removes the relative `groot` as written and `/home/groot/...` once corrected |
| Slack.EscapeChar | src/webhook/slack.rs:13 | an escaped character never begins with a bare quote |
| Slack.Escape | src/webhook/slack.rs:13 | escaping never shortens a string |
| Slack.DecodeEscaped | src/webhook/slack.rs:13 | decoding an escaped string followed by its closing quote gives back the string and the rest |
| Slack.ObjectRoundTrip | src/webhook/slack.rs:13 | a one-member JSON object, as `serde_json` writes it, reads back as that member's name and value |
| Slack.BuildSlackPayload | src/webhook/slack.rs:6-14 | the payload parses as a JSON object whose only member is `text`, holding the bold title line and text, or the text alone |
| Slack.PayloadWithTitle | src/webhook/slack.rs:55-59 | with a title, `text` is `*title*`, a newline, then the text |
| Slack.PayloadWithoutTitle | src/webhook/slack.rs:61-66 | without a title, `text` is the text |
| Messages.Offer | src/app/state.rs:232 | offering to a bounded queue appends the messages that fit, in order, and never exceeds the capacity |
| Messages.OfferConcat | src/app/state.rs:232-243 | offering two batches in turn is offering them together |
| Messages.SendAllAsWrittenBlocks | src/parser/mod.rs:118 | awaited sends with no receiver running block exactly when more is sent than there is room for |
| Messages.HundredAndFirstSendBlocks | src/app/state.rs:232-257 | with a capacity of 100 and nothing received during the pass, the 101st send never completes |
| Messages.OfferKeepsDelivered | src/parser/mod.rs:118 | the messages queued before a send blocks are exactly those a non-blocking offer keeps |
| Messages.SendAllAsWrittenDelivers | src/parser/mod.rs:118 | when everything fits, awaited sends deliver every message in order |
| Messages.Channel.constructor | src/app/state.rs:232 | a new channel is empty with one sender |
| Messages.Channel.CloneSender | src/app/state.rs:235 | cloning the sender adds a sender and leaves the queue |
| Messages.Channel.DropSender | src/app/state.rs:246 | dropping a sender removes one and leaves the queue |
| Messages.Channel.TrySend | src/parser/mod.rs:118 | corrected form of the awaited send: the message is queued exactly when there is room, otherwise dropped, and the queue stays within capacity |
| Messages.Channel.TryRecv | src/app/state.rs:249-256 | the oldest message is removed and returned; an empty queue reports `Disconnected` once no sender is left and `Empty` otherwise |
| Jobs.Decode | src/database/job.rs:189-204 | a row reads back as a job exactly when no column is `NULL` and the integers fit `i32`, and the job read encodes back to the row |
| Jobs.DecodeEncode | src/database/job.rs:47-50 | a stored job with `i32` id and priority reads back unchanged |
| Jobs.DecodedAppend | src/database/job.rs:206-212 | reading rows skips unreadable rows and keeps the others in order, over appended tables |
| Jobs.DecodedMembers | src/database/job.rs:206-212 | a job is read exactly when some stored row decodes to it |
| Jobs.UpdateWhere | src/database/job.rs:78-80 | `UPDATE .. WHERE repo AND target_branch` sets the column on exactly the matching rows and leaves the others |
| Jobs.CountWhere | src/database/job.rs:82-83 | the count of rows updated is zero exactly when no row matches the pair |
| Jobs.UpdateShaRows | src/database/job.rs:74-94 | matching rows get the SHA and a fresh `updated_at`; every other row is unchanged |
| Jobs.UpdateStatusRows | src/database/job.rs:96-116 | matching rows get the status and a fresh `updated_at`; every other row is unchanged |
| Jobs.UpdateWithoutMatch | src/database/job.rs:82-88 | with no matching row, an update leaves the table as it was |
| Jobs.InsertJob | src/database/job.rs:41-61 | `add_job` either leaves the table or appends exactly one new row |
| Jobs.MatchingRowIsSeen | src/database/job.rs:63-72 | a readable row for the pair makes `check_exists` report it |
| Jobs.InsertJobKeepsOneRowPerPair | src/database/job.rs:41-72 | adding jobs keeps at most one row per (repo, branch), as long as the rows for that pair are readable |
| Jobs.InsertJobTwice | src/database/job.rs:41-61 | adding the same job twice adds it once |
| Jobs.UnreadableRowAllowsDuplicate | src/database/job.rs:45-46 | a stored row with a `NULL` column is invisible to `check_exists`, so a second row for the pair is inserted |
| Jobs.WithStatus | src/database/job.rs:222-227 | the filter keeps exactly the jobs with the status, and only jobs of the input |
| Jobs.ForPair | src/database/job.rs:229-234 | the filter keeps exactly the jobs of the pair, and only jobs of the input |
| Jobs.WithStatusAppend | src/database/job.rs:222-227 | the status filter keeps the table's order |
| Jobs.ForPairAppend | src/database/job.rs:229-234 | the pair filter keeps the table's order |
| Jobs.Database.GetJobs | src/database/job.rs:183-220 | the jobs returned are the readable rows, in order |
| Jobs.Database.CheckExists | src/database/job.rs:63-72 | true exactly when some readable job has the repository and branch |
| Jobs.Database.AddJob | src/database/job.rs:41-61 | the table becomes `InsertJob` of the old one; the id advances exactly when a row is added |
| Jobs.Database.Execute | src/database/job.rs:78-80 | runs the update on the rows and returns how many matched |
| Jobs.Database.UpdateUpdatedTime | src/database/job.rs:118-137 | sets `updated_at` on the matching rows only |
| Jobs.Database.UpdateStartTime | src/database/job.rs:139-158 | sets `start_time` on the matching rows only |
| Jobs.Database.UpdateFinishedTime | src/database/job.rs:160-179 | sets `finish_time` on the matching rows only |
| Jobs.Database.UpdateSha | src/database/job.rs:74-94 | the table after the SHA update, with `updated_at` refreshed only if a row matched |
| Jobs.Database.UpdateStatus | src/database/job.rs:96-116 | the table after the status update, with `updated_at` refreshed only if a row matched |
| Jobs.Database.GetJobsByStatus | src/database/job.rs:222-227 | the readable jobs with the status, in order |
| Jobs.Database.GetJobsByRepo | src/database/job.rs:229-234 | the readable jobs of the pair, in order |
| Jobs.Database.AddJobLog | src/parser/mod.rs:47-48 | one log entry appended; the jobs table unchanged |
| Repository.Default | src/repo/mod.rs:32-41 | empty path, work directory and workflow file, no SHA, branch `master`, not triggered |
| Repository.New | src/repo/mod.rs:43-59 | every field as given, with the workflow file `workflow.toml` |
| Repository.FindHeadBranch | src/repo/mod.rs:217-221 | none exactly when no line holds `HEAD branch:`; otherwise the first such line with the marker removed |
| Repository.HeadBranchMissing | src/repo/mod.rs:205 | with no marked line the branch stays `master` |
| Repository.HeadBranchFirstMarkedLine | src/repo/mod.rs:215-225 | the branch read from `git remote show` output is the name on the first `  HEAD branch: <name>` line |
| Repository.RemoteHead | src/repo/mod.rs:204-226 | `master` when git cannot be started, otherwise the branch read from its output |
| Repository.GetDefaultBranch | src/repo/mod.rs:204-233 | returns the remote head and sets it as target branch only when the target branch is empty |
| Repository.WorkDirFor | src/repo/mod.rs:145-168 | panics (with `unwrap`'s message) exactly when the user name is unknown; otherwise a path under `/root/` exactly when the user name contains `root`, ending in the given segment |
| Repository.RepoWorkDir | src/repo/mod.rs:145-168 | the work directory ends in the repository path's last segment |
| Repository.RepoWorkDirParent | src/repo/mod.rs:148-166 | the work directory sits directly in the user's `.cache/phantomCI/` |
| Repository.RootWorkDir | src/repo/mod.rs:148-156 | for a root user the work directory is `/root/.cache/phantomCI/<segment>` |
| Repository.FromEntry | src/repo/mod.rs:107-115 | a repository read from a table: key as name, the path, the work directory, `workflow.toml`, no SHA, not triggered, branch defaulting to `master` |
| Repository.FromConfig | src/repo/mod.rs:99-128 | a missing or unreadable file panics with "Config not found !!"; an empty one exits with status 1; an unknown user panics in `repo_work_dir`; otherwise, and only then, one repository per table, in iteration order |
| Repository.GetRepoFromConfig | src/repo/mod.rs:99-128 | the loop over the tables produces exactly `FromConfig` |
| Repository.EntryRoundTrip | src/repo/mod.rs:82-85 | an entry as written reads back as the table name and path |
| Repository.ConfigEntryReadsBack | src/repo/mod.rs:80-85 | the entry written for a repository reads back as its last segment and its path |
| Repository.WriteRepoToConfig | src/repo/mod.rs:80-97 | the entry is appended to an existing file, and nothing happens without one |
| Repository.ConfigEntryIgnoresBranch | src/repo/mod.rs:82-85 | the written entry always says `master`, whatever the repository's branch |
| Repository.CloneParentDirAsWritten | src/repo/mod.rs:184-186 | `replace(last segment, "")` never lengthens the work directory |
| Repository.CloneParentDirAsWrittenMangles | src/repo/mod.rs:184-186 | for a root user and a repository named `c`, the code clones into `/root/.ahe/phantomCI/` instead of `/root/.cache/phantomCI/` |
| Repository.CloneParentDir | src/repo/mod.rs:184-186 | the corrected parent directory plus the last segment is the work directory |
| Repository.CloneParentDirAgrees | src/repo/mod.rs:184-186 | the code and the correction agree when the parent does not contain the segment |
| Repository.CloneCommand | src/repo/mod.rs:187-192 | `git -C <parent> clone <path>` with the corrected parent directory, which is the program's `replace`d one whenever the last segment occurs nowhere in the parent |
| Repository.WebhookTitle | src/repo/mod.rs:67 | the webhook title is the slash-free tail of the path, empty only for an empty path or one ending in `/` |
| Repository.WebhookTitleIsEntryName | src/repo/mod.rs:67-85 | the webhook title is the table name `write_repo_to_config` gives the repository |
| Git.GitIn | src/scm/mod.rs:35-39 | `git -C <dir>` followed by the arguments |
| Git.UntilSpawnError | src/scm/mod.rs:34-68 | a `?` chain issues the commands in order up to and including the first that cannot start, and all of them when each starts |
| Git.FetchPull | src/scm/mod.rs:34-68 | issues stash, checkout, reset, fetch and pull up to the first spawn failure, and succeeds exactly when all five could start |
| Git.FetchPullIgnoresExitStatus | src/scm/mod.rs:34-68 | a git command that exits with failure does not stop the chain |
| Git.FetchPullStopsAtStash | src/scm/mod.rs:35-39 | when `git stash` cannot start, nothing else is issued |
| Git.LatestSha | src/scm/mod.rs:23-31 | a SHA exactly when `rev-parse` ran and succeeded, and then its trimmed output |
| Git.FetchLatestSha | src/scm/mod.rs:12-32 | runs `fetch_pull`, whatever its outcome, then `rev-parse HEAD`, and returns its SHA |
| RepoSetup.Prepared | src/repo/mod.rs:170-181 | preparing records the latest SHA; a missing work directory that can be created is cloned, and its empty target branch replaced by the remote head; nothing else changes |
| RepoSetup.Branched | src/repo/mod.rs:173-178 | the repository is unchanged or, after a clone with no target branch, given the remote head |
| RepoSetup.CloneIfMissing | src/repo/mod.rs:173-178 | clones (with the corrected clone command) and asks the remote head only when the directory is missing and can be created |
| RepoSetup.Prepare | src/repo/mod.rs:170-181 | the prepared repository and the commands issued, clone first (corrected clone command), then fetch and `rev-parse` |
| RepoSetup.PreparedTwice | src/repo/mod.rs:170-181 | preparing an already cloned repository twice is preparing it once |
| RepoSetup.PreparedKeepsBranch | src/repo/mod.rs:228-230 | a repository with a target branch keeps it |
| Workflow.ParseUsize | src/parser/mod.rs:28 | a key parses to a number within `usize` |
| Workflow.InsertStep | src/parser/mod.rs:30 | inserting into the ordered map keeps it ascending and maps the key to the new command, every other key as before |
| Workflow.Ordered | src/parser/mod.rs:24-36 | the steps are in strictly ascending key order |
| Workflow.OrderSteps | src/parser/mod.rs:26-36 | the loop builds exactly the ordered steps |
| Workflow.OrderedKeys | src/parser/mod.rs:27-35 | a step exists for a number exactly when some key parses to it; non-numeric keys are ignored |
| Workflow.OrderedLastWins | src/parser/mod.rs:27-31 | when two keys parse to one number, the later command is kept |
| Workflow.OrderedAscendingExample | src/parser/mod.rs:26-36 | keys `2`, `0`, `1` run in the order 0, 1, 2 |
| Workflow.OrderedCollapseExample | src/parser/mod.rs:27-31 | keys `1` and `01` are one step |
| Workflow.PreviewAsWritten | src/parser/mod.rs:91-94 | output of at most 4000 bytes is kept whole; longer output panics unless byte 4000 is a character boundary |
| Workflow.PreviewAsWrittenPanics | src/parser/mod.rs:93 | 3999 ASCII bytes followed by a two-byte character make the code panic |
| Workflow.Preview | src/parser/mod.rs:91-94 | corrected: output of at most 4000 bytes is kept whole; longer output is cut at the last character boundary within 4000 bytes and followed by an ellipsis |
| Workflow.PreviewBounded | src/parser/mod.rs:92 | a preview is at most 4003 bytes and 4001 characters |
| Workflow.PreviewAgrees | src/parser/mod.rs:91-94 | wherever the code does not panic it gives the corrected preview |
| Workflow.PreviewAscii | src/parser/mod.rs:93 | on ASCII output the preview is the first 4000 characters and an ellipsis, and the code does not panic |
| Workflow.StepCommand | src/parser/mod.rs:62-79 | the first token is the program and the rest its arguments, run in the work directory |
| Workflow.RunStep | src/parser/mod.rs:56-142 | an empty command is logged with the plain timestamp, is not queued and fails; any other step is queued and logged, alerts exactly when it fails, and succeeds exactly when the process ran with success status; output is cut with the corrected preview |
| Workflow.RunAll | src/parser/mod.rs:56 | one result per step, in order |
| Workflow.UntilFailure | src/parser/mod.rs:124-140 | the executed prefix: every step but the last succeeded, and a shorter prefix ends at a failure |
| Workflow.UntilFailureAt | src/parser/mod.rs:124-140 | the run stops right after the first failure |
| Workflow.ExecutedStopsAt | src/parser/mod.rs:124-140 | the steps executed are those up to and including the first failure |
| Workflow.ExecutedAll | src/parser/mod.rs:56-143 | when every step succeeds, every step is executed |
| Workflow.LogsOf | src/parser/mod.rs:115-116 | one log entry per executed step, with its message and time |
| Workflow.Step | src/parser/mod.rs:56-142 | one step: its log entry appended, its message offered to the queue with the corrected `try_send` if queued, its alert returned, the jobs table unchanged |
| Workflow.RunSteps | src/parser/mod.rs:56-143 | runs the steps up to the first failure: logs and queue messages (corrected: offered, not awaited) of the executed steps, alerts of its failure, and "all ok" exactly when every step succeeds |
| Workflow.SucceedsIffExecutedOk | src/parser/mod.rs:38-51 | the job succeeds exactly when there is a step and every executed step is ok; with no steps nothing runs |
| Workflow.StepAlerts | src/parser/mod.rs:119-122 | only the last executed step can alert (the failing one), and a fully successful run sends no step alert |
| Workflow.CloseJob | src/parser/mod.rs:154-157 | status written (with `updated_at` if a row matched), finish time written, the closing log entry appended |
| Workflow.ParseWorkflow | src/parser/mod.rs:14-172 | the jobs table ends with status `success` exactly when there is a step and all succeed, otherwise `failed`; the log holds the executed steps then the closing entry; the queue gets the executed steps' messages as offered by the corrected `try_send`; the webhook messages are the start, the failure and the close |
| Scm.ChangeChecked | src/scm/mod.rs:71-94 | a fetched SHA is recorded, and triggers exactly when it differs from the recorded one; a failed fetch changes nothing |
| Scm.FirstFetchTriggers | src/scm/mod.rs:76-87 | a repository with no SHA yet is triggered by its first fetch |
| Scm.UnchangedWithoutNews | src/scm/mod.rs:73-92 | no SHA, or the same SHA, leaves the repository as it was |
| Scm.ChangeCheckedIdempotent | src/scm/mod.rs:71-94 | checking the same SHA twice is checking it once |
| Scm.CheckRepoChanges | src/scm/mod.rs:71-94 | fetches and records the latest SHA, triggering on a change |
| Scm.WorkflowPath | src/scm/mod.rs:102-106 | the workflow file is a `.toml` file under the work path of the repository's last segment |
| Scm.CheckRepoTriggered | src/scm/mod.rs:97-117 | a triggered repository has its trigger cleared and, when its workflow file exists, the workflow run (with the corrected send and preview); otherwise nothing is written, queued or sent |
| Scm.Polled | src/scm/mod.rs:126-129 | after one visit the trigger is consumed and the latest SHA, if fetched, recorded; nothing else changes |
| Scm.Visit | src/scm/mod.rs:126-129 | one visit: change check then trigger check, with the table, log, queue (corrected offers) and alerts of that visit |
| Scm.InOrder | src/scm/mod.rs:126 | the repositories in the table's iteration order |
| Scm.PollPass | src/scm/mod.rs:125-130 | every repository of the table is visited once, in iteration order, and written back polled; the table's keys are unchanged; the queue holds the corrected offers, so the pass never blocks |
| Scm.PassStep | src/scm/mod.rs:126-129 | a pass extended by one visit |
| Scm.VisitedAll | src/scm/mod.rs:125-130 | after visiting every key in order every entry is polled |
| Scm.PollRepos | src/scm/mod.rs:120-134 | one tick of `poll_repos` replaces every repository by its polled form and keeps the rest of the state, with the corrected offers |
| Scm.PassConsumesTriggers | src/scm/mod.rs:125-130 | after a pass no repository is triggered |
| App.Added | src/app/mod.rs:94-100 | adding keeps every existing entry and inserts the new one only under a new name |
| App.FirstNamed | src/app/mod.rs:81-85 | the first repository of a list with the name, or the length when there is none |
| App.AddedAll | src/app/mod.rs:81-85 | offering a list adds exactly its names and keeps every existing entry |
| App.AddedAllNew | src/app/mod.rs:81-85 | a name added by a list holds the first repository of that name |
| App.Reconciled | src/app/mod.rs:75-92 | after reconciling, the table has exactly the configured names, and an entry already tracked keeps its old value |
| App.ReconciledNew | src/app/mod.rs:75-92 | a newly tracked name holds its first configured repository, prepared |
| App.ReconciledIsDropped | src/app/mod.rs:75-92 | offering the configured repositories and then removing the left-out names results in the reconciled table |
| App.AppState.constructor | src/app/mod.rs:33-39 | no repositories, interval 15, no database connection |
| App.AppState.GetSerializable | src/app/mod.rs:65-69 | the snapshot holds the repository table |
| App.AppState.DeserializeRestore | src/app/mod.rs:70-72 | the table becomes the snapshot's |
| App.AppState.AddRepo | src/app/mod.rs:94-100 | the repository is inserted only if its name is new |
| App.AppState.PrepareAndAdd | src/app/mod.rs:82-84 | the prepared repository is inserted only if its name is new |
| App.AppState.OfferConfigured | src/app/mod.rs:79-85 | every configured repository prepared and offered, and the left-out set loses every configured name |
| App.AppState.DropLeftOut | src/app/mod.rs:86-90 | exactly the left-out names are removed; every other entry is unchanged |
| App.AppState.AddReposFromConfig | src/app/mod.rs:75-92 | a configuration that stops the process leaves the table; otherwise the table becomes the reconciled one |
| State.ShortStamp | src/app/state.rs:263-264 | the state stamp is the timestamp when it has at most eight characters and exactly its first eight otherwise, digits or a sign, and slash-free |
| State.StatePath | src/app/state.rs:262-270 | the state file is under the `.state` work path and named by the stamp |
| State.StampParses | src/app/state.rs:275-276 | the stamp always parses as an `i32` and the decrement cannot overflow |
| State.StampValue | src/app/state.rs:275 | the stamp's value fits `i32` with room for the decrement |
| State.PreviousStatePath | src/app/state.rs:272-282 | the previous state file is under the `.state` work path and named by the stamp minus one |
| State.TenDigitStamp | src/app/state.rs:263-281 | for a ten-digit timestamp the stamp is the timestamp divided by 100, and the previous one that minus one |
| State.SaveStateDir | src/app/state.rs:289-290 | the directory taken from the state path is no longer than it |
| State.SaveStateDirIsStateDir | src/app/state.rs:289-290 | when the `.state` path does not contain the stamp, the directory created is that path |
| State.SeedJob | src/app/state.rs:187-200 | the seed job has the repository's path, branch, priority 0 and SHA (empty when none) |
| State.SeedOne | src/app/state.rs:183-202 | a job row is added for the repository unless one already exists |
| State.Seeded | src/app/state.rs:177-203 | seeding only appends, at most one row per repository, and the id advances with each row |
| State.NewRowReadable | src/app/state.rs:187-201 | the row seeded for a repository can be read back |
| State.SeedOneCovers | src/app/state.rs:183-202 | after seeding, `check_exists` holds for the repository |
| State.SeededCovers | src/app/state.rs:177-203 | after start-up every configured repository has a job row |
| State.SeededKeepsOneRowPerPair | src/app/state.rs:177-203 | seeding keeps at most one row per pair and every row readable |
| State.AddedRepo | src/app/state.rs:73-87 | the repository built by `add` is named by the last segment of its path, with the given branch, no SHA, not triggered |
| State.ProcessArguments | src/app/state.rs:55-137 | `add` writes an entry exactly when both path and branch are given and non-empty; a missing argument or an empty branch exits with 1; only `reset` removes a cache, the corrected directory; start-up continues exactly with no command or with `add` of an empty path and a non-empty branch |
| State.AddWritesMasterEntry | src/app/state.rs:64-90 | `add` with a path and branch exits 0 having appended an entry that says `master` whatever the branch, and that reads back as the last segment and path |
| State.ResetRemovesCache | src/app/state.rs:124-126 | `reset` panics exactly when the user or platform is unknown, and otherwise removes the corrected cache directory, absolute, which is the program's directory except for a non-root Linux user |
| State.Drain | src/app/state.rs:248-257 | every queued message is received in order, and the loop ends on `Empty` while a sender lives, `Disconnected` otherwise |
| State.AppState.constructor | src/app/state.rs:39-43 | no repositories, interval 15, a database connection |
| State.AppState.GetSerializedState | src/app/state.rs:164-168 | the snapshot holds the repository table |
| State.AppState.SetDeserializeState | src/app/state.rs:169-171 | the table becomes the snapshot's |
| State.AppState.AddRepoToState | src/app/state.rs:212-218 | the repository is inserted only if its name is new |
| State.AppState.PrepareAndSeed | src/app/state.rs:180-202 | the prepared repository inserted if new, and a job row seeded for it unless one exists |
| State.AppState.OfferConfigured | src/app/state.rs:177-203 | every configured repository prepared, offered and seeded, and the left-out set loses every configured name |
| State.AppState.DropLeftOut | src/app/state.rs:204-208 | exactly the left-out names are removed |
| State.AppState.AddReposFromConfig | src/app/state.rs:173-210 | the table becomes the reconciled one and the jobs table the seeded one, or nothing changes when the configuration stops the process |
| State.AppState.Start | src/app/state.rs:36-53 | start-up reconciles the table with the configuration and seeds the jobs table (both left unchanged when loading it stops the process), keeps the interval, connection and job log, and then handles the command line, `reset` removing the corrected directory |
| State.AppState.PollTick | src/app/state.rs:234-257 | one tick: a polling pass over the table with the corrected offers, then every queued message received and the queue empty |
| State.PollRepos | src/app/state.rs:224-259 | after any positive number of ticks, each with the corrected offers, the table keeps its keys and no repository is triggered |

## Left out

- Subprocesses, SQLite, the file system, environment variables and the
  clock are inputs (`Env.World`): a command's output, whether a path
  exists or a directory can be created, the contents of `Repo.toml` and
  of workflow files, the time. The world is fixed for the length of one
  call; time does not advance inside a run.
- Webhooks are not sent. The messages a run would send are returned, in
  order. Discord and custom webhooks, and the `curl` invocation of
  `send_slack`, are not part of this model.
- Text formatting of messages, durations and elapsed times is not
  modelled. A message is a datatype holding the values its text is made
  from.
- The iteration order of a `HashMap` is an input: the order in which
  `Repo.toml`'s tables and a workflow file's keys arrive, and the order
  of the polling pass.
- Mutexes, `Arc`, `async`/`await` and the tokio ticker are left out. A
  tick is a call, and `State.PollRepos` runs a finite list of ticks in
  place of the endless loop.
- `GIT_SSH_COMMAND`, the `.git` check after a clone and its
  `remove_dir`, and every `create_dir_all` side effect are left out.
  Only whether the work directory can be created is modelled.
- `create_default_config`, `configure_systemd` and the `list`
  subcommand's printing are left out. The options parser is an input
  (`CliCommand`) following the variants `src/app/state.rs` matches on.
- `load_repos_from_config`, which `src/app/state.rs:4` imports from
  `crate::repo`, is not defined in `src/repo/mod.rs`; it is modelled as
  `get_repo_from_config`.
- `get_command_from_config` is the world's `workflow` map: an unreadable
  file gives no commands.
- `restore_state` and `save_state` are modelled only as far as their
  paths (`State.StatePath`, `State.PreviousStatePath`,
  `State.SaveStateDir`); reading, writing and removing the files is
  left out.
- The random fallback of `repo_work_dir` is left out:
  `split('/').last()` always yields a segment.
- `BufRead::lines` failing on invalid UTF-8 (the `unwrap` in
  `get_default_branch`) is left out: output is already decoded text.
- The SQLite connection failing, and the panics in `AppState::new` when
  it does, are left out: the database is always present.
- Text.Trim: its contract states only that both ends are trimmed and
  the length does not grow. What it removes is stated by
  `Text.TrimStartSkip` and `Repository.TrimPadded` where it is used.
- Scm.WorkflowPath, State.AddedRepo, State.StatePath,
  State.PreviousStatePath, State.SaveStateDir: these read
  `default_repo_work_path` as the `String`-returning function of
  `src/util/mod.rs:59-70`, which gives `""` when the user name is unknown.
  The program calls `.unwrap()` on it (`src/scm/mod.rs:104`,
  `src/app/state.rs:83`, `267`, `279`), which was written against an
  `Option`-returning version that would panic there. The model does not
  panic: with an unknown user the workflow path is the relative
  `workflow/<branch>.toml`, the added repository's work directory is
  empty, and the state paths are the bare stamp.
- State.SaveStateDirIsStateDir: proved only when the `.state` path does
  not contain the stamp. Otherwise `replace` also removes the earlier
  occurrences, as in the clone-parent-directory finding.
- State.PollRepos: states only the keys and the cleared triggers over
  several ticks. Each tick's full effect is `State.AppState.PollTick`.
  Every tick is proved to complete because the model uses the corrected
  send and preview; the program's ticks can hang or panic.
- State.ProcessArguments: `reset`'s service stop and start and
  `exit(0)` are left out; the outcome holds the directory removed. That
  directory is the corrected one of the reset-path finding
  (`Util.RemoveCacheDataPath`), not the relative user name the program
  removes for a non-root Linux user.
- State.ResetRemovesCache: states the corrected reset directory; the
  program's relative directory for a non-root Linux user is stated by
  `Util.RemoveCacheDataAsWrittenIsRelative`.
- State.AppState.Start: handles `reset` through `State.ProcessArguments`,
  so it removes the corrected directory.
- Repository.CloneCommand: uses the corrected clone directory of the
  clone-parent finding (`Repository.CloneParentDir`). The program's
  `replace` differs when the last segment also occurs in the parent
  (`Repository.CloneParentDirAsWrittenMangles`); where it does not, the
  contract states the two commands are equal.
- RepoSetup.CloneIfMissing: issues `Repository.CloneCommand`, so it
  inherits the corrected clone directory.
- RepoSetup.Prepare: issues `Repository.CloneCommand`, so it inherits the
  corrected clone directory.
- Workflow.RunStep: cuts output with the corrected `Workflow.Preview`. The
  program panics at the byte slice when byte 4000 falls inside a
  character (`Workflow.PreviewAsWrittenPanics`); the model logs and queues
  the step instead. Where the slice does not panic the two agree
  (`Workflow.PreviewAgrees`).
- Workflow.Step: uses the corrected preview of `Workflow.RunStep` and
  queues with the corrected `Messages.Channel.TrySend`. The program
  awaits `send`, which never completes once 100 messages are queued in
  one pass (`Messages.HundredAndFirstSendBlocks`); the model drops the
  message instead. While the queue has room the two deliver the same
  messages (`Messages.SendAllAsWrittenDelivers`,
  `Messages.OfferKeepsDelivered`).
- Workflow.RunSteps: runs `Workflow.Step`, so it neither panics on the
  preview nor blocks on a full queue.
- Workflow.ParseWorkflow: runs `Workflow.RunSteps`, so a run always
  closes its job, where the program can panic or block before it does.
- Scm.CheckRepoTriggered: runs `Workflow.ParseWorkflow`, with the same
  corrected preview and send.
- Scm.Visit: runs `Scm.CheckRepoTriggered`, with the same corrected
  preview and send.
- Scm.PollPass: every visit completes and the pass writes the table
  back. In the program a pass that queues more than 100 messages hangs
  on the 101st, and the later repositories are never visited.
- Scm.PollRepos: one tick is `Scm.PollPass`, so it always completes.
- State.AppState.PollTick: a tick always reaches the drain; in the
  program a pass that queues more than 100 messages never does.

## Findings

| source | as written | input that shows it | evidently intended | confidence | as-written member | corrected member |
|---|---|---|---|---|---|---|
| src/parser/mod.rs:93 | `&s[..4000]` slices at byte 4000, which panics when that byte is inside a character | stdout of 3999 ASCII bytes followed by `é` | cut at the last character boundary within 4000 bytes | not executed | Workflow.PreviewAsWrittenPanics | Workflow.Preview |
| src/util/mod.rs:20-26 | for a non-root Linux user the directory removed by `reset` is the bare user name, a relative path | Linux user `alice`: removes `./alice` | `/home/alice/.cache/phantom_ci/`, as `default_repo_work_path_delete` uses | not executed | Util.RemoveCacheDataAsWrittenIsRelative | Util.RemoveCacheDataPath |
| src/app/state.rs:232 | a channel of capacity 100 whose receiver runs only after the whole pass, while each step's `send().await` is awaited during it | one polling pass whose workflows run 101 steps | sends that cannot block the pass; with `try_send` extra messages are dropped | not executed | Messages.HundredAndFirstSendBlocks | Messages.Channel.TrySend |
| src/repo/mod.rs:184-186 | the clone directory removes every occurrence of the last path segment from the work directory | root user, repository `.../c`: clones into `/root/.ahe/phantomCI/` | the work directory without its last segment | not executed | Repository.CloneParentDirAsWrittenMangles | Repository.CloneParentDir |
