# FlowMorph core in Dafny

FlowMorph watches a repository's latest commit, decides whether it touched the CI workflow
definition, has the workflow rewritten for carbon efficiency, and proposes the rewrite
as a pull request that it merges once the host reports it mergeable. This project models
the two pieces of decision logic in that pipeline and proves their properties:

- **Commit classification** (`modules/commit_analysis.py`). It shapes a fetched commit into
  an `author` / `diff_files` / `message` record. It also holds the loop-prevention predicate
  `is_bot_commit` and the workflow-change filter `analyze_commit_diff`.
- **Pull-request lifecycle** (`modules/pr_analyse.py`). `create_pr` resets the reserved
  branch `optimize-workflow`, builds a blob, a tree and a commit on top of `main`, moves the
  branch and opens the pull request. `check_pr_status` is the bounded mergeability poll.
  `merge_pr` merges only on a confirmed mergeable answer.

Files:

| file | module | contents |
|---|---|---|
| `wrappers.dfy` | `Wrappers` | `Option` (Python's `None`) and `Result` (a raised error) |
| `strings.dfy` | `Strings` | Python's `sub in s` on strings, with its index-witness meaning |
| `ordered_dict.dfy` | `OrderedDict`, `Subsequences` | Python `dict` with insertion order and in-place overwrite; order-preserving subsequences |
| `settings.dfy` | `Settings` | the constants both source files hard-code |
| `commit_analysis.dfy` | `CommitAnalysis` | commit records, `diff_files`, `is_bot_commit`, `analyze_commit_diff` |
| `git_model.dfy` | `GitModel` | refs, an append-only object store of blobs, trees and commits, pull requests |
| `pr_analyse.dfy` | `PrAnalyse` | `create_pr` step by step, `check_pr_status` (loop and reference), `merge_pr` |
| `pr_properties.dfy` | `PrProperties` | polling outcome and bounds, idempotent branch reset, reruns |
| `loop_prevention.dfy` | `LoopPrevention` | the orchestrator's own commits are classified as bot commits |

Modelling choices:

- The remote repository is a value `Repo(refs, objects, pulls)`. An object's id is its
  position in the append-only store, so every created object has a fresh id and existing
  objects never change. Content hashing is not modelled.
- A tree is a flat map from full paths to blob ids.
- Answers the program cannot see are parameters. `refused` is the set of `create_pr`'s
  host calls (`PrAnalyse.HostCall`: the branch read and delete, the read of `heads/main`,
  the ref creation, the blob, tree and commit reads and creations, the ref edit, the pull
  creation) that the host refuses during the run, each refusal raising an error.
  `mergeAccepted` is the host's answer to the merge.
- The successive reads of a pull request are a function `remote(number, k)`, the answer to
  the `k`-th `get_pull(number)`. Sleeps are counted rather than timed.
- A Python dict is a sequence of `(key, value)` entries with distinct keys.
  Assigning to a present key keeps its position, which fixes the order of
  `analyze_commit_diff`'s result.

Behaviour of the code the model keeps as written:

- When the poll runs out of attempts, `check_pr_status` returns a fresh read taken after
  the loop (`pr_analyse.py:105`), not the last snapshot observed inside it.
  `PrProperties.PollScenarioTimesOut` shows the fourth read being returned after three
  attempts.
- A refused branch delete is swallowed (`pr_analyse.py:23-24`). The reset then fails when
  the surviving ref blocks `create_git_ref`. `PrAnalyse.ResetBranch` fails in exactly that
  case, with `BranchRefExists`.
- The commit's base tree and single parent are main's tip, read at branch creation.
- Any other refused call of `create_pr` ends the run with `Refused(call)`, and whatever the
  earlier calls did stays on the host: created objects remain, and a run whose pull
  creation is refused leaves the branch moved to the new commit. `PrAnalyse.ReachedMove`
  names the runs that got past the ref edit.
- `analyze_commit_diff` keeps a file whose name contains the workflow path or
  `github/workflows`. That is a substring test, and `CommitAnalysis.IsWorkflowFileIff`
  shows the test is the `github/workflows` check alone.
- A merge refused by the host is caught and only reported (`pr_analyse.py:117-120`). It is
  `MergeFailed` in `PrAnalyse.MergePr`.

## Model

| member | source | states |
|---|---|---|
| Strings.ContainsIffOccurs | modules/commit_analysis.py:34-35 | Python's `sub in s` scan is true exactly when `sub` occurs at some index of `s` |
| Strings.ContainsTransitive | modules/commit_analysis.py:40 | if `s` contains `t` and `t` contains `u` then `s` contains `u` (used to collapse the filter's two tests) |
| OrderedDict.Put | modules/commit_analysis.py:25 | `d[k] = v` adds `k` to the keys, keeps keys distinct, makes `d[k]` equal `v`, leaves every other key's value alone, keeps a present key in its position and appends a new one at the end |
| CommitAnalysis.DiffFiles | modules/commit_analysis.py:23-25 | the `diff_files` dict has distinct keys, exactly the file names of the commit |
| CommitAnalysis.DiffFilesLastWins | modules/commit_analysis.py:24-25 | each file name maps to the (possibly absent) patch of its last entry: a later duplicate overwrites an earlier one |
| CommitAnalysis.DiffFilesInsertionOrder | modules/commit_analysis.py:23-25 | the keys of `diff_files` come in the order their names first appear among the commit's files |
| CommitAnalysis.FetchCommitDetails | modules/commit_analysis.py:18-31 | author is the login, or `"Unknown"` when the commit has no author; message passed through; `diff_files` keyed by exactly the file names, each with its last patch |
| CommitAnalysis.IsBotCommit | modules/commit_analysis.py:33-35 | true exactly when the author is the bot account or the marker occurs at some index of the message |
| CommitAnalysis.IsWorkflowFile | modules/commit_analysis.py:40 | a file name is a workflow file exactly when the workflow path or `github/workflows` occurs at some index of it |
| CommitAnalysis.AnalyzeCommitDiff | modules/commit_analysis.py:37-42 | the result is an order-preserving subsequence of the dict's entries (diffs unchanged), and an entry is in it iff it is in the dict and its name contains the workflow path or `github/workflows`; from a dict with distinct keys it keeps distinct keys, all of them keys of the dict |
| CommitAnalysis.WorkflowPathInWorkflowDir | modules/commit_analysis.py:10 | the monitored workflow path itself contains `github/workflows` |
| CommitAnalysis.IsWorkflowFileIff | modules/commit_analysis.py:40 | the filter's two-part test is equivalent to containing `github/workflows` alone |
| CommitAnalysis.AnalyzeCommitDiffKeeps | modules/commit_analysis.py:37-42 | every entry whose name contains `github/workflows` is kept, and no other |
| CommitAnalysis.NoWorkflowChange | modules/commit_analysis.py:38-42 | the result is empty iff no file name contains `github/workflows` |
| CommitAnalysis.AnalyzeCommitDiffDistinct | modules/commit_analysis.py:39-41 | on a commit's `diff_files`, the result has distinct names, all of them files of the commit |
| CommitAnalysis.BotAuthorIsBotCommit | modules/commit_analysis.py:34 | a commit authored by the bot account is a bot commit whatever its message |
| CommitAnalysis.MarkedMessageIsBotCommit | modules/commit_analysis.py:35 | a commit whose message contains the marker is a bot commit whoever wrote it |
| CommitAnalysis.DeveloperWorkflowEdit | modules/commit_analysis.py:18-42 | a developer's unmarked edit of the deploy workflow is not a bot commit and is reported as exactly that one workflow change |
| CommitAnalysis.BotCommitScenario | modules/commit_analysis.py:33-35 | the bot's own commit with the marker message is a bot commit |
| GitModel.CommitTree | modules/pr_analyse.py:36 | the tree of a commit id is present exactly when the id resolves to a stored commit whose tree id resolves to a stored tree, and it is that tree's entries |
| PrAnalyse.OnlyDeleteRefused | modules/pr_analyse.py:27-57 | `CreatePr`'s condition `refused <= {DeleteRef}` is the same as refusing none of the calls after the delete: the read of `heads/main`, the ref creation, the commit-building calls, the ref edit and the pull creation |
| PrAnalyse.DeleteStaleBranch | modules/pr_analyse.py:19-24 | the branch is gone afterwards unless it existed and the delete was refused, in which case it is untouched; no other ref or object changes |
| PrAnalyse.CreateBranch | modules/pr_analyse.py:26-29 | succeeds iff the read of main is not refused, main exists, the branch does not and the ref creation is not refused, then points the branch at main's tip and returns that sha; on failure nothing changes |
| PrAnalyse.ResetBranch | modules/pr_analyse.py:19-29 | succeeds iff the read of main is not refused and main exists, the branch is absent or its delete is not refused, and the ref creation is not refused; then the branch points at main's tip whatever it pointed at before, its old target discarded |
| PrAnalyse.CommitWorkflow | modules/pr_analyse.py:31-38 | moves no ref and only adds objects, also when a later call is refused; succeeds iff main's tip resolves to a commit and tree and none of the blob, tree and commit calls is refused, and then yields a fresh commit whose only parent is main's tip, whose message is the bot's, and whose tree is main's with the workflow path mapped to a blob of the new content and every other path unchanged |
| PrAnalyse.MoveBranch | modules/pr_analyse.py:39 | the branch points at the new commit; no other ref, object or pull request changes |
| PrAnalyse.OpenPull | modules/pr_analyse.py:51-57 | unless the pull creation is refused, appends one pull request from the branch into main with the fixed title and the given body; refs and objects untouched; on refusal nothing changes |
| PrAnalyse.PublishWorkflow | modules/pr_analyse.py:31-57 | after the reset: objects only added; succeeds iff main's tip resolves and none of the commit-building calls, the ref edit and the pull creation is refused; once the ref was moved the branch holds a fresh overlay commit on main's tip; before the move no ref changes |
| PrAnalyse.CreatePr | modules/pr_analyse.py:17-57 | objects only added and no ref other than the branch touched; succeeds iff main resolves to a commit and tree, the old branch is absent or its delete goes through, and the host refuses no call after the delete; once the ref was moved the branch holds a fresh overlay commit on main's tip; a run that stopped earlier leaves the branch untouched, absent or at main's tip |
| PrAnalyse.Classify | modules/pr_analyse.py:95-97 | a read is ready iff `mergeable` is true, conflicted iff it is false with a state other than `unknown`, and undecided iff `mergeable` is absent or false with state `unknown` |
| PrAnalyse.PollFrom | modules/pr_analyse.py:93-105 | between `attempts + 1` and `n + 1` reads, one sleep fewer than reads, the returned snapshot is the last read, every slept-on read was undecided, an early stop is on a decisive read with its verdict, an exhausted poll is not ready |
| PrAnalyse.Poll | modules/pr_analyse.py:91-105 | between one and `max_attempts + 1` reads, one sleep fewer than reads; a ready answer comes from a mergeable in-loop read; a non-positive `max_attempts` makes exactly one read after the loop and reports not ready |
| PrAnalyse.CheckPrStatus | modules/pr_analyse.py:91-105 | the imperative polling loop returns exactly the reference outcome: at most `max_attempts + 1` reads, one sleep fewer than reads, the snapshot returned is the last read, and ready only on a mergeable read |
| PrAnalyse.MergePr | modules/pr_analyse.py:108-122 | a merge is attempted iff the poll says ready, on the snapshot the poll returned and with the fixed merge message; it is reported merged iff additionally the host accepts; otherwise manual review with the poll's snapshot |
| PrProperties.PollBounded | modules/pr_analyse.py:91-105 | at most `max_attempts` sleeps and `max_attempts + 1` reads, so at most `max_attempts * wait_seconds` of waiting; the extra read happens iff every in-loop read was undecided |
| PrProperties.PollStopsAtFirstDecisive | modules/pr_analyse.py:94-99 | the first mergeable or conflicted in-loop read ends the poll with that read and its verdict; no later read is made |
| PrProperties.PollReadyIff | modules/pr_analyse.py:93-96 | ready iff among the first `max_attempts` reads the first decisive one is mergeable |
| PrProperties.PollPendingContinues | modules/pr_analyse.py:100-104 | an undecided in-loop read never ends the poll: it is followed by a sleep and another read |
| PrProperties.PollExhausted | modules/pr_analyse.py:105 | if every in-loop read is undecided, including when `max_attempts <= 0`, the result is not ready with a fresh read taken after the loop |
| PrProperties.PollScenarioReadyOnThirdRead | modules/pr_analyse.py:91-105 | unknown, unknown, mergeable with three attempts: ready on the third read after ten seconds of sleeping |
| PrProperties.PollScenarioTimesOut | modules/pr_analyse.py:91-105 | unknown on every read with three attempts: not ready, with the fourth read returned |
| PrProperties.ResetBranchIdempotent | modules/pr_analyse.py:19-29 | resetting again, with no call refused, after the branch diverged puts it back at main's tip with the same refs as the first reset |
| PrProperties.RerunBuildsOnMain | modules/pr_analyse.py:17-39 | a rerun after a successful run succeeds when the host refuses none of its calls, and its commit overlays main's tree on main's tip rather than on the stale branch |
| LoopPrevention.CommitMessageIsMarked | modules/pr_analyse.py:13 | the orchestrator's commit message contains the loop-prevention marker |
| LoopPrevention.OwnCommitIsBotCommit | modules/pr_analyse.py:38 | any report of the commit a run leaves on the branch once it moved the ref (success, or only the pull creation refused) is classified as a bot commit, whoever is named as author |
| LoopPrevention.OwnCommitHasMessage | modules/pr_analyse.py:38-39 | once a run moved the ref, the branch names a commit carrying the orchestrator's message |
| LoopPrevention.MergeMessageNeedsBotAuthor | modules/pr_analyse.py:113 | the merge message does not contain the marker, so a commit with that message is a bot commit iff the bot is its author |

## Left out

- `modules/optimize_workflow.py`: an LLM request, CSV bookkeeping and timestamps. It calls foreign code and has no decision logic to model.
- Client setup and transport: token loading, building the client, `get_repo`. A failing `get_pull` in `check_pr_status` would raise out of the poll; the model's reads always answer.
- `get_latest_commit`: a single index into the remote's commit list.
- The `get_commit(sha)` lookup inside `fetch_commit_details`: the model starts from the fetched commit.
- Durations: `time.sleep` and `wait_seconds` appear only as a count of sleeps, scaled by 5 seconds in `PollBounded`.
- Spinners, console output, and the pull-request body template: the body is an opaque string parameter of `CreatePr`.
- The commented-out issue-creation block.
- Git object details: file modes, nested subtrees and content hashing. Trees are flat path maps, and ids are positions in the store.
- Pull request numbers are assigned by the host; the model promises nothing about them.
- The effect of a merge on the host (the merge commit on `main`, closing the pull request): `MergePr` reports the outcome only.
