/** The pull-request lifecycle: recreating the reserved branch, committing the rewritten
    workflow object by object, opening the pull request, polling for mergeability and
    merging only on a confirmed mergeable answer. */
module PrAnalyse {
  import opened Wrappers
  import opened GitModel
  import opened Settings

  /** The ref names the hosting API uses for the two branches. */
  const BranchRef: string := "heads/" + BranchName
  const MainRef: string := "heads/" + MainBranch

  /** The host calls of `create_pr` that the host may refuse, each raising an error. */
  datatype HostCall =
    | DeleteRef      // reading the branch ref and `branch_ref.delete()`; a refusal is swallowed
    | ReadMainRef    // `get_git_ref("heads/main")`
    | CreateRef      // `create_git_ref`
    | CreateBlob     // `create_git_blob`
    | ReadTree       // `get_git_tree(main_sha)`
    | CreateTree     // `create_git_tree`
    | ReadCommit     // `get_git_commit(main_sha)`
    | CreateCommit   // `create_git_commit`
    | EditRef        // `branch_ref.edit`
    | CreatePull     // `create_pull`

  /** The calls that build the commit object by object. */
  const CommitCalls: set<HostCall> := {CreateBlob, ReadTree, CreateTree, ReadCommit, CreateCommit}

  /** `refused <= {DeleteRef}` is the same as refusing none of the calls after the delete. */
  lemma OnlyDeleteRefused(refused: set<HostCall>)
    ensures refused <= {DeleteRef} <==>
              && ReadMainRef !in refused && CreateRef !in refused && CommitCalls !! refused
              && EditRef !in refused && CreatePull !in refused
  {
    if && ReadMainRef !in refused && CreateRef !in refused && CommitCalls !! refused
       && EditRef !in refused && CreatePull !in refused {
      forall h | h in refused ensures h == DeleteRef {
        assert h !in CommitCalls + {ReadMainRef, CreateRef, EditRef, CreatePull};
      }
    }
  }

  /** The remote errors that end a run of `create_pr`. */
  datatype CreateError =
    | MainRefMissing          // reading `heads/main` finds no such ref
    | BranchRefExists         // creating the branch fails because the old ref survived
    | BaseTreeMissing         // main's tip does not resolve to a stored commit and tree
    | Refused(call: HostCall) // the host refuses the call for any other reason

  /** The repository as a step left it, and what the step produced or the error it raised;
      effects of earlier successful calls stay in place when a later call raises. */
  datatype Run<T> = Run(repo: Repo, out: Result<T, CreateError>)

  /** The run got past `branch_ref.edit`: it succeeded or only the pull creation failed. */
  predicate ReachedMove<T>(out: Result<T, CreateError>) {
    out.Success? || out == Failure(Refused(CreatePull))
  }

  /** All refs other than `name` are present in both maps with the same targets. */
  ghost predicate SameRefsExcept(a: map<string, Sha>, b: map<string, Sha>, name: string) {
    forall n :: n != name ==> (n in a <==> n in b) && (n in a && n in b ==> a[n] == b[n])
  }

  // ---------------------------------------------------------------------------
  // create_pr; `refused` is the set of calls the host refuses during the run.

  /** Phase 1: delete the reserved branch if it exists; a refused delete is ignored. */
  function DeleteStaleBranch(r: Repo, refused: set<HostCall>): (r': Repo)
    ensures r'.objects == r.objects && r'.pulls == r.pulls
    ensures SameRefsExcept(r.refs, r'.refs, BranchRef)
    ensures BranchRef in r'.refs <==> BranchRef in r.refs && DeleteRef in refused
    ensures BranchRef in r'.refs ==> r'.refs[BranchRef] == r.refs[BranchRef]
  {
    if BranchRef in r.refs && DeleteRef !in refused then r.(refs := r.refs - {BranchRef}) else r
  }

  /** Phase 2: read main's tip and create the reserved branch there. */
  function CreateBranch(r: Repo, refused: set<HostCall>): (run: Run<Sha>)
    ensures run.repo.objects == r.objects && run.repo.pulls == r.pulls
    ensures run.out.Success? <==>
              ReadMainRef !in refused && MainRef in r.refs && BranchRef !in r.refs && CreateRef !in refused
    ensures run.out.Success? ==>
              run.out.value == r.refs[MainRef] && run.repo.refs == r.refs[BranchRef := r.refs[MainRef]]
    ensures run.out.Failure? ==> run.repo == r
  {
    if ReadMainRef in refused then Run(r, Failure(Refused(ReadMainRef)))
    else if MainRef !in r.refs then Run(r, Failure(MainRefMissing))
    else if BranchRef in r.refs then Run(r, Failure(BranchRefExists))
    else if CreateRef in refused then Run(r, Failure(Refused(CreateRef)))
    else Run(r.(refs := r.refs[BranchRef := r.refs[MainRef]]), Success(r.refs[MainRef]))
  }

  /** The branch reset: phases 1 and 2. It succeeds exactly when main exists and its read
      is not refused, the old branch is absent or its delete goes through, and the create is
      not refused; then the
      branch points at main's tip whatever it pointed at before. */
  function ResetBranch(r: Repo, refused: set<HostCall>): (run: Run<Sha>)
    ensures run.repo.objects == r.objects && run.repo.pulls == r.pulls
    ensures run.out.Success? <==>
              && ReadMainRef !in refused && MainRef in r.refs
              && (BranchRef !in r.refs || DeleteRef !in refused) && CreateRef !in refused
    ensures run.out.Success? ==>
              run.out.value == r.refs[MainRef] && run.repo.refs == r.refs[BranchRef := r.refs[MainRef]]
    ensures run.out.Failure? ==> run.repo.refs == r.refs || run.repo.refs == r.refs - {BranchRef}
  {
    assert BranchRef != MainRef;
    var r1 := DeleteStaleBranch(r, refused);
    assert BranchRef !in r.refs ==> r1 == r;
    assert BranchRef in r.refs && DeleteRef !in refused ==> r1.refs == r.refs - {BranchRef};
    CreateBranch(r1, refused)
  }

  /** `c` is the commit the orchestrator writes on top of `parent`: its only parent is
      `parent`, its message is the orchestrator's, and its tree is `base` with the workflow
      path mapped to a blob holding `content`, every other path of `base` kept as it was
      and no other path added. */
  ghost predicate IsOverlayCommit(r: Repo, c: Sha, parent: Sha, base: map<string, Sha>, content: string) {
    match Lookup(r, c)
    case Some(Commit(t, parents, message)) =>
      && parents == [parent]
      && message == CommitMessage
      && (match Lookup(r, t)
          case Some(Tree(entries)) =>
            && entries.Keys == base.Keys + {WorkflowPath}
            && (forall p :: p in base && p != WorkflowPath ==> entries[p] == base[p])
            && Lookup(r, entries[WorkflowPath]) == Some(Blob(content))
          case _ => false)
    case _ => false
  }

  /** Phase 3: create the blob, read main's tree, create the tree overlaying the blob on it,
      read main's commit and create the commit whose single parent is main's tip. No ref
      moves; objects created before a refused call stay in the store. */
  function CommitWorkflow(r: Repo, mainSha: Sha, content: string, refused: set<HostCall>): (run: Run<Sha>)
    ensures run.repo.refs == r.refs && run.repo.pulls == r.pulls
    ensures ObjectsExtend(r, run.repo)
    ensures run.out.Success? <==> CommitTree(r, mainSha).Some? && CommitCalls !! refused
    ensures run.out.Success? ==>
              run.out.value >= |r.objects| &&
              IsOverlayCommit(run.repo, run.out.value, mainSha, CommitTree(r, mainSha).value, content)
  {
    if CreateBlob in refused then Run(r, Failure(Refused(CreateBlob)))
    else
      var (r1, blob) := Store(r, Blob(content));
      assert CommitTree(r1, mainSha) == CommitTree(r, mainSha) by {
        if mainSha < |r.objects| {
          ExtendKeepsLookup(r, r1, mainSha);
          if Lookup(r, mainSha).value.Commit? && Lookup(r, mainSha).value.tree < |r.objects| {
            ExtendKeepsLookup(r, r1, Lookup(r, mainSha).value.tree);
          }
        }
      }
      if ReadTree in refused then Run(r1, Failure(Refused(ReadTree)))
      else
        match CommitTree(r1, mainSha)
        case None => Run(r1, Failure(BaseTreeMissing))
        case Some(base) =>
          if CreateTree in refused then Run(r1, Failure(Refused(CreateTree)))
          else
            var entries := base[WorkflowPath := blob];
            var (r2, tree) := Store(r1, Tree(entries));
            ExtendTransitive(r, r1, r2);
            if ReadCommit in refused then Run(r2, Failure(Refused(ReadCommit)))
            else if CreateCommit in refused then Run(r2, Failure(Refused(CreateCommit)))
            else
              var (r3, c) := Store(r2, Commit(tree, [mainSha], CommitMessage));
              ExtendKeepsLookup(r1, r2, blob);
              ExtendKeepsLookup(r1, r3, blob);
              ExtendKeepsLookup(r2, r3, tree);
              ExtendTransitive(r, r2, r3);
              Run(r3, Success(c))
  }

  /** Phase 4: move the branch ref to the new commit. */
  function MoveBranch(r: Repo, c: Sha): (r': Repo)
    ensures r'.objects == r.objects && r'.pulls == r.pulls
    ensures SameRefsExcept(r.refs, r'.refs, BranchRef)
    ensures BranchRef in r'.refs && r'.refs[BranchRef] == c
  {
    r.(refs := r.refs[BranchRef := c])
  }

  /** Phase 5: open the pull request from the branch into main. */
  function OpenPull(r: Repo, body: string, refused: set<HostCall>): (run: Run<Pull>)
    ensures run.repo.refs == r.refs && run.repo.objects == r.objects
    ensures run.out.Success? <==> CreatePull !in refused
    ensures run.out.Success? ==>
              && run.repo.pulls == r.pulls + [run.out.value]
              && run.out.value.head == BranchName && run.out.value.base == MainBranch
              && run.out.value.title == PrTitle && run.out.value.body == body
    ensures run.out.Failure? ==> run.repo == r && run.out == Failure(Refused(CreatePull))
  {
    if CreatePull in refused then Run(r, Failure(Refused(CreatePull)))
    else
      var p := Pull(|r.pulls| + 1, BranchName, MainBranch, PrTitle, body);
      Run(r.(pulls := r.pulls + [p]), Success(p))
  }

  /** Phases 3 to 5 on a repository whose branch was just reset to `mainSha`: commit the
      rewritten workflow, move the branch to the commit, open the pull request. */
  function PublishWorkflow(r: Repo, mainSha: Sha, optimizedYaml: string, prBody: string,
                           refused: set<HostCall>): (run: Run<Pull>)
    ensures ObjectsExtend(r, run.repo)
    ensures SameRefsExcept(r.refs, run.repo.refs, BranchRef)
    ensures run.out.Success? <==>
              CommitTree(r, mainSha).Some? && CommitCalls !! refused && EditRef !in refused && CreatePull !in refused
    // Once the ref was moved, the branch holds a fresh overlay commit on `mainSha`.
    ensures ReachedMove(run.out) ==>
              && CommitTree(r, mainSha).Some?
              && BranchRef in run.repo.refs && run.repo.refs[BranchRef] >= |r.objects|
              && IsOverlayCommit(run.repo, run.repo.refs[BranchRef], mainSha,
                                 CommitTree(r, mainSha).value, optimizedYaml)
    // Before the move, no ref changes.
    ensures !ReachedMove(run.out) ==> run.repo.refs == r.refs
    ensures run.out.Success? ==>
              && run.repo.pulls == r.pulls + [run.out.value]
              && run.out.value.head == BranchName && run.out.value.base == MainBranch
              && run.out.value.title == PrTitle && run.out.value.body == prBody
    ensures run.out.Failure? ==> run.repo.pulls == r.pulls
  {
    var built := CommitWorkflow(r, mainSha, optimizedYaml, refused);
    if built.out.Failure? then Run(built.repo, Failure(built.out.error))
    else if EditRef in refused then Run(built.repo, Failure(Refused(EditRef)))
    else
      var moved := MoveBranch(built.repo, built.out.value);
      OpenPull(moved, prBody, refused)
  }

  /** `create_pr`: reset the branch, commit the rewritten workflow on top of main's tip,
      move the branch to that commit, then open the pull request. It succeeds exactly when
      main resolves, the old branch is absent or deletable, and the host refuses no call
      after the delete. */
  function CreatePr(r: Repo, optimizedYaml: string, prBody: string, refused: set<HostCall>): (run: Run<Pull>)
    ensures ObjectsExtend(r, run.repo)
    ensures SameRefsExcept(r.refs, run.repo.refs, BranchRef)
    ensures run.out.Success? <==>
              && MainRef in r.refs && CommitTree(r, r.refs[MainRef]).Some?
              && (BranchRef !in r.refs || DeleteRef !in refused)
              && refused <= {DeleteRef}
    // Whenever the run got as far as moving the ref, the branch holds the overlay commit.
    ensures ReachedMove(run.out) ==>
              && MainRef in r.refs && CommitTree(r, r.refs[MainRef]).Some?
              && BranchRef in run.repo.refs && run.repo.refs[BranchRef] >= |r.objects|
              && IsOverlayCommit(run.repo, run.repo.refs[BranchRef], r.refs[MainRef],
                                 CommitTree(r, r.refs[MainRef]).value, optimizedYaml)
    // A run that stopped before the move leaves the branch absent, untouched or at main's tip.
    ensures !ReachedMove(run.out) ==>
              || run.repo.refs == r.refs
              || run.repo.refs == r.refs - {BranchRef}
              || (MainRef in r.refs && run.repo.refs == r.refs[BranchRef := r.refs[MainRef]])
    ensures run.out.Success? ==>
              && run.repo.pulls == r.pulls + [run.out.value]
              && run.out.value.head == BranchName && run.out.value.base == MainBranch
              && run.out.value.title == PrTitle && run.out.value.body == prBody
    ensures run.out.Failure? ==> run.repo.pulls == r.pulls
  {
    var reset := ResetBranch(r, refused);
    if reset.out.Failure? then Run(reset.repo, Failure(reset.out.error))
    else
      var mainSha := reset.out.value;
      assert CommitTree(reset.repo, mainSha) == CommitTree(r, mainSha) by {
        assert reset.repo.objects == r.objects;
      }
      OnlyDeleteRefused(refused);
      PublishWorkflow(reset.repo, mainSha, optimizedYaml, prBody, refused)
  }

  // ---------------------------------------------------------------------------
  // check_pr_status and merge_pr

  /** One read of a pull request: its number, the `mergeable` flag (absent while the remote
      is still computing it) and the `mergeable_state` string. */
  datatype PullSnapshot = PullSnapshot(number: int, mergeable: Option<bool>, mergeableState: string)

  /** The remote's answers: `remote(n, k)` is what the `k`-th read of pull request `n`
      returns. Mergeability is computed asynchronously, so successive reads may differ. */
  type Reads = (int, nat) -> PullSnapshot

  /** How one read is classified by the polling loop. */
  datatype Verdict = Ready | Conflict | Pending

  function Classify(p: PullSnapshot): (v: Verdict)
    ensures v == Ready <==> p.mergeable == Some(true)
    ensures v == Conflict <==> p.mergeable == Some(false) && p.mergeableState != "unknown"
    // Undecided: no answer yet, or a negative answer whose state is still `unknown`.
    ensures v == Pending <==> p.mergeable.None? || (p.mergeable == Some(false) && p.mergeableState == "unknown")
  {
    match p.mergeable
    case Some(true) => Ready
    case Some(false) => if p.mergeableState != "unknown" then Conflict else Pending
    case None => Pending
  }

  /** What a poll returns, with the number of reads made and sleeps taken. */
  datatype PollOutcome = PollOutcome(ready: bool, pr: PullSnapshot, readCount: nat, sleeps: nat)

  /** The loop of `check_pr_status` from attempt `attempts` on, with `n` the attempt bound. */
  function PollFrom(remote: Reads, number: int, attempts: nat, n: nat): (o: PollOutcome)
    requires attempts <= n
    ensures attempts + 1 <= o.readCount <= n + 1
    ensures o.sleeps == o.readCount - 1
    ensures o.pr == remote(number, o.readCount - 1)
    ensures forall j :: attempts <= j < o.sleeps ==> Classify(remote(number, j)) == Pending
    ensures o.readCount <= n ==> Classify(o.pr) != Pending && (o.ready <==> Classify(o.pr) == Ready)
    ensures o.readCount == n + 1 ==> !o.ready
    decreases n - attempts
  {
    if attempts == n then PollOutcome(false, remote(number, n), n + 1, n)
    else
      var pr := remote(number, attempts);
      match Classify(pr)
      case Ready => PollOutcome(true, pr, attempts + 1, attempts)
      case Conflict => PollOutcome(false, pr, attempts + 1, attempts)
      case Pending => PollFrom(remote, number, attempts + 1, n)
  }

  /** The attempt bound: a non-positive `max_attempts` runs the loop zero times. */
  function AttemptBound(maxAttempts: int): nat {
    if maxAttempts > 0 then maxAttempts else 0
  }

  /** The reference meaning of `check_pr_status(number, maxAttempts)`. */
  function Poll(remote: Reads, number: int, maxAttempts: int): (o: PollOutcome)
    ensures 1 <= o.readCount <= AttemptBound(maxAttempts) + 1 && o.sleeps == o.readCount - 1
    ensures o.ready ==> o.readCount <= AttemptBound(maxAttempts) && Classify(o.pr) == Ready
    // With no positive bound the loop body never runs: one final read, reported not ready.
    ensures maxAttempts <= 0 ==> o == PollOutcome(false, remote(number, 0), 1, 0)
  {
    PollFrom(remote, number, 0, AttemptBound(maxAttempts))
  }

  /** `check_pr_status`: read, stop on a mergeable or conflicted answer, otherwise sleep
      and retry; after `maxAttempts` undecided reads, read once more and report not ready. */
  method CheckPrStatus(remote: Reads, number: int, maxAttempts: int) returns (o: PollOutcome)
    ensures o == Poll(remote, number, maxAttempts)
    ensures o.readCount <= AttemptBound(maxAttempts) + 1 && o.sleeps == o.readCount - 1
    ensures o.pr == remote(number, o.readCount - 1)
    ensures o.ready ==> Classify(o.pr) == Ready
  {
    var attempts := 0;
    var readCount := 0;
    var sleeps := 0;
    while attempts < maxAttempts
      invariant 0 <= attempts <= AttemptBound(maxAttempts)
      invariant readCount == attempts && sleeps == attempts
      invariant Poll(remote, number, maxAttempts) == PollFrom(remote, number, attempts, AttemptBound(maxAttempts))
      decreases maxAttempts - attempts
    {
      var pr := remote(number, readCount);
      readCount := readCount + 1;
      if pr.mergeable == Some(true) {
        return PollOutcome(true, pr, readCount, sleeps);
      } else if pr.mergeable == Some(false) && pr.mergeableState != "unknown" {
        return PollOutcome(false, pr, readCount, sleeps);
      }
      sleeps := sleeps + 1;
      attempts := attempts + 1;
    }
    var pr := remote(number, readCount);
    readCount := readCount + 1;
    o := PollOutcome(false, pr, readCount, sleeps);
  }

  /** What `merge_pr` did: merged the refreshed snapshot, had the merge refused by the
      remote, or found the pull request not mergeable and attempted nothing. */
  datatype MergeReport =
    | Merged(target: PullSnapshot, message: string)
    | MergeFailed(target: PullSnapshot, message: string)
    | ManualReviewRequired(last: PullSnapshot)

  /** `merge_pr`: poll with the default bound and merge only on a ready answer, using the
      snapshot the poll returned and the fixed merge message. `mergeAccepted` is the remote's answer to the merge. */
  method MergePr(remote: Reads, pr: PullSnapshot, mergeAccepted: bool) returns (report: MergeReport)
    ensures var o := Poll(remote, pr.number, MaxAttempts);
            && (report.Merged? || report.MergeFailed? <==> o.ready)
            && (report.Merged? <==> o.ready && mergeAccepted)
            && (o.ready ==> report.target == o.pr && report.message == MergeMessage)
            && (!o.ready ==> report == ManualReviewRequired(o.pr))
  {
    var o := CheckPrStatus(remote, pr.number, MaxAttempts);
    if o.ready {
      if mergeAccepted {
        report := Merged(o.pr, MergeMessage);
      } else {
        report := MergeFailed(o.pr, MergeMessage);
      }
    } else {
      report := ManualReviewRequired(o.pr);
    }
  }
}
