/** Properties of the pull-request lifecycle: the exact outcome and bounds of polling,
    the idempotent branch reset, and reruns building on main rather than on a stale branch. */
module PrProperties {
  import opened Wrappers
  import opened GitModel
  import opened Settings
  import opened PrAnalyse

  /** Read `k` is the first read that decides: every earlier read was undecided. */
  ghost predicate FirstDecisiveAt(remote: Reads, number: int, k: nat) {
    Classify(remote(number, k)) != Pending &&
    forall j :: 0 <= j < k ==> Classify(remote(number, j)) == Pending
  }

  /** Polling makes at most `maxAttempts` sleeps and `maxAttempts + 1` reads, one sleep after
      each undecided in-loop read; the extra read happens exactly when the loop runs out. */
  lemma PollBounded(remote: Reads, number: int, maxAttempts: int)
    ensures var o := Poll(remote, number, maxAttempts);
            var n := AttemptBound(maxAttempts);
            && 1 <= o.readCount <= n + 1
            && o.sleeps == o.readCount - 1
            && o.sleeps * WaitSeconds <= n * WaitSeconds
            && (o.readCount == n + 1 <==> forall j :: 0 <= j < n ==> Classify(remote(number, j)) == Pending)
  {
    var o := Poll(remote, number, maxAttempts);
    var n := AttemptBound(maxAttempts);
    if o.readCount <= n {
      assert Classify(remote(number, o.readCount - 1)) != Pending;
    }
  }

  /** The first decisive in-loop read ends the poll at once: the result is that read and its
      verdict, after exactly that many sleeps, and no later read is made. */
  lemma PollStopsAtFirstDecisive(remote: Reads, number: int, maxAttempts: int, k: nat)
    requires k < AttemptBound(maxAttempts) && FirstDecisiveAt(remote, number, k)
    ensures Poll(remote, number, maxAttempts) ==
            PollOutcome(Classify(remote(number, k)) == Ready, remote(number, k), k + 1, k)
  {
  }

  /** The poll reports ready exactly when, among the first `maxAttempts` reads, the first
      decisive one says mergeable. */
  lemma PollReadyIff(remote: Reads, number: int, maxAttempts: int)
    ensures Poll(remote, number, maxAttempts).ready <==>
            exists k :: 0 <= k < AttemptBound(maxAttempts) && FirstDecisiveAt(remote, number, k) &&
                        Classify(remote(number, k)) == Ready
  {
    var o := Poll(remote, number, maxAttempts);
    if o.ready {
      assert FirstDecisiveAt(remote, number, o.readCount - 1);
    }
    forall k | 0 <= k < AttemptBound(maxAttempts) && FirstDecisiveAt(remote, number, k)
      ensures o.ready == (Classify(remote(number, k)) == Ready)
    {
      PollStopsAtFirstDecisive(remote, number, maxAttempts, k);
    }
  }

  /** An undecided read inside the loop never ends it: the poll sleeps after it and reads
      again. */
  lemma PollPendingContinues(remote: Reads, number: int, maxAttempts: int, k: nat)
    requires k < AttemptBound(maxAttempts)
    requires forall j :: 0 <= j <= k ==> Classify(remote(number, j)) == Pending
    ensures Poll(remote, number, maxAttempts).sleeps >= k + 1
    ensures Poll(remote, number, maxAttempts).readCount >= k + 2
  {
  }

  /** When every in-loop read is undecided (in particular when `maxAttempts <= 0`), the
      poll reports not ready with a fresh read taken after the loop. */
  lemma PollExhausted(remote: Reads, number: int, maxAttempts: int)
    requires forall j :: 0 <= j < AttemptBound(maxAttempts) ==> Classify(remote(number, j)) == Pending
    ensures var n := AttemptBound(maxAttempts);
            Poll(remote, number, maxAttempts) == PollOutcome(false, remote(number, n), n + 1, n)
  {
    PollBounded(remote, number, maxAttempts);
  }

  /** Mergeability still unknown twice, then mergeable: ready on the third read after two
      sleeps, ten seconds of waiting in all. */
  lemma PollScenarioReadyOnThirdRead(ready: PullSnapshot)
    requires ready.number == 42 && ready.mergeable == Some(true)
    ensures var remote: Reads := (n, k) => if k < 2 then PullSnapshot(n, None, "unknown") else ready;
            var o := Poll(remote, 42, 3);
            o == PollOutcome(true, ready, 3, 2) && o.sleeps * WaitSeconds == 10
  {
    var remote: Reads := (n, k) => if k < 2 then PullSnapshot(n, None, "unknown") else ready;
    PollStopsAtFirstDecisive(remote, 42, 3, 2);
  }

  /** Mergeability unknown on every read: not ready, with the fourth read returned. */
  lemma PollScenarioTimesOut()
    ensures var remote: Reads := (n, k) => PullSnapshot(n, None, "unknown");
            Poll(remote, 42, 3) == PollOutcome(false, PullSnapshot(42, None, "unknown"), 4, 3)
  {
    var remote: Reads := (n, k) => PullSnapshot(n, None, "unknown");
    PollExhausted(remote, 42, 3);
  }

  /** The branch reset is idempotent: resetting again, with no call refused, after the
      branch has moved on to any other commit puts it back at main's tip, leaving the refs
      as the first reset did. */
  lemma ResetBranchIdempotent(r: Repo, refused: set<HostCall>, diverged: Sha)
    requires ResetBranch(r, refused).out.Success?
    ensures var first := ResetBranch(r, refused).repo;
            var second := ResetBranch(first.(refs := first.refs[BranchRef := diverged]), {});
            && second.out == Success(r.refs[MainRef])
            && second.repo.refs == first.refs
            && second.repo.refs[BranchRef] == r.refs[MainRef]
  {
    var first := ResetBranch(r, refused).repo;
    var moved := first.(refs := first.refs[BranchRef := diverged]);
    assert BranchRef != MainRef;
    assert moved.refs[BranchRef := moved.refs[MainRef]] == first.refs;
  }

  /** A rerun of `create_pr` on the repository a successful run left behind succeeds when
      the host refuses none of its calls, and its commit again sits directly on main's tip with main's
      tree, not on the previous run's branch. */
  lemma RerunBuildsOnMain(r: Repo, yaml1: string, body1: string, refused: set<HostCall>,
                          yaml2: string, body2: string)
    requires CreatePr(r, yaml1, body1, refused).out.Success?
    ensures var r1 := CreatePr(r, yaml1, body1, refused).repo;
            var run2 := CreatePr(r1, yaml2, body2, {});
            && run2.out.Success?
            && run2.repo.refs[MainRef] == r.refs[MainRef]
            && IsOverlayCommit(run2.repo, run2.repo.refs[BranchRef], r.refs[MainRef],
                               CommitTree(r, r.refs[MainRef]).value, yaml2)
  {
    var r1 := CreatePr(r, yaml1, body1, refused).repo;
    var main := r.refs[MainRef];
    assert BranchRef != MainRef;
    assert r1.refs[MainRef] == main;
    CommitTreeKept(r, r1, main);
  }

  /** Growing the store keeps what a commit id resolves to. */
  lemma CommitTreeKept(r: Repo, r': Repo, sha: Sha)
    requires ObjectsExtend(r, r') && CommitTree(r, sha).Some?
    ensures CommitTree(r', sha) == CommitTree(r, sha)
  {
    ExtendKeepsLookup(r, r', sha);
    ExtendKeepsLookup(r, r', Lookup(r, sha).value.tree);
  }
}
