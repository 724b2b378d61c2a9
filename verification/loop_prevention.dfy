/** Loop prevention across the two halves of the pipeline: the commit the orchestrator
    writes is recognised as its own by the classifier. */
module LoopPrevention {
  import opened Wrappers
  import opened Strings
  import opened Settings
  import GitModel
  import PrAnalyse
  import CA = CommitAnalysis

  /** The message of the commit a ref names, when it names a stored commit. */
  function MessageAt(r: GitModel.Repo, ref: string): Option<string> {
    if ref in r.refs then
      match GitModel.Lookup(r, r.refs[ref])
      case Some(Commit(_, _, message)) => Some(message)
      case _ => None
    else None
  }

  /** The orchestrator's commit message carries the marker the classifier looks for. */
  lemma CommitMessageIsMarked()
    ensures Contains(CommitMessage, BotMarker)
  {
    ContainsSelf(BotMarker);
  }

  /** Whoever the remote reports as author and whatever files it lists, the commit a
      `create_pr` run that got as far as moving the branch leaves there is classified as a bot commit. */
  lemma OwnCommitIsBotCommit(r: GitModel.Repo, yaml: string, body: string, refused: set<PrAnalyse.HostCall>,
                             view: CA.Commit)
    requires var run := PrAnalyse.CreatePr(r, yaml, body, refused);
             PrAnalyse.ReachedMove(run.out) && MessageAt(run.repo, PrAnalyse.BranchRef) == Some(view.message)
    ensures CA.IsBotCommit(CA.FetchCommitDetails(view))
  {
    assert view.message == CommitMessage;
    CommitMessageIsMarked();
    CA.MarkedMessageIsBotCommit(view);
  }

  /** The commit a `create_pr` run leaves on the branch once it moved the ref carries the
      orchestrator's message. */
  lemma OwnCommitHasMessage(r: GitModel.Repo, yaml: string, body: string, refused: set<PrAnalyse.HostCall>)
    requires PrAnalyse.ReachedMove(PrAnalyse.CreatePr(r, yaml, body, refused).out)
    ensures MessageAt(PrAnalyse.CreatePr(r, yaml, body, refused).repo, PrAnalyse.BranchRef)
            == Some(CommitMessage)
  {
  }

  /** The message `merge_pr` passes does not carry the marker, so a commit whose message is
      exactly that text counts as a bot commit only through its author. */
  lemma MergeMessageNeedsBotAuthor(view: CA.Commit)
    requires view.message == MergeMessage
    ensures CA.IsBotCommit(CA.FetchCommitDetails(view)) <==> view.author == Some(BotUsername)
  {
    assert |MergeMessage| < |BotMarker|;
  }
}
