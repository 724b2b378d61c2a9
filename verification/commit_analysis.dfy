/** Commit inspection and classification: shaping a fetched commit into a details record,
    the loop-prevention predicate and the workflow-change filter. */
module CommitAnalysis {
  import opened Wrappers
  import opened Strings
  import opened OrderedDict
  import opened Subsequences
  import opened Settings

  /** One changed file of a commit; `patch` is absent for binary or renamed files. */
  datatype FileChange = FileChange(filename: string, patch: Option<string>)

  /** A commit as the remote reports it; `author` is the login of the linked account,
      absent when the commit is not linked to one. */
  datatype Commit = Commit(sha: string, author: Option<string>, message: string, files: seq<FileChange>)

  /** The record the pipeline works on: `author`, `diff_files` and `message`. */
  datatype CommitDetails = CommitDetails(author: string, diffFiles: Dict<string, Option<string>>, message: string)

  /** The file names a commit touches. */
  function FileNames(files: seq<FileChange>): set<string> {
    set i | 0 <= i < |files| :: files[i].filename
  }

  /** No later entry of `files` carries the same file name as entry `i`. */
  ghost predicate IsLastWithName(files: seq<FileChange>, i: int)
    requires 0 <= i < |files|
  {
    forall j :: i < j < |files| ==> files[j].filename != files[i].filename
  }

  /** The `diff_files` dict: each file name of the commit, mapped to its patch; when a name
      repeats, the later patch wins. */
  function DiffFiles(files: seq<FileChange>): (d: Dict<string, Option<string>>)
    ensures DistinctKeys(d)
    ensures Keys(d) == FileNames(files)
    decreases |files|
  {
    if |files| == 0 then []
    else
      var init, f := files[..|files| - 1], files[|files| - 1];
      assert FileNames(files) == FileNames(init) + {f.filename} by {
        assert forall i :: 0 <= i < |init| ==> init[i] == files[i];
      }
      Put(DiffFiles(init), f.filename, f.patch)
  }

  /** Later entries overwrite earlier ones: each name maps to the patch of its last entry. */
  lemma {:induction false} DiffFilesLastWins(files: seq<FileChange>, i: int)
    requires 0 <= i < |files| && IsLastWithName(files, i)
    ensures Get(DiffFiles(files), files[i].filename) == Some(files[i].patch)
    decreases |files|
  {
    var n := |files| - 1;
    var init, f := files[..n], files[n];
    if i < n {
      assert files[i].filename != f.filename;
      assert IsLastWithName(init, i) by {
        forall j | i < j < |init| ensures init[j].filename != init[i].filename {
          assert init[j] == files[j];
        }
      }
      DiffFilesLastWins(init, i);
    }
  }

  /** The position of the first entry of `files` named `name`. */
  function FirstIndex(files: seq<FileChange>, name: string): (i: nat)
    requires name in FileNames(files)
    ensures i < |files| && files[i].filename == name
    ensures forall j :: 0 <= j < i ==> files[j].filename != name
    decreases |files|
  {
    if files[0].filename == name then 0
    else
      assert name in FileNames(files[1..]) by {
        var k :| 0 <= k < |files| && files[k].filename == name;
        assert files[1..][k - 1] == files[k];
      }
      1 + FirstIndex(files[1..], name)
  }

  /** The keys of `diff_files` come in the order in which their names first appear among
      the commit's files, as Python dicts keep insertion order. */
  lemma {:induction false} DiffFilesInsertionOrder(files: seq<FileChange>, a: int, b: int)
    requires 0 <= a < b < |DiffFiles(files)|
    ensures DiffFiles(files)[a].0 in FileNames(files) && DiffFiles(files)[b].0 in FileNames(files)
    ensures FirstIndex(files, DiffFiles(files)[a].0) < FirstIndex(files, DiffFiles(files)[b].0)
    decreases |files|
  {
    var n := |files| - 1;
    if b < |DiffFiles(files[..n])| {
      DiffFilesInsertionOrder(files[..n], a, b);
      DiffFilesOrderOldKeys(files, a, b);
    } else {
      DiffFilesOrderNewKey(files, a, b);
    }
  }

  /** Keys already present before the last file keep their relative order. */
  lemma DiffFilesOrderOldKeys(files: seq<FileChange>, a: int, b: int)
    requires |files| > 0
    requires var prev := DiffFiles(files[..|files| - 1]);
             && 0 <= a < b < |prev|
             && prev[a].0 in FileNames(files[..|files| - 1]) && prev[b].0 in FileNames(files[..|files| - 1])
             && FirstIndex(files[..|files| - 1], prev[a].0) < FirstIndex(files[..|files| - 1], prev[b].0)
    ensures b < |DiffFiles(files)|
    ensures DiffFiles(files)[a].0 in FileNames(files) && DiffFiles(files)[b].0 in FileNames(files)
    ensures FirstIndex(files, DiffFiles(files)[a].0) < FirstIndex(files, DiffFiles(files)[b].0)
  {
    var n := |files| - 1;
    var prev := DiffFiles(files[..n]);
    PutKeepsPositions(prev, files[n].filename, files[n].patch, a);
    PutKeepsPositions(prev, files[n].filename, files[n].patch, b);
    FirstIndexInPrefix(files, n, prev[a].0);
    FirstIndexInPrefix(files, n, prev[b].0);
  }

  /** The name appended by the last file comes after every earlier key. */
  lemma DiffFilesOrderNewKey(files: seq<FileChange>, a: int, b: int)
    requires |files| > 0
    requires 0 <= a < |DiffFiles(files[..|files| - 1])| <= b < |DiffFiles(files)|
    ensures DiffFiles(files)[a].0 in FileNames(files) && DiffFiles(files)[b].0 in FileNames(files)
    ensures FirstIndex(files, DiffFiles(files)[a].0) < FirstIndex(files, DiffFiles(files)[b].0)
  {
    var n := |files| - 1;
    var prev := DiffFiles(files[..n]);
    var d := DiffFiles(files);
    var name := files[n].filename;
    assert d == Put(prev, name, files[n].patch);
    assert name !in FileNames(files[..n]);
    assert b == |d| - 1 && d[b].0 == name;
    PutKeepsPositions(prev, name, files[n].patch, a);
    KeysIndex(prev, prev[a].0);
    FirstIndexInPrefix(files, n, prev[a].0);
    FirstIndexOfNewName(files);
  }

  /** A name that no earlier file carries is first found at the last position. */
  lemma FirstIndexOfNewName(files: seq<FileChange>)
    requires |files| > 0 && files[|files| - 1].filename !in FileNames(files[..|files| - 1])
    ensures files[|files| - 1].filename in FileNames(files)
    ensures FirstIndex(files, files[|files| - 1].filename) == |files| - 1
  {
    var n := |files| - 1;
    assert files[n].filename in FileNames(files);
    forall j | 0 <= j < n ensures files[j].filename != files[n].filename {
      assert files[..n][j] == files[j];
    }
  }

  /** A name present in a prefix is first found at the same place in the whole. */
  lemma FirstIndexInPrefix(files: seq<FileChange>, n: nat, name: string)
    requires n <= |files| && name in FileNames(files[..n])
    ensures name in FileNames(files)
    ensures FirstIndex(files, name) == FirstIndex(files[..n], name) < n
  {
    var i := FirstIndex(files[..n], name);
    assert files[i] == files[..n][i];
    assert name in FileNames(files);
  }

  /** Shape a fetched commit into its details record. */
  function FetchCommitDetails(c: Commit): (d: CommitDetails)
    ensures d.author == (if c.author.Some? then c.author.value else "Unknown")
    ensures d.message == c.message
    ensures Keys(d.diffFiles) == FileNames(c.files) && DistinctKeys(d.diffFiles)
    ensures forall i :: 0 <= i < |c.files| && IsLastWithName(c.files, i) ==>
              Get(d.diffFiles, c.files[i].filename) == Some(c.files[i].patch)
  {
    forall i | 0 <= i < |c.files| && IsLastWithName(c.files, i)
      ensures Get(DiffFiles(c.files), c.files[i].filename) == Some(c.files[i].patch)
    {
      DiffFilesLastWins(c.files, i);
    }
    CommitDetails(if c.author.Some? then c.author.value else "Unknown", DiffFiles(c.files), c.message)
  }

  /** Loop prevention: the commit was authored by the bot, or its message carries the marker. */
  function IsBotCommit(d: CommitDetails): (b: bool)
    ensures b <==> d.author == BotUsername || exists i :: OccursAt(d.message, BotMarker, i)
  {
    ContainsIffOccurs(d.message, BotMarker);
    d.author == BotUsername || Contains(d.message, BotMarker)
  }

  /** The filter's test on a file name, as written: it names the workflow file or lies
      under a workflows directory. */
  predicate IsWorkflowFile(filename: string): (b: bool)
    ensures b <==> (exists i :: OccursAt(filename, WorkflowPath, i)) || (exists i :: OccursAt(filename, WorkflowDir, i))
  {
    ContainsIffOccurs(filename, WorkflowPath);
    ContainsIffOccurs(filename, WorkflowDir);
    Contains(filename, WorkflowPath) || Contains(filename, WorkflowDir)
  }

  /** The `(filename, diff)` entries that touch a workflow definition, in dict order. */
  function AnalyzeCommitDiff(diffFiles: Dict<string, Option<string>>): (r: seq<(string, Option<string>)>)
    ensures IsSubsequence(r, diffFiles)
    ensures forall e :: e in r <==> e in diffFiles && IsWorkflowFile(e.0)
    ensures DistinctKeys(diffFiles) ==> DistinctKeys(r) && Keys(r) <= Keys(diffFiles)
    decreases |diffFiles|
  {
    if |diffFiles| == 0 then []
    else
      var rest := AnalyzeCommitDiff(diffFiles[1..]);
      assert forall e :: e in diffFiles <==> e == diffFiles[0] || e in diffFiles[1..];
      var kept := if IsWorkflowFile(diffFiles[0].0) then [diffFiles[0]] + rest else rest;
      assert IsSubsequence(kept, diffFiles);
      assert DistinctKeys(diffFiles) ==> DistinctKeys(kept) && Keys(kept) <= Keys(diffFiles) by {
        if DistinctKeys(diffFiles) {
          SubsequenceKeepsDistinct(kept, diffFiles);
        }
      }
      kept
  }

  /** The monitored path itself lies under the workflows directory. */
  lemma WorkflowPathInWorkflowDir()
    ensures Contains(WorkflowPath, WorkflowDir)
  {
    assert WorkflowPath == "." + WorkflowDir + "/deploy.yml";
    assert OccursAt(WorkflowPath, WorkflowDir, 1);
    OccursAtContains(WorkflowPath, WorkflowDir, 1);
  }

  /** The filter's two-part test is the same as testing for the workflows directory alone. */
  lemma IsWorkflowFileIff(filename: string)
    ensures IsWorkflowFile(filename) <==> Contains(filename, WorkflowDir)
  {
    if Contains(filename, WorkflowPath) {
      WorkflowPathInWorkflowDir();
      ContainsTransitive(filename, WorkflowPath, WorkflowDir);
    }
  }

  /** The filter keeps exactly the entries whose name contains the workflows directory. */
  lemma AnalyzeCommitDiffKeeps(diffFiles: Dict<string, Option<string>>)
    ensures forall e :: e in AnalyzeCommitDiff(diffFiles) <==> e in diffFiles && Contains(e.0, WorkflowDir)
  {
    forall e: (string, Option<string>) {
      IsWorkflowFileIff(e.0);
    }
  }

  /** The filter's result is empty exactly when no file name contains the workflows directory. */
  lemma NoWorkflowChange(diffFiles: Dict<string, Option<string>>)
    ensures AnalyzeCommitDiff(diffFiles) == [] <==>
            forall i :: 0 <= i < |diffFiles| ==> !Contains(diffFiles[i].0, WorkflowDir)
  {
    AnalyzeCommitDiffKeeps(diffFiles);
    var r := AnalyzeCommitDiff(diffFiles);
    if r != [] {
      assert r[0] in r;
    }
    if exists i :: 0 <= i < |diffFiles| && Contains(diffFiles[i].0, WorkflowDir) {
      var i :| 0 <= i < |diffFiles| && Contains(diffFiles[i].0, WorkflowDir);
      assert diffFiles[i] in r;
    }
  }

  /** Applied to a commit's `diff_files`, the result has distinct file names, all of them
      names the commit touches. */
  lemma AnalyzeCommitDiffDistinct(c: Commit)
    ensures var r := AnalyzeCommitDiff(FetchCommitDetails(c).diffFiles);
            DistinctKeys(r) && Keys(r) <= FileNames(c.files)
  {
    var d := FetchCommitDetails(c).diffFiles;
    SubsequenceKeepsDistinct(AnalyzeCommitDiff(d), d);
  }

  /** Any commit whose author is the bot is a bot commit, whatever its message. */
  lemma BotAuthorIsBotCommit(c: Commit)
    requires c.author == Some(BotUsername)
    ensures IsBotCommit(FetchCommitDetails(c))
  {
  }

  /** Any commit whose message contains the marker is a bot commit, whoever authored it. */
  lemma MarkedMessageIsBotCommit(c: Commit)
    requires Contains(c.message, BotMarker)
    ensures IsBotCommit(FetchCommitDetails(c))
  {
    ContainsIffOccurs(c.message, BotMarker);
  }

  /** A developer's edit of the deploy workflow is not a bot commit and is reported as a
      workflow change, exactly that one entry. */
  lemma DeveloperWorkflowEdit(message: string, patch: string)
    requires !Contains(message, BotMarker)
    ensures var d := FetchCommitDetails(Commit("aaa1", Some("dev-x"), message, [FileChange(WorkflowPath, Some(patch))]));
            !IsBotCommit(d) && AnalyzeCommitDiff(d.diffFiles) == [(WorkflowPath, Some(patch))]
  {
    ContainsIffOccurs(message, BotMarker);
    ContainsSelf(WorkflowPath);
    var files := [FileChange(WorkflowPath, Some(patch))];
    assert DiffFiles(files) == Put(DiffFiles(files[..0]), WorkflowPath, Some(patch));
  }

  /** The bot's own commit stops the pipeline. */
  lemma BotCommitScenario(files: seq<FileChange>)
    ensures IsBotCommit(FetchCommitDetails(Commit("bbb2", Some("RajBhattacharyya"), CommitMessage, files)))
  {
  }
}
