/** The remote repository as the orchestrator sees it through the hosting API: named refs,
    an append-only store of git objects, and the list of pull requests. */
module GitModel {
  import opened Wrappers

  /** Object identifiers are opaque; here an object's id is its position in the store,
      which makes every newly created object's id fresh. */
  type Sha = nat

  /** The git object model. A tree maps full paths to blob ids. */
  datatype Object =
    | Blob(content: string)
    | Tree(entries: map<string, Sha>)
    | Commit(tree: Sha, parents: seq<Sha>, message: string)

  /** A pull request as created: its number, head and base branch names, title and body. */
  datatype Pull = Pull(number: nat, head: string, base: string, title: string, body: string)

  datatype Repo = Repo(refs: map<string, Sha>, objects: seq<Object>, pulls: seq<Pull>)

  /** The object stored under `sha`, if any. */
  function Lookup(r: Repo, sha: Sha): Option<Object> {
    if sha < |r.objects| then Some(r.objects[sha]) else None
  }

  /** `r'` holds every object of `r` unchanged, possibly followed by new ones. */
  predicate ObjectsExtend(r: Repo, r': Repo) {
    |r.objects| <= |r'.objects| && r'.objects[..|r.objects|] == r.objects
  }

  /** Store a new object; the returned id was not in use before. */
  function Store(r: Repo, o: Object): (res: (Repo, Sha))
    ensures ObjectsExtend(r, res.0) && |res.0.objects| == |r.objects| + 1
    ensures Lookup(r, res.1).None? && Lookup(res.0, res.1) == Some(o)
    ensures res.0.refs == r.refs && res.0.pulls == r.pulls
  {
    (r.(objects := r.objects + [o]), |r.objects|)
  }

  /** The entries of the tree of the commit `sha`, when `sha` names a commit whose tree is
      stored; this is what reading a tree by a commit id returns. */
  function CommitTree(r: Repo, sha: Sha): (t: Option<map<string, Sha>>)
    ensures t.Some? <==>
              && Lookup(r, sha).Some? && Lookup(r, sha).value.Commit?
              && Lookup(r, Lookup(r, sha).value.tree).Some?
              && Lookup(r, Lookup(r, sha).value.tree).value.Tree?
    ensures t.Some? ==> Lookup(r, Lookup(r, sha).value.tree) == Some(Tree(t.value))
  {
    match Lookup(r, sha)
    case Some(Commit(t, _, _)) =>
      (match Lookup(r, t)
       case Some(Tree(entries)) => Some(entries)
       case _ => None)
    case _ => None
  }

  /** Growing the store keeps earlier lookups. */
  lemma ExtendKeepsLookup(r: Repo, r': Repo, sha: Sha)
    requires ObjectsExtend(r, r') && Lookup(r, sha).Some?
    ensures Lookup(r', sha) == Lookup(r, sha)
  {
    assert r'.objects[..|r.objects|][sha] == r'.objects[sha];
  }

  /** Growing the store is transitive. */
  lemma ExtendTransitive(r1: Repo, r2: Repo, r3: Repo)
    requires ObjectsExtend(r1, r2) && ObjectsExtend(r2, r3)
    ensures ObjectsExtend(r1, r3)
  {
    assert r3.objects[..|r1.objects|] == r3.objects[..|r2.objects|][..|r1.objects|];
  }
}
