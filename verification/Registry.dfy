/**
 The browser's registry of tree rows (state.nodes in web/app.js) as a value: a map from
 relative paths to nodes, where each node may hold the list of its child rows. Rows are
 objects, so that "the same row" means the same object.
 */
module Registry {
  import opened Sequences
  import Paths

  /** A list element: the data attributes and the class of its row. */
  class Li {
    const name: string
    const rel: string
    const isDir: bool

    constructor (name: string, rel: string, isDir: bool)
      ensures this.name == name && this.rel == rel && this.isDir == isDir
    {
      this.name, this.rel, this.isDir := name, rel, isDir;
    }
  }

  datatype Entry = Entry(name: string, isDir: bool)

  /** `kids` is the child list once it has been created; the root has no row of its own. */
  datatype Node = Node(li: Li?, kids: Option<seq<Li>>, expanded: bool, isDir: bool)

  type Nodes = map<string, Node>

  function ChildRel(parent: string, name: string): string {
    if parent == "" then name else parent + "/" + name
  }

  /** `k` is `r` or lies below it. */
  predicate Under(r: string, k: string) {
    r == "" || k == r || Paths.HasPrefix(k, r + "/")
  }

  // ---------- Paths of rows ----------

  lemma ParentOfChild(parent: string, name: string)
    requires Paths.ValidName(name)
    ensures Paths.ParentRel(ChildRel(parent, name)) == parent
  {
    if parent == "" { Paths.NoSlash(name); } else { Paths.ParentRelAt(parent, name); }
  }

  lemma ChildRelInjective(parent: string, a: string, b: string)
    requires ChildRel(parent, a) == ChildRel(parent, b)
    ensures a == b
  {
    if parent != "" {
      assert a == (parent + "/" + a)[|parent| + 1..];
      assert b == (parent + "/" + b)[|parent| + 1..];
    }
  }

  lemma ChildIsLonger(parent: string, name: string)
    requires Paths.ValidName(name)
    ensures |ChildRel(parent, name)| > |parent|
  {
  }

  /** A path strictly below `c` has its parent at or below `c`. */
  lemma ParentStaysUnder(c: string, k: string)
    requires c != "" && Under(c, k) && k != c
    ensures Under(c, Paths.ParentRel(k)) && |Paths.ParentRel(k)| < |k|
  {
    var i := Paths.LastSlash(k);
    assert k[|c|] == '/';
    if i > |c| {
      assert k[..i][..|c| + 1] == c + "/";
    } else {
      assert k[..i] == c;
    }
  }

  /** What hangs below a path at or below `c` is itself below `c`. */
  lemma UnderFromParent(c: string, k: string)
    requires c != "" && Under(c, Paths.ParentRel(k))
    ensures Under(c, k)
  {
  }

  lemma ParentIsShorter(k: string)
    requires k != ""
    ensures |Paths.ParentRel(k)| < |k|
  {
  }

  /** A child of `p` is at or below `c` only if it is `c` or `p` is. */
  lemma ChildUnder(c: string, p: string, name: string)
    requires c != "" && Paths.ValidName(name) && Under(c, ChildRel(p, name)) && c != ChildRel(p, name)
    ensures Under(c, p)
  {
    ParentStaysUnder(c, ChildRel(p, name));
    ParentOfChild(p, name);
  }

  // ---------- Agreement of registry and tree ----------

  ghost predicate Names(kids: seq<Li>, names: seq<string>) {
    |kids| == |names| && forall i :: 0 <= i < |kids| ==> kids[i].name == names[i]
  }

  ghost predicate DistinctNames(kids: seq<Li>) {
    forall i, j :: 0 <= i < j < |kids| ==> kids[i].name != kids[j].name
  }

  /** The child rows of `p` carry the paths their place gives them. */
  ghost predicate Placed(p: string, kids: seq<Li>) {
    DistinctNames(kids)
    && forall i :: 0 <= i < |kids| ==> Paths.ValidName(kids[i].name) && kids[i].rel == ChildRel(p, kids[i].name)
  }

  ghost predicate AllPlaced(nodes: Nodes) {
    forall p :: p in nodes && nodes[p].kids.Some? ==> Placed(p, nodes[p].kids.value)
  }

  /** Row `k` is listed by its parent. */
  ghost predicate Hangs(nodes: Nodes, k: string) {
    var p := Paths.ParentRel(k);
    p in nodes && nodes[p].kids.Some? && exists i :: 0 <= i < |nodes[p].kids.value| && nodes[p].kids.value[i].rel == k
  }

  /** Row `li` is registered, as itself. */
  ghost predicate Known(nodes: Nodes, li: Li) {
    li.rel in nodes && nodes[li.rel].li == li && nodes[li.rel].isDir == li.isDir
  }

  ghost predicate AllKnown(nodes: Nodes) {
    forall p :: p in nodes && nodes[p].kids.Some? ==>
      forall i :: 0 <= i < |nodes[p].kids.value| ==> Known(nodes, nodes[p].kids.value[i])
  }

  /** Registry and tree agree: the root is there, every listed row is registered, every registered row is listed. */
  ghost predicate Agrees(nodes: Nodes) {
    && "" in nodes && nodes[""].kids.Some? && nodes[""].li == null
    && AllPlaced(nodes)
    && AllKnown(nodes)
    && forall k {:trigger Hangs(nodes, k)} :: k in nodes && k != "" ==> Hangs(nodes, k)
  }

  /** Row `k` can be reached from the root through the child lists. */
  ghost predicate InTree(nodes: Nodes, k: string)
    decreases |k|
  {
    k == "" || (Hangs(nodes, k) && |Paths.ParentRel(k)| < |k| && InTree(nodes, Paths.ParentRel(k)))
  }

  /** The registered paths are the root and the paths of the rows in the tree. */
  lemma {:induction false} KeysAreTree(nodes: Nodes, k: string)
    requires Agrees(nodes)
    ensures k in nodes <==> InTree(nodes, k)
    decreases |k|
  {
    if k != "" {
      ParentIsShorter(k);
      KeysAreTree(nodes, Paths.ParentRel(k));
      if k in nodes { assert Hangs(nodes, k); }
      if InTree(nodes, k) {
        var p := Paths.ParentRel(k);
        var i :| 0 <= i < |nodes[p].kids.value| && nodes[p].kids.value[i].rel == k;
        assert Known(nodes, nodes[p].kids.value[i]);
      }
    }
  }

  // ---------- Purging ----------

  /** The registry without `rel` and everything below it. */
  function Without(nodes: Nodes, rel: string): Nodes {
    map k | k in nodes && !Under(rel, k) :: nodes[k]
  }

  /** What is left are the paths that are neither `rel` nor continue it with a slash. */
  lemma WithoutExactly(nodes: Nodes, rel: string)
    requires rel != ""
    ensures forall k :: k in Without(nodes, rel) <==> k in nodes && k != rel && !(rel + "/" <= k)
    ensures forall k :: k in Without(nodes, rel) ==> Without(nodes, rel)[k] == nodes[k]
  {
  }

  /** Everything registered strictly below `rel` hangs from its parent. */
  ghost predicate Closed(nodes: Nodes, rel: string) {
    forall k {:trigger Hangs(nodes, k)} :: k in nodes && Under(rel, k) && k != rel ==> Hangs(nodes, k)
  }

  /** A registered row below `rel` is at or below one of its child rows. */
  lemma {:induction false} Descent(nodes: Nodes, rel: string, k: string) returns (i: nat)
    requires rel != "" && Closed(nodes, rel) && k in nodes && Under(rel, k) && k != rel
    ensures rel in nodes && nodes[rel].kids.Some?
    ensures i < |nodes[rel].kids.value| && Under(nodes[rel].kids.value[i].rel, k)
    decreases |k|
  {
    var p := Paths.ParentRel(k);
    assert Hangs(nodes, k);
    ParentStaysUnder(rel, k);
    if p == rel {
      i :| 0 <= i < |nodes[rel].kids.value| && nodes[rel].kids.value[i].rel == k;
    } else {
      i := Descent(nodes, rel, p);
      var c := nodes[rel].kids.value[i].rel;
      if c != "" { UnderFromParent(c, k); }
    }
  }

  /** Taking away `rel` alone leaves the part below each of its children closed. */
  lemma DeleteKeepsClosed(nodes: Nodes, rel: string, name: string)
    requires rel != "" && Paths.ValidName(name) && Closed(nodes, rel)
    ensures Closed(nodes - {rel}, ChildRel(rel, name))
  {
    var c := ChildRel(rel, name);
    forall k | k in nodes - {rel} && Under(c, k) && k != c
      ensures Hangs(nodes - {rel}, k)
    {
      ParentStaysUnder(c, k);
      assert Under(rel, k);
      assert Hangs(nodes, k);
      assert |Paths.ParentRel(k)| >= |c|;
    }
  }
}
