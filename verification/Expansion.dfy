/**
 Directories on disk as the browser sees them through its fetches, and what it means for the
 registry of rows to show them (expandAll, collapseAll and isFullyExpanded in web/app.js).
 */
module Expansion {
  import opened Sequences
  import opened Registry
  import opened Reconciliation
  import Paths

  /** Directory listings by relative path; a path without one cannot be fetched. */
  type Files = map<string, seq<Entry>>

  ghost predicate Listings(fs: Files) {
    forall r :: r in fs ==> Listing(fs[r])
  }

  function Fetch(fs: Files, rel: string): Option<seq<Entry>> {
    if rel in fs then Some(fs[rel]) else None
  }

  /** A tree: the root and every directory that is listed have a listing themselves. */
  ghost predicate IsTree(fs: Files) {
    && "" in fs && Listings(fs)
    && forall r, i {:trigger fs[r][i]} :: r in fs && 0 <= i < |fs[r]| && fs[r][i].isDir ==> ChildRel(r, fs[r][i].name) in fs
  }

  /** `k` is a directory of the tree. */
  ghost predicate TreeDir(fs: Files, k: string)
    decreases |k|
  {
    k == "" ||
    var p := Paths.ParentRel(k);
    && |p| < |k| && TreeDir(fs, p) && p in fs
    && exists i :: 0 <= i < |fs[p]| && fs[p][i].isDir && ChildRel(p, fs[p][i].name) == k
  }

  // ---------- Registry and tree ----------

  predicate IsDirRow(nodes: Nodes, k: string) {
    k in nodes && k != "" && nodes[k].isDir
  }

  /** A child list shows a listing. */
  ghost predicate Shows(kids: seq<Li>, entries: seq<Entry>) {
    && |kids| == |entries|
    && forall i :: 0 <= i < |kids| ==> kids[i].name == entries[i].name && kids[i].isDir == entries[i].isDir
  }

  /** Only directories are loaded, what they show is the tree, expanded ones are loaded, registered ones exist. */
  ghost predicate Synced(nodes: Nodes, fs: Files) {
    forall k :: k in nodes ==>
      && (nodes[k].isDir || k == "" ==> k in fs)
      && (nodes[k].kids.Some? ==> nodes[k].isDir && k in fs && Shows(nodes[k].kids.value, fs[k]))
      && (nodes[k].expanded ==> nodes[k].kids.Some?)
  }

  /** Every registered directory below the root is expanded. */
  ghost predicate AllExpanded(nodes: Nodes) {
    forall k :: IsDirRow(nodes, k) ==> nodes[k].expanded
  }

  /** If everything registered is expanded and shows the tree, every directory of the tree is registered and expanded. */
  lemma {:induction false} ExpandedIsComplete(nodes: Nodes, fs: Files, k: string)
    requires Agrees(nodes) && Synced(nodes, fs) && AllExpanded(nodes) && TreeDir(fs, k)
    ensures k in nodes && nodes[k].kids.Some?
    ensures k != "" ==> nodes[k].isDir && nodes[k].expanded
    decreases |k|
  {
    if k != "" {
      var p := Paths.ParentRel(k);
      ExpandedIsComplete(nodes, fs, p);
      var i :| 0 <= i < |fs[p]| && fs[p][i].isDir && ChildRel(p, fs[p][i].name) == k;
      var kids := nodes[p].kids.value;
      assert Shows(kids, fs[p]) && Placed(p, kids);
      assert kids[i].rel == k && Known(nodes, kids[i]);
      assert IsDirRow(nodes, k);
    }
  }

  /** Conversely every registered directory is one of the tree. */
  lemma {:induction false} RegisteredIsTreeDir(nodes: Nodes, fs: Files, k: string)
    requires Agrees(nodes) && Synced(nodes, fs) && k in nodes && nodes[k].isDir
    ensures TreeDir(fs, k)
    decreases |k|
  {
    if k != "" {
      var p := Paths.ParentRel(k);
      assert Hangs(nodes, k);
      ParentIsShorter(k);
      RegisteredIsTreeDir(nodes, fs, p);
      var kids := nodes[p].kids.value;
      var i :| 0 <= i < |kids| && kids[i].rel == k;
      assert Shows(kids, fs[p]) && Placed(p, kids) && Known(nodes, kids[i]);
      assert fs[p][i].isDir && ChildRel(p, fs[p][i].name) == k;
    }
  }

  /** The registry shows the tree: its directories are exactly those of the tree, and all are expanded. */
  ghost predicate ShowsTree(nodes: Nodes, fs: Files) {
    Synced(nodes, fs) && forall k :: k != "" ==> (TreeDir(fs, k) <==> IsDirRow(nodes, k) && nodes[k].expanded)
  }

  lemma ExpandedShowsTree(nodes: Nodes, fs: Files)
    requires Agrees(nodes) && Synced(nodes, fs) && AllExpanded(nodes)
    ensures ShowsTree(nodes, fs)
  {
    forall k | k != ""
      ensures TreeDir(fs, k) <==> IsDirRow(nodes, k) && nodes[k].expanded
    {
      if TreeDir(fs, k) { ExpandedIsComplete(nodes, fs, k); }
      if IsDirRow(nodes, k) { RegisteredIsTreeDir(nodes, fs, k); }
    }
  }

  /** Then there is a directory row exactly when the tree has a directory below its root. */
  lemma SomeDirectory(nodes: Nodes, fs: Files)
    requires ShowsTree(nodes, fs) && AllExpanded(nodes)
    ensures (exists k :: IsDirRow(nodes, k)) <==> exists k :: k != "" && TreeDir(fs, k)
  {
    if exists k :: IsDirRow(nodes, k) {
      var k :| IsDirRow(nodes, k);
      assert k != "" && TreeDir(fs, k);
    }
    if exists k :: k != "" && TreeDir(fs, k) {
      var k :| k != "" && TreeDir(fs, k);
      assert IsDirRow(nodes, k);
    }
  }

  // ---------- The root ----------

  lemma FreshDirListed(fs: Files, rel: string, after: Nodes, k: string)
    requires IsTree(fs) && rel in fs && k in after && FreshRow(rel, fs[rel], after, k)
    ensures after[k].isDir ==> k in fs
  {
    var i :| 0 <= i < |fs[rel]| && k == ChildRel(rel, fs[rel][i].name) && after[k].isDir == fs[rel][i].isDir;
    assert fs[rel][i].isDir ==> ChildRel(rel, fs[rel][i].name) in fs;
  }

  /** The first load of a directory shows its listing. */
  lemma FirstLoadShows(shown: Nodes, rel: string, entries: seq<Entry>, after: Nodes)
    requires rel in shown && shown[rel].kids == Some([]) && Reconciled(shown, rel, entries, after)
    ensures Shows(after[rel].kids.value, entries)
  {
    var kids, names := after[rel].kids.value, NamesOf(entries);
    forall i | 0 <= i < |kids|
      ensures kids[i].name == entries[i].name && kids[i].isDir == entries[i].isDir
    {
      assert !HasName([], names[i]);
      assert RowFor(rel, entries[i], kids[i], after);
    }
  }

  /** The registry with the root alone. */
  function RootOnly(): Nodes {
    map["" := Node(null, Some([]), true, true)]
  }

  /** The root is registered, open and loaded, so that a refresh reaches it. */
  predicate RootOpen(nodes: Nodes) {
    "" in nodes && nodes[""].expanded && nodes[""].isDir && nodes[""].kids.Some?
  }

  /** No reconciliation closes the root or takes its list away. */
  lemma ReconciledKeepsRoot(before: Nodes, rel: string, entries: seq<Entry>, after: Nodes)
    requires Agrees(before) && rel in before && before[rel].kids.Some? && Reconciled(before, rel, entries, after)
    ensures RootOpen(before) ==> RootOpen(after)
    ensures rel != "" ==> "" in after && after[""] == before[""]
  {
    assert Placed(rel, before[rel].kids.value);
    RootStays(rel, before[rel].kids.value, NamesOf(entries));
  }

  /** A reconciled list has one row per entry, in order, under its name; a name it had before keeps its row. */
  lemma ReconciledRows(before: Nodes, rel: string, entries: seq<Entry>, after: Nodes)
    requires rel in before && before[rel].kids.Some? && Reconciled(before, rel, entries, after)
    ensures rel in after && after[rel].kids.Some?
    ensures var was, ul := before[rel].kids.value, after[rel].kids.value;
            && |ul| == |entries| && (forall i :: 0 <= i < |ul| ==> ul[i].name == entries[i].name)
            && forall i, m :: 0 <= i < |ul| && 0 <= m < |was| && was[m].name == entries[i].name ==> ul[i] == was[m]
  {
    assert forall i :: 0 <= i < |entries| ==> NamesOf(entries)[i] == entries[i].name;
  }

  lemma RootLoaded(fs: Files, after: Nodes)
    requires IsTree(fs) && Reconciled(RootOnly(), "", fs[""], after)
    ensures Synced(after, fs)
  {
    FirstLoad(RootOnly(), "", fs[""], after);
    FirstLoadShows(RootOnly(), "", fs[""], after);
    forall k | k in after && k != ""
      ensures after[k].isDir ==> k in fs
    {
      FreshDirListed(fs, "", after, k);
    }
  }

  // ---------- Edits that keep the shape of the tree ----------

  /** The same rows and child lists, possibly with other expansion states. */
  ghost predicate SameShape(before: Nodes, after: Nodes) {
    && before.Keys == after.Keys
    && forall k :: k in before ==> after[k] == before[k].(expanded := after[k].expanded)
  }

  lemma ShapeKeepsAgreement(before: Nodes, after: Nodes)
    requires Agrees(before) && SameShape(before, after)
    ensures Agrees(after)
  {
    forall k | k in after && k != "" ensures Hangs(after, k) {
      assert Hangs(before, k);
    }
    forall p | p in after && after[p].kids.Some?
      ensures forall i :: 0 <= i < |after[p].kids.value| ==> Known(after, after[p].kids.value[i])
    {
      forall i | 0 <= i < |after[p].kids.value| ensures Known(after, after[p].kids.value[i]) {
        assert Known(before, before[p].kids.value[i]);
      }
    }
  }

  function Flipped(nodes: Nodes, rel: string): Nodes
    requires rel in nodes
  {
    nodes[rel := nodes[rel].(expanded := !nodes[rel].expanded)]
  }

  lemma FlippedKeepsAgreement(nodes: Nodes, rel: string)
    requires Agrees(nodes) && rel in nodes
    ensures Agrees(Flipped(nodes, rel))
  {
    ShapeKeepsAgreement(nodes, Flipped(nodes, rel));
  }

  /** The registry with the directories among `done` collapsed. */
  function Collapsed(nodes: Nodes, done: set<string>): Nodes {
    map k | k in nodes :: if k in done && IsDirRow(nodes, k) then nodes[k].(expanded := false) else nodes[k]
  }

  lemma CollapseNext(nodes: Nodes, done: set<string>, rel: string)
    requires rel in nodes && rel !in done
    ensures Collapsed(nodes, done + {rel})
         == if IsDirRow(nodes, rel) then Collapsed(nodes, done)[rel := nodes[rel].(expanded := false)]
            else Collapsed(nodes, done)
    ensures Collapsed(nodes, done)[rel] == nodes[rel]
  {
  }

  /** Collapsing everything closes the directory rows and nothing else. */
  lemma CollapsedExactly(nodes: Nodes)
    ensures var c := Collapsed(nodes, nodes.Keys);
            && c.Keys == nodes.Keys
            && forall k :: k in nodes ==>
                 && c[k].li == nodes[k].li && c[k].kids == nodes[k].kids && c[k].isDir == nodes[k].isDir
                 && (c[k].expanded <==> nodes[k].expanded && (k == "" || !nodes[k].isDir))
  {
  }

  function WithEmptyList(nodes: Nodes, rel: string): Nodes
    requires rel in nodes
  {
    nodes[rel := nodes[rel].(kids := Some([]), expanded := true)]
  }

  lemma EmptyListHangs(nodes: Nodes, rel: string, k: string)
    requires rel in nodes && nodes[rel].kids.None? && Hangs(nodes, k)
    ensures Hangs(WithEmptyList(nodes, rel), k)
  {
  }

  lemma EmptyListKnows(nodes: Nodes, rel: string, p: string)
    requires rel in nodes && AllKnown(nodes) && AllPlaced(nodes)
    requires p in nodes && p != rel && nodes[p].kids.Some?
    ensures Placed(p, nodes[p].kids.value)
    ensures forall i :: 0 <= i < |nodes[p].kids.value| ==> Known(WithEmptyList(nodes, rel), nodes[p].kids.value[i])
  {
  }

  /** Creating an empty child list for a directory that had none. */
  lemma EmptyListKeepsAgreement(nodes: Nodes, rel: string)
    requires Agrees(nodes) && rel in nodes && nodes[rel].kids.None?
    ensures Agrees(WithEmptyList(nodes, rel))
  {
    var after := WithEmptyList(nodes, rel);
    forall k | k in after && k != "" ensures Hangs(after, k) {
      EmptyListHangs(nodes, rel, k);
    }
    forall p | p in after && after[p].kids.Some? && p != rel
      ensures Placed(p, after[p].kids.value)
      ensures forall i :: 0 <= i < |after[p].kids.value| ==> Known(after, after[p].kids.value[i])
    {
      EmptyListKnows(nodes, rel, p);
    }
  }

  /** What expanding or collapsing one directory does; `fetch` is only used when the directory was never loaded. */
  ghost predicate Toggled(before: Nodes, rel: string, fetch: Option<seq<Entry>>, after: Nodes)
    requires rel in before
  {
    var n := before[rel];
    if n.expanded || n.kids.Some? then after == Flipped(before, rel)
    else
      var shown := WithEmptyList(before, rel);
      if fetch.None? then after == shown else Reconciled(shown, rel, fetch.value, after)
  }

  /** `k` is an unexpanded, unloaded row made for one of the entries. */
  ghost predicate FreshRow(rel: string, entries: seq<Entry>, after: Nodes, k: string)
    requires k in after
  {
    && !after[k].expanded && after[k].kids.None?
    && exists i :: 0 <= i < |entries| && k == ChildRel(rel, entries[i].name) && after[k].isDir == entries[i].isDir
  }

  /** The first load of a directory adds fresh rows and nothing else. */
  lemma FirstLoad(shown: Nodes, rel: string, entries: seq<Entry>, after: Nodes)
    requires rel in shown && shown[rel].kids == Some([]) && Reconciled(shown, rel, entries, after)
    ensures rel in after && after[rel] == shown[rel].(kids := after[rel].kids) && after[rel].kids.Some?
    ensures forall k :: k in shown && k != rel ==> k in after && after[k] == shown[k]
    ensures forall k :: k in after && k !in shown ==> FreshRow(rel, entries, after, k)
  {
    var names := NamesOf(entries);
    assert forall k :: !Gone([], names, k);
    var ul := after[rel].kids.value;
    forall k | k in after && k !in shown
      ensures FreshRow(rel, entries, after, k)
    {
      var i :| 0 <= i < |ul| && !HasName([], names[i]) && k == ul[i].rel;
      assert RowFor(rel, entries[i], ul[i], after);
    }
  }

  lemma ToggledKeepsOthers(before: Nodes, rel: string, fetch: Option<seq<Entry>>, after: Nodes)
    requires rel in before && Toggled(before, rel, fetch, after)
    ensures rel in after && after[rel].expanded == !before[rel].expanded && after[rel].isDir == before[rel].isDir
    ensures forall k :: k in before && k != rel ==> k in after && after[k] == before[k]
    ensures forall k :: k in after && k !in before ==>
              fetch.Some? && after[rel].kids.Some? && FreshRow(rel, fetch.value, after, k)
  {
    var n := before[rel];
    if !n.expanded && n.kids.None? && fetch.Some? {
      FirstLoad(WithEmptyList(before, rel), rel, fetch.value, after);
    }
  }

  /** A toggle, in full: the row, what it shows afterwards, and everything else. */
  lemma ToggledExactly(before: Nodes, rel: string, fetch: Option<seq<Entry>>, after: Nodes)
    requires rel in before && Toggled(before, rel, fetch, after)
    ensures rel in after && after[rel].li == before[rel].li && after[rel].isDir == before[rel].isDir
    ensures after[rel].expanded <==> !before[rel].expanded
    ensures before[rel].expanded || before[rel].kids.Some? ==> after[rel].kids == before[rel].kids
    ensures !before[rel].expanded && before[rel].kids.None? ==>
              && after[rel].kids.Some?
              && if fetch.None? then after[rel].kids.value == [] else Shows(after[rel].kids.value, fetch.value)
    ensures forall k :: k in before && k != rel ==> k in after && after[k] == before[k]
  {
    ToggledKeepsOthers(before, rel, fetch, after);
    if !before[rel].expanded && before[rel].kids.None? && fetch.Some? {
      FirstLoadShows(WithEmptyList(before, rel), rel, fetch.value, after);
    }
  }

  lemma ToggledStaysSynced(before: Nodes, fs: Files, rel: string, after: Nodes)
    requires IsTree(fs) && Synced(before, fs) && IsDirRow(before, rel) && !before[rel].expanded
    requires Toggled(before, rel, Fetch(fs, rel), after)
    ensures Synced(after, fs)
  {
    ToggledKeepsOthers(before, rel, Fetch(fs, rel), after);
    if before[rel].kids.None? {
      FirstLoadShows(WithEmptyList(before, rel), rel, fs[rel], after);
    }
    forall k | k in after && k !in before
      ensures after[k].isDir ==> k in fs
    {
      FreshDirListed(fs, rel, after, k);
    }
  }

  // ---------- Termination of the breadth-first expansion ----------

  /** Every path that can ever be registered. */
  ghost function Universe(nodes: Nodes, fs: Files): set<string> {
    nodes.Keys + set r, i | r in fs && 0 <= i < |fs[r]| :: ChildRel(r, fs[r][i].name)
  }

  /** The paths that are not expanded rows yet. */
  ghost function ToExpand(all: set<string>, nodes: Nodes): set<string> {
    set k | k in all && !(k in nodes && nodes[k].expanded)
  }

  lemma ToggledShrinks(all: set<string>, before: Nodes, fs: Files, rel: string, after: Nodes)
    requires rel in before && !before[rel].expanded && Toggled(before, rel, Fetch(fs, rel), after)
    requires before.Keys <= all
    requires forall r, i {:trigger fs[r][i]} :: r in fs && 0 <= i < |fs[r]| ==> ChildRel(r, fs[r][i].name) in all
    ensures after.Keys <= all && ToExpand(all, after) < ToExpand(all, before)
  {
    ToggledKeepsOthers(before, rel, Fetch(fs, rel), after);
    forall k | k in after ensures k in all {
      if k !in before {
        var i :| 0 <= i < |fs[rel]| && k == ChildRel(rel, fs[rel][i].name) && after[k].isDir == fs[rel][i].isDir;
        assert fs[rel][i] == fs[rel][i];
      }
    }
    assert rel in ToExpand(all, before) && rel !in ToExpand(all, after);
  }

  /** The queue holds registered directories, and every unexpanded one. */
  ghost predicate Queued(queue: seq<string>, nodes: Nodes) {
    && (forall i :: 0 <= i < |queue| ==> IsDirRow(nodes, queue[i]))
    && forall k :: IsDirRow(nodes, k) && !nodes[k].expanded ==> k in queue
  }

  lemma QueueTail(queue: seq<string>, nodes: Nodes, rel: string)
    requires Queued([rel] + queue, nodes)
    ensures forall i :: 0 <= i < |queue| ==> IsDirRow(nodes, queue[i])
    ensures forall k :: IsDirRow(nodes, k) && !nodes[k].expanded && k != rel ==> k in queue
  {
    var all := [rel] + queue;
    assert forall i :: 0 <= i < |queue| ==> all[i + 1] == queue[i];
    assert forall k :: k in all ==> k == rel || k in queue;
  }

  /** After a toggle only the new rows of the toggled directory can be missing from the queue. */
  lemma ToggledQueue(before: Nodes, fs: Files, rel: string, after: Nodes, queue: seq<string>)
    requires Queued([rel] + queue, before) && rel in before && !before[rel].expanded && Agrees(after)
    requires Toggled(before, rel, Fetch(fs, rel), after)
    ensures forall i :: 0 <= i < |queue| ==> IsDirRow(after, queue[i])
    ensures forall k :: IsDirRow(after, k) && !after[k].expanded && k !in queue ==>
              after[rel].kids.Some? && exists i :: 0 <= i < |after[rel].kids.value| && after[rel].kids.value[i].rel == k
  {
    ToggledKeepsOthers(before, rel, Fetch(fs, rel), after);
    QueueTail(queue, before, rel);
    forall k | IsDirRow(after, k) && !after[k].expanded && k !in queue
      ensures after[rel].kids.Some? && exists i :: 0 <= i < |after[rel].kids.value| && after[rel].kids.value[i].rel == k
    {
      assert k != rel && k !in before;
      NameOfNewRow(before, rel, fs, after, k);
    }
  }

  lemma NameOfNewRow(before: Nodes, rel: string, fs: Files, after: Nodes, k: string)
    requires rel in before && !before[rel].expanded && Toggled(before, rel, Fetch(fs, rel), after)
    requires k in after && k !in before
    ensures after[rel].kids.Some? && exists i :: 0 <= i < |after[rel].kids.value| && after[rel].kids.value[i].rel == k
  {
  }

  /** What an expansion from `start` keeps; `toggled` are the directories it has toggled so far. */
  ghost predicate Progress(start: Nodes, fs: Files, all: set<string>, nodes: Nodes, toggled: seq<string>) {
    && nodes.Keys <= all
    && (forall k :: k in start ==> k in nodes && (start[k].expanded ==> nodes[k].expanded))
    && Distinct(toggled)
    && (forall k :: k in toggled ==> IsDirRow(nodes, k) && nodes[k].expanded && !(k in start && start[k].expanded))
    && (IsTree(fs) && Synced(start, fs) ==> Synced(nodes, fs))
  }

  lemma ProgressAfter(start: Nodes, fs: Files, all: set<string>, before: Nodes, toggled: seq<string>,
      rel: string, after: Nodes)
    requires Progress(start, fs, all, before, toggled) && after.Keys <= all
    requires IsDirRow(before, rel) && !before[rel].expanded
    requires rel in after && after[rel].expanded && after[rel].isDir
    requires forall k :: k in before && k != rel ==> k in after && after[k] == before[k]
    requires IsTree(fs) && Synced(start, fs) ==> Synced(after, fs)
    ensures Progress(start, fs, all, after, toggled + [rel])
  {
  }

  lemma ProgressStep(start: Nodes, fs: Files, all: set<string>, before: Nodes, toggled: seq<string>,
      rel: string, after: Nodes)
    requires all == Universe(start, fs) && Progress(start, fs, all, before, toggled)
    requires IsDirRow(before, rel) && !before[rel].expanded && Toggled(before, rel, Fetch(fs, rel), after)
    ensures Progress(start, fs, all, after, toggled + [rel])
    ensures ToExpand(all, after) < ToExpand(all, before)
    ensures "" in before ==> "" in after && after[""] == before[""]
  {
    ToggledKeepsOthers(before, rel, Fetch(fs, rel), after);
    ToggledShrinks(all, before, fs, rel, after);
    if IsTree(fs) && Synced(start, fs) { ToggledStaysSynced(before, fs, rel, after); }
    ProgressAfter(start, fs, all, before, toggled, rel, after);
  }

  // ---------- Refreshing what is open ----------

  /** If `k` is an open directory that can be fetched, its rows are those of its listing, in order. */
  ghost predicate UpToDate(nodes: Nodes, fs: Files, k: string) {
    k in nodes && (k == "" || nodes[k].expanded) && nodes[k].kids.Some? && k in fs ==>
      Names(nodes[k].kids.value, NamesOf(fs[k]))
  }

  /** `after` has no open directory that `before` does not have. */
  ghost predicate OpensNothing(before: Nodes, after: Nodes) {
    forall k :: k in after && after[k].expanded ==> k in before && before[k].expanded
  }

  /** Reconciling one directory brings it up to date, leaves others up to date and opens nothing. */
  lemma ReconcileUpdates(before: Nodes, fs: Files, rel: string, after: Nodes)
    requires rel in fs && rel in before && before[rel].kids.Some? && Reconciled(before, rel, fs[rel], after)
    ensures OpensNothing(before, after)
    ensures forall k :: k == rel || UpToDate(before, fs, k) ==> UpToDate(after, fs, k)
  {
    var kids, names := before[rel].kids.value, NamesOf(fs[rel]);
    forall k | k in after && k != rel
      ensures if k in before then after[k] == before[k] else !after[k].expanded
      ensures k == "" ==> k in before || after[k].kids.None?
    {
      if k !in before {
        var i :| 0 <= i < |after[rel].kids.value| && !HasName(kids, names[i]) && k == after[rel].kids.value[i].rel;
        assert RowFor(rel, fs[rel][i], after[rel].kids.value[i], after);
      } else {
        assert !Gone(kids, names, k);
      }
    }
  }

  /** What is up to date stays so, and `rel` becomes up to date unless it is the root. */
  ghost predicate Updates(before: Nodes, after: Nodes, fs: Files, rel: string) {
    forall k :: UpToDate(before, fs, k) || (k == rel && rel != "") ==> UpToDate(after, fs, k)
  }

  /** The first `n` of `rels` are up to date, the root aside. */
  ghost predicate Refreshed(nodes: Nodes, fs: Files, rels: seq<string>, n: nat)
    requires n <= |rels|
  {
    forall j :: 0 <= j < n && rels[j] != "" ==> UpToDate(nodes, fs, rels[j])
  }

  lemma RefreshedNext(before: Nodes, after: Nodes, fs: Files, rels: seq<string>, n: nat)
    requires n < |rels| && Refreshed(before, fs, rels, n) && Updates(before, after, fs, rels[n])
    ensures Refreshed(after, fs, rels, n + 1)
  {
  }

  /** If what was open is up to date and nothing else is open, everything below the root is up to date. */
  lemma AllUpToDate(before: Nodes, after: Nodes, fs: Files, rels: seq<string>)
    requires OpensNothing(before, after)
    requires forall k :: k in before && before[k].expanded ==> k in rels
    requires Refreshed(after, fs, rels, |rels|)
    ensures forall k :: k != "" ==> UpToDate(after, fs, k)
  {
    forall k | k in after && k != "" && after[k].expanded
      ensures UpToDate(after, fs, k)
    {
      var j :| 0 <= j < |rels| && rels[j] == k;
    }
  }

  /** Reconciling another directory leaves the root's list alone. */
  lemma RootUntouched(before: Nodes, fs: Files, rel: string, after: Nodes)
    requires Agrees(before) && rel != "" && rel in fs && rel in before && before[rel].kids.Some?
    requires Reconciled(before, rel, fs[rel], after)
    ensures "" in after && after[""] == before[""]
  {
    var kids := before[rel].kids.value;
    assert Placed(rel, kids);
    assert forall i :: 0 <= i < |kids| ==> kids[i].rel != "";
    assert !Gone(kids, NamesOf(fs[rel]), "");
  }

  /** A registry whose root list misses an entry of the tree. */
  lemma StaleRoot() returns (nodes: Nodes, fs: Files)
    ensures Agrees(nodes) && IsTree(fs) && !UpToDate(nodes, fs, "")
  {
    nodes, fs := RootOnly(), map["" := [Entry("a", false)]];
    assert |NamesOf(fs[""])| == 1;
  }
}
