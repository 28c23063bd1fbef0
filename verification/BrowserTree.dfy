/**
 The file tree of web/app.js: the page object that owns the registry of rows and edits it in
 place. A fetch of a directory listing is atomic and is a parameter; `None` stands for a
 failed fetch.
 */
module BrowserTree {
  import opened Sequences
  import opened Registry
  import opened Reconciliation
  import opened Expansion

  class Page {
    var nodes: Nodes
    var rootDir: string

    /** The page before its first connection. */
    constructor ()
      ensures nodes == map[] && rootDir == ""
    {
      nodes, rootDir := map[], "";
    }

    /** The registration of the root, and its first load; nothing else is registered yet. */
    method RenderTreeRoot(fetch: Option<seq<Entry>>)
      requires nodes == map[] && (fetch.Some? ==> Listing(fetch.value))
      modifies this`nodes
      ensures Agrees(nodes)
      ensures if fetch.None? then nodes == RootOnly() else Reconciled(RootOnly(), "", fetch.value, nodes)
      ensures nodes[""].expanded && nodes[""].isDir && nodes[""].kids.Some?
      ensures fetch.None? ==> nodes.Keys == {""} && nodes[""].kids.value == []
      ensures fetch.Some? ==> Shows(nodes[""].kids.value, fetch.value)
    {
      nodes := nodes["" := Node(null, Some([]), true, true)];
      assert nodes == RootOnly();
      if fetch.Some? {
        LoadChildren("", fetch.value);
        FirstLoadShows(RootOnly(), "", fetch.value, nodes);
      }
    }

    /**
     A connection of the WebSocket. When the server watches another directory than before, the registry is emptied,
     the root loaded and everything expanded: the page then shows the whole tree, whatever it showed before.
     */
    method OnConnect(info: Option<string>, fs: Files)
      requires Listings(fs)
      modifies this
      ensures if info.None? || info.value == old(rootDir) then nodes == old(nodes) && rootDir == old(rootDir)
              else && rootDir == info.value && Agrees(nodes) && AllExpanded(nodes) && (IsTree(fs) ==> ShowsTree(nodes, fs))
                   && nodes[""].expanded && nodes[""].isDir && nodes[""].kids.Some?
    {
      if info.None? || info.value == rootDir {
        return;
      }
      rootDir := info.value;
      nodes := map[];
      RenderTreeRoot(Fetch(fs, ""));
      if IsTree(fs) { RootLoaded(fs, nodes); }
      var toggled, full := ExpandAll(fs);
    }

    /** Forgets a row and, recursively, the rows below it. */
    method PurgeNode(rel: string)
      requires rel != "" && AllPlaced(nodes) && Closed(nodes, rel)
      modifies this`nodes
      ensures nodes == Without(old(nodes), rel)
      decreases nodes.Keys
    {
      ghost var before := nodes;
      if rel !in nodes {
        NothingBelow(nodes, rel);
        return;
      }
      var node := nodes[rel];
      nodes := nodes - {rel};
      if node.kids.Some? {
        var kids := node.kids.value;
        for i := 0 to |kids|
          invariant nodes == Pruned(before, rel, kids, i)
        {
          PrunedIsReady(before, rel, kids, i);
          PurgeNode(kids[i].rel);
          PrunedStep(before, rel, kids, i);
        }
        PrunedAll(before, rel, kids);
      } else {
        NothingBelow(before, rel);
      }
    }

    method IndexRows(kids: seq<Li>) returns (have: map<string, Li>)
      requires DistinctNames(kids)
      ensures Indexes(have, kids)
    {
      have := map[];
      for i := 0 to |kids|
        invariant forall m :: 0 <= m < i ==> kids[m].name in have && have[kids[m].name] == kids[m]
        invariant forall name :: name in have ==> exists m :: 0 <= m < i && kids[m].name == name
      {
        have := have[kids[i].name := kids[i]];
      }
    }

    /** The removal loop: rows whose entry is gone leave the list, and their subtrees leave the registry. */
    method RemoveRows(parent: string, kids: seq<Li>, names: seq<string>) returns (ul: seq<Li>)
      requires Agrees(nodes) && parent in nodes && nodes[parent].kids == Some(kids)
      modifies this`nodes
      ensures nodes == Dropped(old(nodes), kids, |kids|, names)
      ensures ul == Surviving(kids, names)
    {
      ghost var before := nodes;
      assert Placed(parent, kids);
      ul := kids;
      for i := 0 to |kids|
        invariant nodes == Dropped(before, kids, i, names)
        invariant ul == Surviving(kids[..i], names) + kids[i..]
      {
        RemoveNext(kids, names, i);
        DroppedStep(before, kids, i, names);
        if kids[i].name !in names {
          DroppedIsReady(before, parent, kids, i, names);
          PurgeNode(kids[i].rel);
          ul := Detach(ul, kids[i]);
        }
      }
      assert kids[..|kids|] == kids;
    }

    /** A new row for an entry, registered under its path. */
    method MakeNode(ent: Entry, parent: string) returns (li: Li)
      modifies this`nodes
      ensures fresh(li) && li.name == ent.name && li.isDir == ent.isDir && li.rel == ChildRel(parent, ent.name)
      ensures nodes == old(nodes)[li.rel := Node(li, None, false, ent.isDir)]
    {
      li := new Li(ent.name, ChildRel(parent, ent.name), ent.isDir);
      nodes := nodes[li.rel := Node(li, None, false, ent.isDir)];
    }

    /** The insertion loop: each entry's row, kept or new, is put behind the previous one. */
    method InsertRows(parent: string, entries: seq<Entry>, have: map<string, Li>, survivors: seq<Li>) returns (ul: seq<Li>)
      requires Listing(entries) && DistinctNames(survivors) && Back(entries, have, survivors, 0)
      requires RoomFor(nodes, parent, entries, have)
      requires forall name :: name in have ==> have[name].name == name
      modifies this`nodes
      ensures Names(ul, NamesOf(entries))
      ensures forall i :: 0 <= i < |entries| && entries[i].name in have ==> ul[i] == have[entries[i].name]
      ensures Made(old(nodes), parent, entries, have, ul, |entries|, nodes)
    {
      ghost var base := nodes;
      ul := survivors;
      assert ul[0..] == ul;
      for j := 0 to |entries|
        invariant DistinctNames(ul) && Front(entries, have, ul, j) && Back(entries, have, ul[j..], j)
        invariant Made(base, parent, entries, have, ul, j, nodes)
      {
        ul := InsertRow(parent, entries, have, ul, j, base);
      }
      BackIsEmpty(entries, have, ul);
    }

    /**
     Brings the child rows of `parent` in line with a listing: the rows come in the order of the entries, a row
     whose name stays is the same object with its subtree and expansion state, rows that are gone take their
     subtrees out of the registry, and new rows start unexpanded.
     */
    method ReconcileChildren(parent: string, entries: seq<Entry>)
      requires Agrees(nodes) && parent in nodes && nodes[parent].kids.Some? && Listing(entries)
      modifies this`nodes
      ensures Agrees(nodes)
      ensures Reconciled(old(nodes), parent, entries, nodes)
    {
      var kids := nodes[parent].kids.value;
      assert Placed(parent, kids);
      var have := IndexRows(kids);
      ghost var before := nodes;
      var names := NamesOf(entries);
      var survivors := RemoveRows(parent, kids, names);
      SurvivorsAhead(kids, entries, have);
      DroppedKeepsParent(before, parent, kids, names);
      DroppedHasRoom(before, parent, kids, entries, have);
      var ul := InsertRows(parent, entries, have, survivors);
      ghost var mid := nodes;
      nodes := nodes[parent := nodes[parent].(kids := Some(ul))];
      FinishReconcile(before, parent, kids, entries, have, ul, mid, nodes);
    }

    /** One turn of the insertion loop. */
    method InsertRow(parent: string, entries: seq<Entry>, have: map<string, Li>, ul: seq<Li>, j: nat, ghost base: Nodes)
      returns (ul': seq<Li>)
      requires Listing(entries) && j < |entries| && DistinctNames(ul)
      requires Front(entries, have, ul, j) && Back(entries, have, ul[j..], j)
      requires RoomFor(base, parent, entries, have)
      requires forall name :: name in have ==> have[name].name == name
      requires Made(base, parent, entries, have, ul, j, nodes)
      modifies this`nodes
      ensures DistinctNames(ul') && Front(entries, have, ul', j + 1) && Back(entries, have, ul'[j + 1..], j + 1)
      ensures Made(base, parent, entries, have, ul', j + 1, nodes)
    {
      var ent := entries[j];
      ghost var before := nodes;
      var li;
      if ent.name in have { li := have[ent.name]; } else { li := MakeNode(ent, parent); }
      PlaceKeeps(entries, have, ul, j, li);
      if ent.name in have {
        MakeKnown(base, parent, entries, have, ul, Place(ul, j, li), j, nodes);
      } else {
        MakeNew(base, parent, entries, have, ul, Place(ul, j, li), j, before, nodes);
      }
      ul' := PutNext(ul, j, li);
    }

    /** The DOM calls that bring `li` behind the first `j` rows. */
    static method PutNext(ul: seq<Li>, j: nat, li: Li) returns (ul': seq<Li>)
      requires j <= |ul| && li !in ul[..j] && DistinctNames(ul)
      ensures ul' == Place(ul, j, li)
    {
      InsertIsPlace(ul, j, li);
      if j < |ul| && ul[j] == li {
        PlaceInPlace(ul, j, li);
        ul' := ul;
      } else if j > 0 {
        ul' := After(ul, ul[j - 1], li);
      } else {
        ul' := InsertFirst(ul, li);
      }
    }

    /** The append loop for a directory that is loaded for the first time. */
    method AppendRows(parent: string, entries: seq<Entry>) returns (ul: seq<Li>)
      requires Listing(entries) && RoomFor(nodes, parent, entries, map[])
      modifies this`nodes
      ensures Names(ul, NamesOf(entries)) && Made(old(nodes), parent, entries, map[], ul, |entries|, nodes)
    {
      ghost var base := nodes;
      ul := [];
      for j := 0 to |entries|
        invariant |ul| == j && Made(base, parent, entries, map[], ul, j, nodes)
      {
        ghost var before := nodes;
        var li := MakeNode(entries[j], parent);
        var longer := ul + [li];
        assert longer[..j] == ul[..j] && longer[j] == li;
        MakeNew(base, parent, entries, map[], ul, longer, j, before, nodes);
        ul := longer;
      }
      assert forall i :: 0 <= i < |entries| ==> RowFor(parent, entries[i], ul[i], nodes);
    }

    /** Expands or collapses a directory row, loading its children the first time. */
    method ToggleDir(rel: string, fetch: Option<seq<Entry>>)
      requires Agrees(nodes) && rel in nodes && (fetch.Some? ==> Listing(fetch.value))
      modifies this`nodes
      ensures Agrees(nodes) && Toggled(old(nodes), rel, fetch, nodes)
    {
      ghost var before := nodes;
      FlippedKeepsAgreement(before, rel);
      var node := nodes[rel];
      nodes := nodes[rel := node.(expanded := !node.expanded)];
      assert nodes == Flipped(before, rel);
      if !node.expanded && node.kids.None? {
        EmptyListKeepsAgreement(before, rel);
        nodes := nodes[rel := nodes[rel].(kids := Some([]))];
        assert nodes == WithEmptyList(before, rel);
        if fetch.Some? {
          LoadChildren(rel, fetch.value);
        }
      }
    }

    method LoadChildren(rel: string, entries: seq<Entry>)
      requires Agrees(nodes) && rel in nodes && nodes[rel].kids == Some([]) && Listing(entries)
      modifies this`nodes
      ensures Agrees(nodes) && Reconciled(old(nodes), rel, entries, nodes)
    {
      ghost var before := nodes;
      DroppedHasRoom(before, rel, [], entries, map[]);
      assert Dropped(before, [], 0, NamesOf(entries)) == before;
      var kids := AppendRows(rel, entries);
      ghost var mid := nodes;
      nodes := nodes[rel := nodes[rel].(kids := Some(kids))];
      FinishReconcile(before, rel, [], entries, map[], kids, mid, nodes);
    }

    /** The refresh of one directory after a change on disk. */
    method RefreshDir(rel: string, fetch: Option<seq<Entry>>)
      requires Agrees(nodes) && (fetch.Some? ==> Listing(fetch.value))
      modifies this`nodes
      ensures Agrees(nodes)
      ensures var b := old(nodes);
              if rel in b && b[rel].expanded && b[rel].kids.Some? && fetch.Some?
              then Reconciled(b, rel, fetch.value, nodes) else nodes == b
    {
      if rel !in nodes || !nodes[rel].expanded || nodes[rel].kids.None? {
        return;
      }
      if fetch.None? {
        return;
      }
      ReconcileChildren(rel, fetch.value);
    }

    /**
     Refreshes every directory that was open, in any order. Afterwards every open directory but the root shows its
     listing, although refreshing one can forget others that are still to come, and nothing was opened. The root's
     list is looked up where it is not, so it stays as it was: it is up to date exactly if it was before.
     */
    method RefreshAllExpanded(fs: Files)
      requires Agrees(nodes) && Listings(fs)
      modifies this`nodes
      ensures Agrees(nodes) && OpensNothing(old(nodes), nodes)
      ensures forall k :: k != "" ==> UpToDate(nodes, fs, k)
      ensures nodes[""] == old(nodes)[""]
      ensures UpToDate(nodes, fs, "") <==> UpToDate(old(nodes), fs, "")
    {
      ghost var before := nodes;
      var open := OpenDirs();
      var rels := [""] + open;
      assert forall j :: 0 <= j < |open| ==> rels[j + 1] == open[j];
      for i := 0 to |rels|
        invariant Agrees(nodes) && OpensNothing(before, nodes) && nodes[""] == before[""]
        invariant Refreshed(nodes, fs, rels, i)
      {
        ghost var prior := nodes;
        RefreshOne(rels[i], fs);
        RefreshedNext(prior, nodes, fs, rels, i);
      }
      AllUpToDate(before, nodes, fs, rels);
    }

    /** The refresh of one directory of that list; no list element is found for the root. */
    method RefreshOne(rel: string, fs: Files)
      requires Agrees(nodes) && Listings(fs)
      modifies this`nodes
      ensures Agrees(nodes) && OpensNothing(old(nodes), nodes) && nodes[""] == old(nodes)[""]
      ensures Updates(old(nodes), nodes, fs, rel)
    {
      ghost var prior := nodes;
      if rel == "" {
        return;
      }
      RefreshDir(rel, Fetch(fs, rel));
      if rel in prior && prior[rel].expanded && prior[rel].kids.Some? && rel in fs {
        ReconcileUpdates(prior, fs, rel, nodes);
        RootUntouched(prior, fs, rel, nodes);
      }
    }

    /** The open directories, in any order. */
    method OpenDirs() returns (rels: seq<string>)
      ensures forall k :: k in nodes && nodes[k].expanded ==> k in rels
    {
      rels := [];
      var todo := nodes.Keys;
      while todo != {}
        invariant todo <= nodes.Keys
        invariant forall k :: k in nodes && nodes[k].expanded ==> k in rels || k in todo
      {
        var rel :| rel in todo;
        todo := todo - {rel};
        if nodes[rel].expanded {
          rels := rels + [rel];
        }
      }
    }

    /**
     Expands every directory breadth-first, loading as it goes. It always ends, toggles no directory twice although
     the queue may name one twice, and leaves every registered directory expanded; on a registry that shows the
     tree so far, its directories are then exactly those of the tree. `full` is what the expand button shows at the end.
     */
    method ExpandAll(fs: Files) returns (toggled: seq<string>, full: bool)
      requires Agrees(nodes) && Listings(fs)
      modifies this`nodes
      ensures Agrees(nodes) && AllExpanded(nodes)
      ensures Distinct(toggled)
      ensures (forall k :: k in old(nodes) ==> k in nodes) && nodes[""] == old(nodes)[""]
      ensures forall k :: k in toggled ==> IsDirRow(nodes, k) && !(k in old(nodes) && old(nodes)[k].expanded)
      ensures full <==> exists k :: IsDirRow(nodes, k)
      ensures IsTree(fs) && Synced(old(nodes), fs) ==>
                ShowsTree(nodes, fs) && (full <==> exists k :: k != "" && TreeDir(fs, k))
    {
      ghost var start, all := nodes, Universe(nodes, fs);
      var queue := UnexpandedDirs();
      toggled := [];
      while queue != []
        invariant Agrees(nodes) && Queued(queue, nodes)
        invariant Progress(start, fs, all, nodes, toggled) && nodes[""] == start[""]
        decreases ToExpand(all, nodes), |queue|
      {
        var rel := queue[0];
        assert queue == [rel] + queue[1..];
        queue := queue[1..];
        if nodes[rel].expanded {
          continue;
        }
        ghost var before := nodes;
        ToggleDir(rel, Fetch(fs, rel));
        ProgressStep(start, fs, all, before, toggled, rel, nodes);
        ToggledQueue(before, fs, rel, nodes, queue);
        toggled := toggled + [rel];
        queue := QueueChildren(rel, queue);
      }
      if IsTree(fs) && Synced(start, fs) {
        ExpandedShowsTree(nodes, fs);
        SomeDirectory(nodes, fs);
      }
      full := IsFullyExpanded();
    }

    /** The directories to start from, in any order. */
    method UnexpandedDirs() returns (queue: seq<string>)
      ensures Queued(queue, nodes)
    {
      queue := [];
      var todo := nodes.Keys;
      while todo != {}
        invariant todo <= nodes.Keys
        invariant forall i :: 0 <= i < |queue| ==> IsDirRow(nodes, queue[i])
        invariant forall k :: IsDirRow(nodes, k) && !nodes[k].expanded ==> k in queue || k in todo
      {
        var rel :| rel in todo;
        todo := todo - {rel};
        if rel != "" && nodes[rel].isDir && !nodes[rel].expanded {
          queue := queue + [rel];
        }
      }
    }

    /** Queues the unexpanded child directories of a directory. */
    method QueueChildren(rel: string, queue: seq<string>) returns (queue': seq<string>)
      requires Agrees(nodes) && rel in nodes
      requires forall i :: 0 <= i < |queue| ==> IsDirRow(nodes, queue[i])
      requires forall k :: IsDirRow(nodes, k) && !nodes[k].expanded && k !in queue ==>
                 nodes[rel].kids.Some? && exists i :: 0 <= i < |nodes[rel].kids.value| && nodes[rel].kids.value[i].rel == k
      ensures Queued(queue', nodes)
    {
      queue' := queue;
      if nodes[rel].kids.None? {
        return;
      }
      var kids := nodes[rel].kids.value;
      assert Placed(rel, kids);
      for i := 0 to |kids|
        invariant |queue| <= |queue'| && queue'[..|queue|] == queue
        invariant forall j :: 0 <= j < |queue'| ==> IsDirRow(nodes, queue'[j])
        invariant forall m :: 0 <= m < i && kids[m].isDir && !nodes[kids[m].rel].expanded ==> kids[m].rel in queue'
      {
        assert Known(nodes, kids[i]);
        if !kids[i].isDir {
          continue;
        }
        var childRel := kids[i].rel;
        ChildIsLonger(rel, kids[i].name);
        if childRel in nodes && !nodes[childRel].expanded {
          queue' := queue' + [childRel];
        }
      }
      forall k | IsDirRow(nodes, k) && !nodes[k].expanded
        ensures k in queue'
      {
        if k in queue {
          var j :| 0 <= j < |queue| && queue[j] == k;
          assert queue'[j] == k;
        } else {
          var i :| 0 <= i < |kids| && kids[i].rel == k;
          assert Known(nodes, kids[i]);
        }
      }
    }

    /** Collapses every expanded directory; the rows and their children stay. */
    method CollapseAll()
      requires Agrees(nodes)
      modifies this`nodes
      ensures Agrees(nodes) && nodes == Collapsed(old(nodes), old(nodes).Keys)
    {
      ghost var before := nodes;
      var todo := nodes.Keys;
      assert Collapsed(before, {}) == before;
      while todo != {}
        invariant todo <= before.Keys && nodes == Collapsed(before, before.Keys - todo)
      {
        var rel :| rel in todo;
        CollapseNext(before, before.Keys - todo, rel);
        todo := todo - {rel};
        assert before.Keys - todo == before.Keys - (todo + {rel}) + {rel};
        if rel == "" || !nodes[rel].isDir || !nodes[rel].expanded {
          continue;
        }
        nodes := nodes[rel := nodes[rel].(expanded := false)];
      }
      assert before.Keys - todo == before.Keys;
      ShapeKeepsAgreement(before, nodes);
    }

    /** The count behind the expand button. */
    method IsFullyExpanded() returns (all: bool)
      ensures all <==> AllExpanded(nodes) && exists k :: IsDirRow(nodes, k)
    {
      var total, expanded := 0, 0;
      var todo := nodes.Keys;
      while todo != {}
        invariant todo <= nodes.Keys && 0 <= expanded <= total
        invariant total > 0 <==> exists k :: IsDirRow(nodes, k) && k !in todo
        invariant expanded == total <==> forall k :: IsDirRow(nodes, k) && k !in todo ==> nodes[k].expanded
      {
        var rel :| rel in todo;
        todo := todo - {rel};
        if rel != "" && nodes[rel].isDir {
          total := total + 1;
          assert IsDirRow(nodes, rel);
          if nodes[rel].expanded {
            expanded := expanded + 1;
          }
        }
      }
      return total > 0 && expanded == total;
    }
  }
}
