/**
 What the in-place edits of the browser's child lists do, on values: the DOM operations, the
 purge of a subtree, and the removal and insertion loops of reconcileChildren (web/app.js).
 */
module Reconciliation {
  import opened Sequences
  import opened Registry
  import Paths

  // ---------- DOM operations on a child list ----------

  function Detach(ul: seq<Li>, li: Li): seq<Li> {
    if ul == [] then []
    else if ul[0] == li then ul[1..]
    else [ul[0]] + Detach(ul[1..], li)
  }

  /** `ul.insertBefore(li, ul.firstChild)`, which moves `li` when it is already in the list. */
  function InsertFirst(ul: seq<Li>, li: Li): seq<Li> {
    [li] + Detach(ul, li)
  }

  function IndexOf(ul: seq<Li>, li: Li): (i: nat)
    requires li in ul
    ensures i < |ul| && ul[i] == li
    ensures forall j :: 0 <= j < i ==> ul[j] != li
  {
    if ul[0] == li then 0 else 1 + IndexOf(ul[1..], li)
  }

  /** `anchor.after(li)`. */
  function After(ul: seq<Li>, anchor: Li, li: Li): seq<Li>
    requires anchor in Detach(ul, li)
  {
    var rest := Detach(ul, li);
    var i := IndexOf(rest, anchor);
    rest[..i + 1] + [li] + rest[i + 1..]
  }

  lemma {:induction false} DetachAbsent(ul: seq<Li>, li: Li)
    requires li !in ul
    ensures Detach(ul, li) == ul
  {
    if ul != [] { DetachAbsent(ul[1..], li); }
  }

  lemma {:induction false} DetachTail(a: seq<Li>, b: seq<Li>, li: Li)
    requires li !in a
    ensures Detach(a + b, li) == a + Detach(b, li)
  {
    if a == [] {
      assert a + b == b;
    } else {
      assert (a + b)[1..] == a[1..] + b;
      DetachTail(a[1..], b, li);
    }
  }

  function Elems(ul: seq<Li>): set<Li> {
    set x | x in ul
  }

  lemma ElemsCons(ul: seq<Li>)
    requires ul != []
    ensures Elems(ul) == {ul[0]} + Elems(ul[1..])
    ensures DistinctNames(ul) ==> DistinctNames(ul[1..]) && ul[0] !in Elems(ul[1..])
  {
  }

  lemma DetachIndex(ul: seq<Li>, li: Li, k: nat) returns (m: nat)
    requires k < |Detach(ul, li)|
    ensures m < |ul| && ul[m] == Detach(ul, li)[k] && m >= k
  {
    if ul[0] == li {
      m := k + 1;
    } else if k == 0 {
      m := 0;
    } else {
      m := DetachIndex(ul[1..], li, k - 1);
      m := m + 1;
    }
  }

  lemma {:induction false} DetachMembers(ul: seq<Li>, li: Li)
    requires DistinctNames(ul)
    ensures DistinctNames(Detach(ul, li))
    ensures Elems(Detach(ul, li)) == Elems(ul) - {li}
    ensures li in ul ==> |Detach(ul, li)| == |ul| - 1
  {
    if ul != [] {
      ElemsCons(ul);
      if ul[0] != li {
        var rest := Detach(ul[1..], li);
        DetachMembers(ul[1..], li);
        forall k | 0 <= k < |rest|
          ensures rest[k].name != ul[0].name
        {
          var m := DetachIndex(ul[1..], li, k);
          assert ul[m + 1] == rest[k];
        }
        assert ([ul[0]] + rest)[1..] == rest;
        ElemsCons([ul[0]] + rest);
      }
    }
  }

  /** The list with its first `j` rows in place, `li` next, and the others after it. */
  function Place(ul: seq<Li>, j: nat, li: Li): seq<Li>
    requires j <= |ul|
  {
    ul[..j] + [li] + Detach(ul[j..], li)
  }

  /** Inserting after the last placed row, or at the front when there is none, is placing. */
  lemma InsertIsPlace(ul: seq<Li>, j: nat, li: Li)
    requires j <= |ul| && li !in ul[..j] && DistinctNames(ul)
    ensures j == 0 ==> InsertFirst(ul, li) == Place(ul, j, li)
    ensures j > 0 ==> ul[j - 1] in Detach(ul, li) && After(ul, ul[j - 1], li) == Place(ul, j, li)
  {
    if j == 0 {
      assert ul[0..] == ul && ul[..0] == [];
    } else {
      assert ul == ul[..j] + ul[j..];
      DetachTail(ul[..j], ul[j..], li);
      assert Detach(ul, li) == ul[..j] + Detach(ul[j..], li);
      InsertAfterLast(ul[..j], Detach(ul[j..], li), li);
    }
  }

  lemma InsertAfterLast(placed: seq<Li>, rest: seq<Li>, li: Li)
    requires placed != [] && DistinctNames(placed)
    ensures var all, last := placed + rest, placed[|placed| - 1];
            last in all && all[..IndexOf(all, last) + 1] + [li] + all[IndexOf(all, last) + 1..] == placed + [li] + rest
  {
    var all, n := placed + rest, |placed| - 1;
    assert all[n] == placed[n];
    assert forall k :: 0 <= k < n ==> all[k] == placed[k] && placed[k].name != placed[n].name;
    assert IndexOf(all, placed[n]) == n;
    assert all[..n + 1] == placed && all[n + 1..] == rest;
  }

  /** A row that is already next stays where it is. */
  lemma PlaceInPlace(ul: seq<Li>, j: nat, li: Li)
    requires j < |ul| && ul[j] == li
    ensures Place(ul, j, li) == ul
  {
  }

  // ---------- Reconciliation ----------

  function NamesOf(entries: seq<Entry>): seq<string> {
    seq(|entries|, i requires 0 <= i < |entries| => entries[i].name)
  }

  /** A directory listing: distinct, proper names. */
  ghost predicate Listing(entries: seq<Entry>) {
    && (forall i :: 0 <= i < |entries| ==> Paths.ValidName(entries[i].name))
    && forall i, j :: 0 <= i < j < |entries| ==> entries[i].name != entries[j].name
  }

  /** `have` finds the rows of `kids` by name. */
  ghost predicate Indexes(have: map<string, Li>, kids: seq<Li>) {
    && (forall i :: 0 <= i < |kids| ==> kids[i].name in have && have[kids[i].name] == kids[i])
    && forall name :: name in have ==> exists i :: 0 <= i < |kids| && kids[i].name == name
  }

  /** The registry after the subtrees of those of the first `n` rows that `names` does not list have been forgotten. */
  function Dropped(nodes: Nodes, kids: seq<Li>, n: nat, names: seq<string>): Nodes
    requires n <= |kids|
  {
    map k | k in nodes && forall i :: 0 <= i < n && kids[i].name !in names ==> !Under(kids[i].rel, k) :: nodes[k]
  }

  /** The rows that `names` lists, in their present order. */
  function Surviving(kids: seq<Li>, names: seq<string>): seq<Li> {
    if kids == [] then []
    else Surviving(kids[..|kids| - 1], names) + if kids[|kids| - 1].name in names then [kids[|kids| - 1]] else []
  }

  lemma {:induction false} SurvivingRows(kids: seq<Li>, names: seq<string>, k: nat) returns (i: nat)
    requires k < |Surviving(kids, names)|
    ensures i < |kids| && Surviving(kids, names)[k] == kids[i] && kids[i].name in names
  {
    var init := kids[..|kids| - 1];
    if k < |Surviving(init, names)| {
      i := SurvivingRows(init, names, k);
    } else {
      i := |kids| - 1;
    }
  }

  lemma {:induction false} SurvivingDistinct(kids: seq<Li>, names: seq<string>)
    requires DistinctNames(kids)
    ensures DistinctNames(Surviving(kids, names))
  {
    if kids != [] {
      var init := kids[..|kids| - 1];
      SurvivingDistinct(init, names);
      forall k | 0 <= k < |Surviving(init, names)|
        ensures Surviving(init, names)[k].name != kids[|kids| - 1].name
      {
        var i := SurvivingRows(init, names, k);
      }
    }
  }

  /** Removing the next unlisted row from the partly cleaned list. */
  lemma RemoveNext(kids: seq<Li>, names: seq<string>, n: nat)
    requires n < |kids| && DistinctNames(kids)
    ensures kids[n].name in names ==>
              Surviving(kids[..n], names) + kids[n..] == Surviving(kids[..n + 1], names) + kids[n + 1..]
    ensures kids[n].name !in names ==>
              Detach(Surviving(kids[..n], names) + kids[n..], kids[n]) == Surviving(kids[..n + 1], names) + kids[n + 1..]
  {
    var before := Surviving(kids[..n], names);
    assert kids[..n + 1][..n] == kids[..n];
    assert kids[n..] == [kids[n]] + kids[n + 1..];
    if kids[n].name !in names {
      forall k | 0 <= k < |before|
        ensures before[k] != kids[n]
      {
        var i := SurvivingRows(kids[..n], names, k);
      }
      DetachTail(before, kids[n..], kids[n]);
      assert Detach(kids[n..], kids[n]) == kids[n + 1..];
    } else {
      assert before + kids[n..] == before + [kids[n]] + kids[n + 1..];
    }
  }

  lemma DroppedIsReady(nodes: Nodes, parent: string, kids: seq<Li>, n: nat, names: seq<string>)
    requires Agrees(nodes) && parent in nodes && nodes[parent].kids == Some(kids) && n < |kids|
    ensures var d := Dropped(nodes, kids, n, names); kids[n].rel != "" && AllPlaced(d) && Closed(d, kids[n].rel)
  {
    var d := Dropped(nodes, kids, n, names);
    assert Placed(parent, kids);
    forall k | k in d && k != ""
      ensures Hangs(d, k)
    {
      assert Hangs(nodes, k);
      forall i | 0 <= i < n && kids[i].name !in names
        ensures !Under(kids[i].rel, Paths.ParentRel(k))
      {
        if Under(kids[i].rel, Paths.ParentRel(k)) { UnderFromParent(kids[i].rel, k); }
      }
    }
  }

  lemma DroppedStep(nodes: Nodes, kids: seq<Li>, n: nat, names: seq<string>)
    requires n < |kids|
    ensures kids[n].name in names ==> Dropped(nodes, kids, n + 1, names) == Dropped(nodes, kids, n, names)
    ensures kids[n].name !in names ==>
              Dropped(nodes, kids, n + 1, names) == Without(Dropped(nodes, kids, n, names), kids[n].rel)
  {
  }

  // The insertion loop: the first `j` rows are in place, the others are survivors still to be placed.

  ghost predicate Front(entries: seq<Entry>, have: map<string, Li>, ul: seq<Li>, j: nat) {
    && j <= |ul| && j <= |entries|
    && forall i :: 0 <= i < j ==>
         && ul[i].name == entries[i].name
         && (ul[i].name in have ==> ul[i] == have[ul[i].name])
  }

  ghost predicate Back(entries: seq<Entry>, have: map<string, Li>, rest: seq<Li>, j: nat) {
    forall i :: 0 <= i < |rest| ==>
      && rest[i].name in have && have[rest[i].name] == rest[i]
      && exists m :: j <= m < |entries| && entries[m].name == rest[i].name
  }

  lemma BackAfterDetach(entries: seq<Entry>, have: map<string, Li>, rest: seq<Li>, j: nat, li: Li)
    requires Listing(entries) && j < |entries| && Back(entries, have, rest, j) && DistinctNames(rest)
    requires li.name == entries[j].name && (li.name in have ==> have[li.name] == li)
    ensures Back(entries, have, Detach(rest, li), j + 1)
    ensures forall i :: 0 <= i < |Detach(rest, li)| ==> Detach(rest, li)[i].name != li.name
  {
    var after := Detach(rest, li);
    DetachMembers(rest, li);
    forall i | 0 <= i < |after|
      ensures after[i].name != li.name && after[i].name in have && have[after[i].name] == after[i]
      ensures exists m :: j + 1 <= m < |entries| && entries[m].name == after[i].name
    {
      var m := DetachIndex(rest, li, i);
      assert after[i] in Elems(after);
      assert after[i] != li;
      var e :| j <= e < |entries| && entries[e].name == rest[m].name;
      assert e != j;
    }
  }

  lemma PlaceKeeps(entries: seq<Entry>, have: map<string, Li>, ul: seq<Li>, j: nat, li: Li)
    requires Listing(entries) && j < |entries| && DistinctNames(ul)
    requires Front(entries, have, ul, j) && Back(entries, have, ul[j..], j)
    requires li.name == entries[j].name && (li.name in have ==> have[li.name] == li)
    ensures li !in ul[..j]
    ensures Front(entries, have, Place(ul, j, li), j + 1) && Place(ul, j, li)[..j] == ul[..j]
    ensures Back(entries, have, Place(ul, j, li)[j + 1..], j + 1) && DistinctNames(Place(ul, j, li))
  {
    var rest := Detach(ul[j..], li);
    var ul' := Place(ul, j, li);
    BackAfterDetach(entries, have, ul[j..], j, li);
    assert forall i :: 0 <= i < j ==> ul[..j][i].name == entries[i].name != li.name;
    assert ul'[j + 1..] == rest && ul'[..j] == ul[..j] && ul'[j] == li;
    DetachMembers(ul[j..], li);
    forall x, y | 0 <= x < y < |ul'|
      ensures ul'[x].name != ul'[y].name
    {
      if x < j && y > j {
        var m := DetachIndex(ul[j..], li, y - j - 1);
        assert ul[j + m] == ul'[y] && ul[x] == ul'[x];
      } else if x > j {
        assert rest[x - j - 1] == ul'[x] && rest[y - j - 1] == ul'[y];
      } else if x == j {
        assert rest[y - j - 1] == ul'[y];
      }
    }
  }

  ghost predicate NewKey(parent: string, entries: seq<Entry>, have: map<string, Li>, j: nat, k: string)
    requires j <= |entries|
  {
    exists i :: 0 <= i < j && entries[i].name !in have && k == ChildRel(parent, entries[i].name)
  }

  /** `li` is the row made for `ent`. */
  ghost predicate RowFor(parent: string, ent: Entry, li: Li, nodes: Nodes) {
    && li.name == ent.name && li.isDir == ent.isDir && li.rel == ChildRel(parent, ent.name)
    && li.rel in nodes && nodes[li.rel] == Node(li, None, false, li.isDir)
  }

  /** The rows made so far: new ones are registered unexpanded, everything else is as in `base`. */
  ghost predicate Made(base: Nodes, parent: string, entries: seq<Entry>, have: map<string, Li>,
                       ul: seq<Li>, j: nat, nodes: Nodes)
    requires j <= |entries| && j <= |ul|
  {
    && (forall k :: k in base ==> k in nodes && nodes[k] == base[k])
    && (forall k :: k in nodes && k !in base ==> NewKey(parent, entries, have, j, k))
    && forall i :: 0 <= i < j && entries[i].name !in have ==> RowFor(parent, entries[i], ul[i], nodes)
  }

  /** None of the rows to be made is registered yet. */
  ghost predicate RoomFor(base: Nodes, parent: string, entries: seq<Entry>, have: map<string, Li>) {
    forall i :: 0 <= i < |entries| && entries[i].name !in have ==> ChildRel(parent, entries[i].name) !in base
  }

  lemma MakeKnown(base: Nodes, parent: string, entries: seq<Entry>, have: map<string, Li>,
                  ul: seq<Li>, ul': seq<Li>, j: nat, nodes: Nodes)
    requires j < |entries| && j <= |ul| && j < |ul'| && ul'[..j] == ul[..j]
    requires Made(base, parent, entries, have, ul, j, nodes) && entries[j].name in have
    ensures Made(base, parent, entries, have, ul', j + 1, nodes)
  {
    forall i | 0 <= i < j + 1 && entries[i].name !in have
      ensures RowFor(parent, entries[i], ul'[i], nodes)
    {
      assert i < j;
      assert ul'[i] == ul'[..j][i] == ul[..j][i] == ul[i];
    }
    forall k | k in nodes && k !in base
      ensures NewKey(parent, entries, have, j + 1, k)
    {
      assert NewKey(parent, entries, have, j, k);
    }
  }

  lemma MakeNew(base: Nodes, parent: string, entries: seq<Entry>, have: map<string, Li>,
                ul: seq<Li>, ul': seq<Li>, j: nat, nodes: Nodes, nodes': Nodes)
    requires Listing(entries) && j < |entries| && j <= |ul| && j < |ul'| && ul'[..j] == ul[..j]
    requires RoomFor(base, parent, entries, have) && entries[j].name !in have
    requires Made(base, parent, entries, have, ul, j, nodes)
    requires nodes' == nodes[ul'[j].rel := Node(ul'[j], None, false, ul'[j].isDir)]
    requires RowFor(parent, entries[j], ul'[j], nodes')
    ensures Made(base, parent, entries, have, ul', j + 1, nodes')
  {
    forall i | 0 <= i < j + 1 && entries[i].name !in have
      ensures RowFor(parent, entries[i], ul'[i], nodes')
    {
      if i < j {
        assert ul'[i] == ul'[..j][i] == ul[..j][i] == ul[i];
        if ul[i].rel == ul'[j].rel { ChildRelInjective(parent, entries[i].name, entries[j].name); }
      }
    }
    forall k | k in nodes' && k !in base
      ensures NewKey(parent, entries, have, j + 1, k)
    {
      if k != ul'[j].rel { assert NewKey(parent, entries, have, j, k); }
    }
  }

  // ---------- What reconciliation achieves ----------

  /** Path `k` lies in the subtree of a row that the listing no longer names. */
  ghost predicate Gone(kids: seq<Li>, names: seq<string>, k: string) {
    exists i :: 0 <= i < |kids| && kids[i].name !in names && Under(kids[i].rel, k)
  }

  ghost predicate HasName(kids: seq<Li>, name: string) {
    exists i :: 0 <= i < |kids| && kids[i].name == name
  }

  ghost predicate Reconciled(before: Nodes, parent: string, entries: seq<Entry>, after: Nodes)
    requires parent in before && before[parent].kids.Some?
  {
    var kids, names := before[parent].kids.value, NamesOf(entries);
    && parent in after && after[parent].kids.Some?
    && var ul := after[parent].kids.value;
    && after[parent] == before[parent].(kids := Some(ul))
    && Names(ul, names)
    && (forall i, m :: 0 <= i < |ul| && 0 <= m < |kids| && kids[m].name == names[i] ==> ul[i] == kids[m])
    && (forall k :: k in before && k != parent && !Gone(kids, names, k) ==> k in after && after[k] == before[k])
    && (forall k :: k in before && Gone(kids, names, k) ==> k !in after)
    && (forall i :: 0 <= i < |ul| && !HasName(kids, names[i]) ==>
          RowFor(parent, entries[i], ul[i], after) && ul[i].rel !in before)
    && (forall k :: k in after && k !in before ==>
          exists i :: 0 <= i < |ul| && !HasName(kids, names[i]) && k == ul[i].rel)
  }

  lemma SurvivorsAhead(kids: seq<Li>, entries: seq<Entry>, have: map<string, Li>)
    requires DistinctNames(kids) && Indexes(have, kids)
    ensures DistinctNames(Surviving(kids, NamesOf(entries)))
    ensures Back(entries, have, Surviving(kids, NamesOf(entries)), 0)
    ensures forall name :: name in have ==> have[name].name == name
  {
    var names := NamesOf(entries);
    var rest := Surviving(kids, names);
    SurvivingDistinct(kids, names);
    forall k | 0 <= k < |rest|
      ensures rest[k].name in have && have[rest[k].name] == rest[k]
      ensures exists m :: 0 <= m < |entries| && entries[m].name == rest[k].name
    {
      var i := SurvivingRows(kids, names, k);
      var m :| 0 <= m < |names| && names[m] == kids[i].name;
      assert entries[m].name == rest[k].name;
    }
  }

  /** Removing child rows of `parent` leaves `parent` and everything not below them. */
  lemma DroppedKeepsParent(nodes: Nodes, parent: string, kids: seq<Li>, names: seq<string>)
    requires Placed(parent, kids)
    ensures !Gone(kids, names, parent)
    ensures forall k :: k in Dropped(nodes, kids, |kids|, names) <==> k in nodes && !Gone(kids, names, k)
    ensures parent in nodes ==> parent in Dropped(nodes, kids, |kids|, names)
  {
  }

  lemma DroppedHasRoom(nodes: Nodes, parent: string, kids: seq<Li>, entries: seq<Entry>, have: map<string, Li>)
    requires Agrees(nodes) && parent in nodes && nodes[parent].kids == Some(kids)
    requires Listing(entries) && Indexes(have, kids)
    ensures RoomFor(Dropped(nodes, kids, |kids|, NamesOf(entries)), parent, entries, have)
  {
    forall i | 0 <= i < |entries| && entries[i].name !in have
      ensures ChildRel(parent, entries[i].name) !in nodes
    {
      NotRegistered(nodes, parent, kids, entries[i].name);
    }
  }

  /** A name that no child row has is not registered below the parent. */
  lemma NotRegistered(nodes: Nodes, parent: string, kids: seq<Li>, name: string)
    requires Agrees(nodes) && parent in nodes && nodes[parent].kids == Some(kids) && Paths.ValidName(name)
    requires !HasName(kids, name)
    ensures ChildRel(parent, name) !in nodes
  {
    var rel := ChildRel(parent, name);
    if rel in nodes {
      ParentOfChild(parent, name);
      assert rel != "" && Hangs(nodes, rel);
      var i :| 0 <= i < |kids| && kids[i].rel == rel;
      assert Placed(parent, kids);
      ChildRelInjective(parent, kids[i].name, name);
    }
  }

  /** Outside the reconciled list, child rows of remaining rows remain. */
  lemma OtherKidsStay(before: Nodes, parent: string, kids: seq<Li>, names: seq<string>, p: string, name: string)
    requires Placed(parent, kids) && Paths.ValidName(name)
    requires !Gone(kids, names, p) && p != parent
    ensures !Gone(kids, names, ChildRel(p, name))
  {
    if Gone(kids, names, ChildRel(p, name)) {
      var i :| 0 <= i < |kids| && kids[i].name !in names && Under(kids[i].rel, ChildRel(p, name));
      ParentOfChild(p, name);
      ParentOfChild(parent, kids[i].name);
      ChildUnder(kids[i].rel, p, name);
    }
  }

  /** A child row that stays is not below one that goes. */
  lemma SurvivorStays(parent: string, kids: seq<Li>, names: seq<string>, name: string)
    requires Placed(parent, kids) && Paths.ValidName(name) && name in names
    ensures !Gone(kids, names, ChildRel(parent, name))
  {
    if Gone(kids, names, ChildRel(parent, name)) {
      var i :| 0 <= i < |kids| && kids[i].name !in names && Under(kids[i].rel, ChildRel(parent, name));
      if kids[i].rel == ChildRel(parent, name) {
        ChildRelInjective(parent, kids[i].name, name);
      } else {
        ChildUnder(kids[i].rel, parent, name);
        ChildIsLonger(parent, kids[i].name);
      }
    }
  }

  lemma ParentNotGone(kids: seq<Li>, names: seq<string>, k: string)
    requires !Gone(kids, names, k) && forall i :: 0 <= i < |kids| ==> kids[i].rel != ""
    ensures !Gone(kids, names, Paths.ParentRel(k))
  {
  }

  lemma BackIsEmpty(entries: seq<Entry>, have: map<string, Li>, ul: seq<Li>)
    requires |entries| <= |ul| && Back(entries, have, ul[|entries|..], |entries|)
    ensures |ul| == |entries|
  {
    if |ul| > |entries| { BackAhead(entries, have, ul[|entries|..], |entries|, 0); }
  }

  lemma BackAhead(entries: seq<Entry>, have: map<string, Li>, rest: seq<Li>, j: nat, i: nat)
    requires Back(entries, have, rest, j) && i < |rest|
    ensures j < |entries|
  {
    assert rest[i].name in have;
  }

  lemma NothingBelow(nodes: Nodes, rel: string)
    requires rel != "" && Closed(nodes, rel) && (rel !in nodes || nodes[rel].kids.None?)
    ensures Without(nodes, rel) == nodes - {rel}
  {
    forall k | k in nodes && Under(rel, k) && k != rel
      ensures false
    {
      var i := Descent(nodes, rel, k);
    }
  }

  /** The registry after `rel` and the subtrees of its first `n` child rows have been forgotten. */
  function Pruned(nodes: Nodes, rel: string, kids: seq<Li>, n: nat): Nodes
    requires n <= |kids|
  {
    map k | k in nodes && k != rel && forall i :: 0 <= i < n ==> !Under(kids[i].rel, k) :: nodes[k]
  }

  lemma PrunedIsReady(nodes: Nodes, rel: string, kids: seq<Li>, n: nat)
    requires rel != "" && n < |kids| && Placed(rel, kids) && AllPlaced(nodes) && Closed(nodes, rel)
    ensures kids[n].rel != "" && AllPlaced(Pruned(nodes, rel, kids, n)) && Closed(Pruned(nodes, rel, kids, n), kids[n].rel)
  {
    var c := kids[n].rel;
    var pruned := Pruned(nodes, rel, kids, n);
    DeleteKeepsClosed(nodes, rel, kids[n].name);
    forall k | k in pruned && Under(c, k) && k != c
      ensures Hangs(pruned, k)
    {
      assert Hangs(nodes - {rel}, k);
      forall i | 0 <= i < n
        ensures !Under(kids[i].rel, Paths.ParentRel(k))
      {
        if Under(kids[i].rel, Paths.ParentRel(k)) { UnderFromParent(kids[i].rel, k); }
      }
    }
  }

  lemma PrunedStep(nodes: Nodes, rel: string, kids: seq<Li>, n: nat)
    requires n < |kids|
    ensures Without(Pruned(nodes, rel, kids, n), kids[n].rel) == Pruned(nodes, rel, kids, n + 1)
  {
  }

  lemma PrunedAll(nodes: Nodes, rel: string, kids: seq<Li>)
    requires rel != "" && rel in nodes && nodes[rel].kids == Some(kids) && Placed(rel, kids) && Closed(nodes, rel)
    ensures Pruned(nodes, rel, kids, |kids|) == Without(nodes, rel)
  {
    forall k | k in nodes
      ensures k != rel && (forall i :: 0 <= i < |kids| ==> !Under(kids[i].rel, k)) <==> !Under(rel, k)
    {
      if Under(rel, k) && k != rel {
        var i := Descent(nodes, rel, k);
      }
    }
  }

  /** The outcome of the loops of a reconciliation. */
  ghost predicate Reworked(before: Nodes, parent: string, kids: seq<Li>, entries: seq<Entry>, have: map<string, Li>,
                           ul: seq<Li>, mid: Nodes) {
    && Agrees(before) && parent in before && before[parent].kids == Some(kids)
    && Listing(entries) && Indexes(have, kids) && Names(ul, NamesOf(entries))
    && (forall i :: 0 <= i < |entries| && entries[i].name in have ==> ul[i] == have[entries[i].name])
    && Made(Dropped(before, kids, |kids|, NamesOf(entries)), parent, entries, have, ul, |entries|, mid)
  }

  /** The child list after the loops: kept rows are the old objects, all are placed and registered. */
  lemma NewListIsSound(before: Nodes, parent: string, kids: seq<Li>, entries: seq<Entry>, have: map<string, Li>,
                       ul: seq<Li>, mid: Nodes)
    requires Reworked(before, parent, kids, entries, have, ul, mid)
    ensures Placed(parent, ul)
    ensures forall i :: 0 <= i < |ul| ==> Known(mid, ul[i]) && ul[i].rel != parent
  {
    assert Placed(parent, kids);
    var names := NamesOf(entries);
    forall i | 0 <= i < |ul|
      ensures Paths.ValidName(ul[i].name) && ul[i].rel == ChildRel(parent, ul[i].name)
      ensures Known(mid, ul[i]) && ul[i].rel != parent
    {
      ChildIsLonger(parent, entries[i].name);
      if entries[i].name in have {
        var m :| 0 <= m < |kids| && kids[m].name == entries[i].name;
        assert ul[i] == kids[m] && Known(before, kids[m]);
        assert names[i] == kids[m].name;
        SurvivorStays(parent, kids, names, kids[m].name);
        DroppedKeepsParent(before, parent, kids, names);
      } else {
        assert RowFor(parent, entries[i], ul[i], mid);
      }
    }
  }

  /** `after` keeps every node that is not gone, `parent` up to its child list. */
  ghost predicate KeepsRest(before: Nodes, after: Nodes, parent: string, kids: seq<Li>, names: seq<string>) {
    && parent in before && parent in after
    && after[parent].li == before[parent].li && after[parent].isDir == before[parent].isDir
    && forall k :: k in before && k != parent && !Gone(kids, names, k) ==> k in after && after[k] == before[k]
  }

  /** Every row that is still named is in the new list. */
  ghost predicate CarriesOver(kids: seq<Li>, names: seq<string>, ul: seq<Li>) {
    forall m :: 0 <= m < |kids| && kids[m].name in names ==> kids[m] in ul
  }

  lemma KeptNodeIsSound(before: Nodes, after: Nodes, parent: string, kids: seq<Li>, names: seq<string>, p: string)
    requires AllPlaced(before) && AllKnown(before) && Placed(parent, kids)
    requires KeepsRest(before, after, parent, kids, names)
    requires p in before && p != parent && !Gone(kids, names, p) && before[p].kids.Some?
    ensures p in after && after[p] == before[p] && Placed(p, before[p].kids.value)
    ensures forall i :: 0 <= i < |before[p].kids.value| ==> Known(after, before[p].kids.value[i])
  {
    forall i | 0 <= i < |before[p].kids.value|
      ensures Known(after, before[p].kids.value[i])
    {
      var li := before[p].kids.value[i];
      assert Placed(p, before[p].kids.value) && Known(before, li);
      OtherKidsStay(before, parent, kids, names, p, li.name);
    }
  }

  lemma OldRowHangs(before: Nodes, after: Nodes, parent: string, kids: seq<Li>, names: seq<string>, ul: seq<Li>, k: string)
    requires Hangs(before, k) && k != "" && !Gone(kids, names, k)
    requires KeepsRest(before, after, parent, kids, names) && Placed(parent, kids)
    requires before[parent].kids == Some(kids) && after[parent].kids == Some(ul) && CarriesOver(kids, names, ul)
    ensures Hangs(after, k)
  {
    var p := Paths.ParentRel(k);
    forall i | 0 <= i < |kids| ensures kids[i].rel != "" { ChildIsLonger(parent, kids[i].name); }
    ParentNotGone(kids, names, k);
    if p == parent {
      var m :| 0 <= m < |kids| && kids[m].rel == k;
      assert kids[m].name in names;
      var i :| 0 <= i < |ul| && ul[i] == kids[m];
    }
  }

  lemma RootStays(parent: string, kids: seq<Li>, names: seq<string>)
    requires Placed(parent, kids)
    ensures !Gone(kids, names, "")
  {
  }

  lemma ReworkKeepsRest(before: Nodes, parent: string, kids: seq<Li>, entries: seq<Entry>, have: map<string, Li>,
                        ul: seq<Li>, mid: Nodes, after: Nodes)
    requires Reworked(before, parent, kids, entries, have, ul, mid)
    requires parent in mid && after == mid[parent := mid[parent].(kids := Some(ul))]
    ensures KeepsRest(before, after, parent, kids, NamesOf(entries))
    ensures after[parent] == before[parent].(kids := Some(ul))
  {
    var names := NamesOf(entries);
    assert Placed(parent, kids);
    DroppedKeepsParent(before, parent, kids, names);
    var base := Dropped(before, kids, |kids|, names);
    assert parent in base && mid[parent] == base[parent] == before[parent];
    forall k | k in before && k != parent && !Gone(kids, names, k)
      ensures k in after && after[k] == before[k]
    {
      assert k in base && base[k] == before[k];
    }
  }

  lemma ReworkCarriesOver(kids: seq<Li>, entries: seq<Entry>, have: map<string, Li>, ul: seq<Li>)
    requires Indexes(have, kids) && |ul| == |entries|
    requires forall i :: 0 <= i < |entries| && entries[i].name in have ==> ul[i] == have[entries[i].name]
    ensures CarriesOver(kids, NamesOf(entries), ul)
    ensures forall i, m :: 0 <= i < |ul| && 0 <= m < |kids| && kids[m].name == NamesOf(entries)[i] ==> ul[i] == kids[m]
  {
  }

  /** What `after` has beyond the kept nodes are unexpanded rows of the new list, none of them registered before. */
  ghost predicate OnlyAdds(before: Nodes, after: Nodes, kids: seq<Li>, names: seq<string>, ul: seq<Li>)
    requires |ul| == |names|
  {
    forall k :: k in after && !(k in before && !Gone(kids, names, k)) ==>
      && k !in before && after[k].kids.None?
      && exists i :: 0 <= i < |ul| && !HasName(kids, names[i]) && k == ul[i].rel
  }

  lemma ReworkOnlyAdds(before: Nodes, parent: string, kids: seq<Li>, entries: seq<Entry>, have: map<string, Li>,
                       ul: seq<Li>, mid: Nodes, after: Nodes)
    requires Reworked(before, parent, kids, entries, have, ul, mid)
    requires parent in mid && after == mid[parent := mid[parent].(kids := Some(ul))]
    ensures OnlyAdds(before, after, kids, NamesOf(entries), ul)
  {
    var names := NamesOf(entries);
    assert Placed(parent, kids);
    DroppedKeepsParent(before, parent, kids, names);
    forall k | k in after && !(k in before && !Gone(kids, names, k))
      ensures k !in before && after[k].kids.None?
      ensures exists i :: 0 <= i < |ul| && !HasName(kids, names[i]) && k == ul[i].rel
    {
      assert NewKey(parent, entries, have, |entries|, k);
      var i :| 0 <= i < |entries| && entries[i].name !in have && k == ChildRel(parent, entries[i].name);
      assert RowFor(parent, entries[i], ul[i], mid) && !HasName(kids, names[i]);
      NotRegistered(before, parent, kids, entries[i].name);
    }
  }

  lemma ListsAreSound(before: Nodes, after: Nodes, parent: string, kids: seq<Li>, names: seq<string>, ul: seq<Li>)
    requires AllPlaced(before) && AllKnown(before) && Placed(parent, kids)
    requires KeepsRest(before, after, parent, kids, names)
    requires |ul| == |names| && OnlyAdds(before, after, kids, names, ul)
    requires after[parent].kids == Some(ul) && Placed(parent, ul) && forall i :: 0 <= i < |ul| ==> Known(after, ul[i])
    ensures AllPlaced(after) && AllKnown(after)
  {
    forall p | p in after && after[p].kids.Some? && p != parent
      ensures Placed(p, after[p].kids.value)
      ensures forall i :: 0 <= i < |after[p].kids.value| ==> Known(after, after[p].kids.value[i])
    {
      KeptNodeIsSound(before, after, parent, kids, names, p);
    }
  }

  lemma RowsHang(before: Nodes, after: Nodes, parent: string, kids: seq<Li>, names: seq<string>, ul: seq<Li>)
    requires forall k :: k in before && k != "" ==> Hangs(before, k)
    requires KeepsRest(before, after, parent, kids, names) && Placed(parent, kids)
    requires |ul| == |names| && OnlyAdds(before, after, kids, names, ul)
    requires before[parent].kids == Some(kids) && after[parent].kids == Some(ul)
    requires CarriesOver(kids, names, ul) && Placed(parent, ul)
    ensures forall k :: k in after && k != "" ==> Hangs(after, k)
  {
    forall k | k in after && k != ""
      ensures Hangs(after, k)
    {
      if k in before && !Gone(kids, names, k) {
        OldRowHangs(before, after, parent, kids, names, ul, k);
      } else {
        var i :| 0 <= i < |ul| && !HasName(kids, names[i]) && k == ul[i].rel;
        ParentOfChild(parent, ul[i].name);
      }
    }
  }

  lemma NewRowsRegistered(before: Nodes, parent: string, kids: seq<Li>, entries: seq<Entry>, have: map<string, Li>,
                          ul: seq<Li>, mid: Nodes, after: Nodes)
    requires Reworked(before, parent, kids, entries, have, ul, mid)
    requires parent in mid && after == mid[parent := mid[parent].(kids := Some(ul))]
    requires forall i :: 0 <= i < |ul| ==> ul[i].rel != parent
    ensures forall i :: 0 <= i < |ul| && !HasName(kids, NamesOf(entries)[i]) ==>
              RowFor(parent, entries[i], ul[i], after) && ul[i].rel !in before
  {
    forall i | 0 <= i < |ul| && !HasName(kids, NamesOf(entries)[i])
      ensures RowFor(parent, entries[i], ul[i], after) && ul[i].rel !in before
    {
      assert RowFor(parent, entries[i], ul[i], mid);
      NotRegistered(before, parent, kids, entries[i].name);
    }
  }

  lemma AgreesFromParts(before: Nodes, after: Nodes, parent: string, kids: seq<Li>, names: seq<string>, ul: seq<Li>)
    requires Agrees(before) && Placed(parent, kids) && KeepsRest(before, after, parent, kids, names)
    requires |ul| == |names| && OnlyAdds(before, after, kids, names, ul) && CarriesOver(kids, names, ul)
    requires before[parent].kids == Some(kids) && after[parent].kids == Some(ul)
    requires Placed(parent, ul) && forall i :: 0 <= i < |ul| ==> Known(after, ul[i])
    ensures Agrees(after)
  {
    ListsAreSound(before, after, parent, kids, names, ul);
    RowsHang(before, after, parent, kids, names, ul);
    RootStays(parent, kids, names);
  }

  lemma ReconciledFromParts(before: Nodes, after: Nodes, parent: string, kids: seq<Li>, entries: seq<Entry>, ul: seq<Li>)
    requires parent in before && before[parent].kids == Some(kids)
    requires |ul| == |entries| && Names(ul, NamesOf(entries))
    requires KeepsRest(before, after, parent, kids, NamesOf(entries))
    requires OnlyAdds(before, after, kids, NamesOf(entries), ul)
    requires after[parent] == before[parent].(kids := Some(ul))
    requires forall i, m :: 0 <= i < |ul| && 0 <= m < |kids| && kids[m].name == NamesOf(entries)[i] ==> ul[i] == kids[m]
    requires forall i :: 0 <= i < |ul| && !HasName(kids, NamesOf(entries)[i]) ==>
               RowFor(parent, entries[i], ul[i], after) && ul[i].rel !in before
    ensures Reconciled(before, parent, entries, after)
  {
  }

  lemma FinishReconcile(before: Nodes, parent: string, kids: seq<Li>, entries: seq<Entry>, have: map<string, Li>,
                        ul: seq<Li>, mid: Nodes, after: Nodes)
    requires Reworked(before, parent, kids, entries, have, ul, mid)
    requires parent in mid && after == mid[parent := mid[parent].(kids := Some(ul))]
    ensures Agrees(after) && Reconciled(before, parent, entries, after)
  {
    NewListIsSound(before, parent, kids, entries, have, ul, mid);
    ReworkKeepsRest(before, parent, kids, entries, have, ul, mid, after);
    ReworkCarriesOver(kids, entries, have, ul);
    ReworkOnlyAdds(before, parent, kids, entries, have, ul, mid, after);
    NewRowsRegistered(before, parent, kids, entries, have, ul, mid, after);
    StillKnown(ul, parent, mid, after);
    AgreesFromParts(before, after, parent, kids, NamesOf(entries), ul);
    ReconciledFromParts(before, after, parent, kids, entries, ul);
  }

  lemma StillKnown(ul: seq<Li>, parent: string, mid: Nodes, after: Nodes)
    requires parent in mid && after == mid[parent := mid[parent].(kids := Some(ul))]
    requires forall i :: 0 <= i < |ul| ==> Known(mid, ul[i])
    ensures forall i :: 0 <= i < |ul| ==> Known(after, ul[i])
  {
  }
}
