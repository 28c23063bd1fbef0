/** Sequence vocabulary shared by the modules that model the program. */
module Sequences {

  datatype Option<+T> = None | Some(value: T)

  /** The last `n` elements of `s`, or all of `s` when it is shorter. */
  function LastN<T>(s: seq<T>, n: nat): (r: seq<T>)
    ensures |r| == if |s| < n then |s| else n
    ensures r == s[|s| - |r|..]
  {
    if |s| < n then s else s[|s| - n..]
  }

  lemma LastNMembers<T>(s: seq<T>, n: nat, x: T)
    requires x in LastN(s, n)
    ensures x in s
  {
  }

  function Flatten<T>(parts: seq<seq<T>>): seq<T> {
    if parts == [] then [] else parts[0] + Flatten(parts[1..])
  }

  lemma {:induction false} FlattenAppend<T>(a: seq<seq<T>>, b: seq<seq<T>>)
    ensures Flatten(a + b) == Flatten(a) + Flatten(b)
  {
    if a == [] {
      assert a + b == b;
    } else {
      assert (a + b)[1..] == a[1..] + b;
      FlattenAppend(a[1..], b);
    }
  }

  /** Appending the next element of `b` to `a` and the first `i` of `b`. */
  lemma TakeOneMore<T>(a: seq<T>, b: seq<T>, i: nat)
    requires i < |b|
    ensures a + b[..i] + [b[i]] == a + b[..i + 1]
  {
  }

  ghost predicate Distinct<T>(s: seq<T>) {
    forall i, j :: 0 <= i < j < |s| ==> s[i] != s[j]
  }

  ghost predicate Increasing(s: seq<int>) {
    forall i, j :: 0 <= i < j < |s| ==> s[i] < s[j]
  }

  /** The total of a finite map's values. */
  ghost function Sum<K>(m: map<K, nat>): nat
    decreases |m|
  {
    if m == map[] then 0
    else
      var k :| k in m;
      m[k] + Sum(m - {k})
  }

  lemma {:induction false} SumRemove<K>(m: map<K, nat>, k: K)
    requires k in m
    ensures Sum(m) == m[k] + Sum(m - {k})
    decreases |m|
  {
    var p :| p in m && Sum(m) == m[p] + Sum(m - {p});
    if p != k {
      SumRemove(m - {p}, k);
      SumRemove(m - {k}, p);
      assert m - {p} - {k} == m - {k} - {p};
    }
  }

  lemma SumUpdate<K>(m: map<K, nat>, k: K, v: nat)
    ensures Sum(m[k := v]) == Sum(m) - (if k in m then m[k] else 0) + v
  {
    SumRemove(m[k := v], k);
    if k in m {
      SumRemove(m, k);
      assert m[k := v] - {k} == m - {k};
    } else {
      assert m[k := v] - {k} == m;
    }
  }

  // ---------- Dropping elements ----------

  /** The elements that `drop` does not hold of, in order. */
  function Drop<T>(s: seq<T>, drop: T -> bool): seq<T> {
    if s == [] then []
    else Drop(s[..|s| - 1], drop) + if drop(s[|s| - 1]) then [] else [s[|s| - 1]]
  }

  lemma {:induction false} DropAppend<T>(a: seq<T>, b: seq<T>, drop: T -> bool)
    ensures Drop(a + b, drop) == Drop(a, drop) + Drop(b, drop)
  {
    if b == [] {
      assert a + b == a;
    } else {
      var init, last := b[..|b| - 1], b[|b| - 1];
      assert (a + b)[..|a + b| - 1] == a + init;
      DropAppend(a, init, drop);
      var end := if drop(last) then [] else [last];
      assert Drop(a, drop) + Drop(init, drop) + end == Drop(a, drop) + (Drop(init, drop) + end);
    }
  }

  lemma DropOne<T>(x: T, drop: T -> bool)
    ensures Drop([x], drop) == if drop(x) then [] else [x]
  {
  }

  /** Dropping by two tests commutes, and dropping twice by one test is dropping once. */
  lemma {:induction false} DropCommutes<T>(s: seq<T>, p: T -> bool, q: T -> bool)
    ensures Drop(Drop(s, p), q) == Drop(Drop(s, q), p)
    ensures Drop(Drop(s, p), p) == Drop(s, p)
  {
    if s != [] {
      var init, x := s[..|s| - 1], s[|s| - 1];
      DropCommutes(init, p, q);
      DropOne(x, p);
      DropOne(x, q);
      DropAppend(Drop(init, p), if p(x) then [] else [x], q);
      DropAppend(Drop(init, q), if q(x) then [] else [x], p);
      DropAppend(Drop(init, p), if p(x) then [] else [x], p);
    }
  }

  lemma {:induction false} DropAll<T>(s: seq<T>, drop: T -> bool)
    ensures Drop(s, drop) == [] <==> forall i :: 0 <= i < |s| ==> drop(s[i])
  {
    if s != [] {
      var init := s[..|s| - 1];
      DropAll(init, drop);
      assert forall i :: 0 <= i < |init| ==> init[i] == s[i];
    }
  }

  /** The positions of the elements that stay. */
  function KeptAt<T>(s: seq<T>, drop: T -> bool): (at: seq<int>)
    ensures forall k :: 0 <= k < |at| ==> 0 <= at[k] < |s|
  {
    if s == [] then []
    else KeptAt(s[..|s| - 1], drop) + if drop(s[|s| - 1]) then [] else [|s| - 1]
  }

  lemma {:induction false} KeptAtIncreases<T>(s: seq<T>, drop: T -> bool)
    ensures Increasing(KeptAt(s, drop))
  {
    if s != [] { KeptAtIncreases(s[..|s| - 1], drop); }
  }

  lemma {:induction false} KeptAtFinds<T>(s: seq<T>, drop: T -> bool)
    ensures |KeptAt(s, drop)| == |Drop(s, drop)|
    ensures forall k :: 0 <= k < |KeptAt(s, drop)| ==> Drop(s, drop)[k] == s[KeptAt(s, drop)[k]]
  {
    if s != [] {
      KeptAtFinds(s[..|s| - 1], drop);
      assert forall i :: 0 <= i < |s| - 1 ==> s[..|s| - 1][i] == s[i];
    }
  }

  /** They are exactly the positions of the elements that `drop` does not hold of. */
  lemma {:induction false} KeptAtCovers<T>(s: seq<T>, drop: T -> bool, i: nat)
    requires i < |s|
    ensures i in KeptAt(s, drop) <==> !drop(s[i])
  {
    var n := |s| - 1;
    var before := KeptAt(s[..n], drop);
    if i < n {
      KeptAtCovers(s[..n], drop, i);
      assert s[..n][i] == s[i];
    } else {
      assert i !in before;
    }
    SnocMember(before, if drop(s[n]) then [] else [n], i);
  }

  lemma SnocMember(at: seq<int>, more: seq<int>, i: int)
    ensures i in at + more <==> i in at || i in more
  {
  }
}
