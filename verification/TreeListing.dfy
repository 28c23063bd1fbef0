/** The order in which internal/ui/tree.go lists a directory: directories first, then by name. */
module TreeListing {
  import opened Registry

  /** Go's < on strings. */
  predicate Less(a: string, b: string) {
    if b == "" then false
    else if a == "" then true
    else if a[0] != b[0] then a[0] < b[0]
    else Less(a[1..], b[1..])
  }

  /** The strings first differ at `i`. */
  ghost predicate DiffersAt(a: string, b: string, i: nat) {
    i < |a| && i < |b| && a[i] != b[i] && a[..i] == b[..i]
  }

  lemma {:induction false} LessWitness(a: string, b: string) returns (i: nat)
    requires Less(a, b) && !(a < b)
    ensures DiffersAt(a, b, i) && a[i] < b[i]
  {
    if a[0] != b[0] {
      i := 0;
    } else {
      assert a == [a[0]] + a[1..] && b == [b[0]] + b[1..];
      var k := LessWitness(a[1..], b[1..]);
      i := k + 1;
      assert a[..i] == [a[0]] + a[1..][..k] && b[..i] == [b[0]] + b[1..][..k];
    }
  }

  lemma {:induction false} LessFrom(a: string, b: string, i: nat)
    requires DiffersAt(a, b, i) && a[i] < b[i]
    ensures Less(a, b)
  {
    if i > 0 {
      assert a[0] == a[..i][0] == b[..i][0] == b[0];
      assert a[1..][..i - 1] == a[..i][1..] && b[1..][..i - 1] == b[..i][1..];
      LessFrom(a[1..], b[1..], i - 1);
    }
  }

  lemma {:induction false} PrefixIsLess(a: string, b: string)
    requires a < b
    ensures Less(a, b)
  {
    if a != "" {
      assert a[0] == b[0];
      assert a[1..] < b[1..];
      PrefixIsLess(a[1..], b[1..]);
    }
  }

  /** A string is less when it is a proper prefix of the other or has the smaller character where they first differ. */
  lemma LessExactly(a: string, b: string)
    ensures Less(a, b) <==> a < b || exists i: nat :: DiffersAt(a, b, i) && a[i] < b[i]
  {
    if Less(a, b) && !(a < b) {
      var i := LessWitness(a, b);
    }
    if a < b { PrefixIsLess(a, b); }
    if exists i: nat :: DiffersAt(a, b, i) && a[i] < b[i] {
      var i: nat :| DiffersAt(a, b, i) && a[i] < b[i];
      LessFrom(a, b, i);
    }
  }

  /** The comparator given to sort.Slice. */
  predicate Before(a: Entry, b: Entry) {
    if a.isDir != b.isDir then a.isDir else Less(a.name, b.name)
  }

  lemma {:induction false} LessIsTotal(a: string, b: string)
    ensures !Less(a, a)
    ensures a == b || Less(a, b) || Less(b, a)
    ensures !(Less(a, b) && Less(b, a))
  {
    if a != "" {
      LessIsTotal(a[1..], if b == "" then "" else b[1..]);
      assert b != "" && a[0] == b[0] && a[1..] == b[1..] ==> a == [a[0]] + a[1..] == b;
    }
  }

  lemma {:induction false} LessIsTransitive(a: string, b: string, c: string)
    requires Less(a, b) && Less(b, c)
    ensures Less(a, c)
  {
    if a != "" && a[0] == b[0] == c[0] {
      LessIsTransitive(a[1..], b[1..], c[1..]);
    }
  }

  /** The comparator never calls two different entries equal, so it fixes their order. */
  lemma BeforeIsTotal(a: Entry, b: Entry)
    ensures a == b <==> !Before(a, b) && !Before(b, a)
    ensures !(Before(a, b) && Before(b, a))
  {
    LessIsTotal(a.name, b.name);
  }

  lemma NotBeforeIsTransitive(a: Entry, b: Entry, c: Entry)
    requires !Before(b, a) && !Before(c, b)
    ensures !Before(c, a)
  {
    LessIsTotal(a.name, b.name);
    LessIsTotal(b.name, c.name);
    LessIsTotal(a.name, c.name);
    if Less(c.name, a.name) {
      if Less(a.name, b.name) { LessIsTransitive(c.name, a.name, b.name); }
    }
  }

  /** What sort.Slice promises. */
  ghost predicate Sorted(out: seq<Entry>) {
    forall i, j :: 0 <= i < j < |out| ==> !Before(out[j], out[i])
  }

  ghost predicate Sorts(entries: seq<Entry>, out: seq<Entry>) {
    Sorted(out) && multiset(out) == multiset(entries)
  }

  function Insert(e: Entry, out: seq<Entry>): seq<Entry> {
    if out == [] || Before(e, out[0]) then [e] + out else [out[0]] + Insert(e, out[1..])
  }

  function Listing(entries: seq<Entry>): seq<Entry> {
    if entries == [] then [] else Insert(entries[0], Listing(entries[1..]))
  }

  /** The first entry of a sorted list comes before or is any other entry of it. */
  lemma FirstIsLeast(out: seq<Entry>, e: Entry)
    requires Sorted(out) && out != [] && e in out
    ensures !Before(e, out[0])
  {
    BeforeIsTotal(e, e);
    var i :| 0 <= i < |out| && out[i] == e;
    assert i > 0 ==> !Before(out[i], out[0]);
  }

  lemma ConsSorted(x: Entry, rest: seq<Entry>)
    requires Sorted(rest) && forall e :: e in rest ==> !Before(e, x)
    ensures Sorted([x] + rest)
  {
  }

  lemma HeadIsLeast(e: Entry, out: seq<Entry>, rest: seq<Entry>)
    requires Sorted(out) && out != [] && !Before(e, out[0]) && multiset(rest) == multiset([e] + out[1..])
    ensures forall x :: x in rest ==> !Before(x, out[0])
  {
    forall x | x in rest
      ensures !Before(x, out[0])
    {
      assert x in multiset(rest);
      if x != e { FirstIsLeast(out, x); }
    }
  }

  lemma {:induction false} InsertSorts(e: Entry, out: seq<Entry>)
    requires Sorted(out)
    ensures Sorts([e] + out, Insert(e, out))
  {
    if out != [] {
      if Before(e, out[0]) {
        BeforeIsTotal(e, out[0]);
        forall x | x in out
          ensures !Before(x, e)
        {
          FirstIsLeast(out, x);
          NotBeforeIsTransitive(e, out[0], x);
        }
        ConsSorted(e, out);
      } else {
        var rest := Insert(e, out[1..]);
        InsertSorts(e, out[1..]);
        assert out == [out[0]] + out[1..];
        HeadIsLeast(e, out, rest);
        ConsSorted(out[0], rest);
      }
    }
  }

  lemma {:induction false} ListingSorts(entries: seq<Entry>)
    ensures Sorts(entries, Listing(entries))
  {
    if entries != [] {
      ListingSorts(entries[1..]);
      InsertSorts(entries[0], Listing(entries[1..]));
      assert entries == [entries[0]] + entries[1..];
    }
  }

  lemma SameTail(a: seq<Entry>, b: seq<Entry>)
    requires a != [] && b != [] && a[0] == b[0] && multiset(a) == multiset(b)
    ensures multiset(a[1..]) == multiset(b[1..])
  {
    assert a == [a[0]] + a[1..] && b == [b[0]] + b[1..];
    assert multiset(a[1..]) == multiset(a) - multiset{a[0]};
    assert multiset(b[1..]) == multiset(b) - multiset{a[0]};
  }

  /** Whatever algorithm sorts, and in whatever order the directory was read, the listing is the same. */
  lemma {:induction false} ListingIsUnique(a: seq<Entry>, b: seq<Entry>)
    requires Sorted(a) && Sorted(b) && multiset(a) == multiset(b)
    ensures a == b
  {
    assert |a| == |multiset(a)| == |b|;
    if a == [] {
      assert b == [];
    } else {
      assert a[0] in multiset(b) && b[0] in multiset(a);
      FirstIsLeast(a, b[0]);
      FirstIsLeast(b, a[0]);
      BeforeIsTotal(a[0], b[0]);
      SameTail(a, b);
      ListingIsUnique(a[1..], b[1..]);
      assert a == [a[0]] + a[1..];
      assert b == [a[0]] + a[1..];
    }
  }

  /** With distinct names: the directories come first, and names increase strictly in both parts. */
  lemma ListingOrder(entries: seq<Entry>, out: seq<Entry>) returns (dirs: nat)
    requires Sorts(entries, out)
    requires forall i, j :: 0 <= i < j < |out| ==> out[i].name != out[j].name
    ensures out == Listing(entries) && dirs <= |out|
    ensures forall i :: 0 <= i < |out| ==> (out[i].isDir <==> i < dirs)
    ensures forall i, j :: 0 <= i < j < |out| && (i < dirs <==> j < dirs) ==> Less(out[i].name, out[j].name)
  {
    ListingSorts(entries);
    ListingIsUnique(out, Listing(entries));
    dirs := 0;
    while dirs < |out| && out[dirs].isDir
      invariant dirs <= |out| && forall i :: 0 <= i < dirs ==> out[i].isDir
    {
      dirs := dirs + 1;
    }
    forall i | dirs <= i < |out|
      ensures !out[i].isDir
    {
      assert dirs < i ==> !Before(out[i], out[dirs]);
    }
    forall i, j | 0 <= i < j < |out| && (i < dirs <==> j < dirs)
      ensures Less(out[i].name, out[j].name)
    {
      assert !Before(out[j], out[i]);
      LessIsTotal(out[i].name, out[j].name);
    }
  }
}
