/**
 The laws of path cleaning, on paths alone: how cleanPath (internal/tap/tap.go) treats "..", ".", doubled slashes and
 names, one component at a time, and what follows for the tests of internal/ui/tree.go and internal/ui/claudehook.go.
 */
module CleanLaws {
  import opened Sequences
  import opened Paths

  /** What may follow a path: nothing, or a slash and more. */
  predicate IsTail(t: string) {
    t == "" || t[0] == '/'
  }

  function Parts(t: string): seq<string>
    requires IsTail(t)
  {
    if t == "" then [] else Split(t[1..])
  }

  lemma SplitTail(p: string, t: string)
    requires IsTail(t)
    ensures Split(p + t) == Split(p) + Parts(t)
  {
    if t == "" {
      assert p + t == p;
    } else {
      assert p + t == p + "/" + t[1..];
      SplitAt(p, t[1..]);
    }
  }

  /** The parts of a slash, a component and a tail. */
  lemma PartsOf(x: string, t: string)
    requires '/' !in x && IsTail(t)
    ensures Parts("/" + x + t) == [x] + Parts(t)
  {
    assert ("/" + x + t)[1..] == x + t;
    SplitTail(x, t);
    SplitSlashFree(x);
  }

  lemma CleanRooted(p: string)
    requires p != "" && p[0] == '/'
    ensures CleanPath(p) == Render(Resolve([], Split(p), true))
  {
    CleanAbsolute(p);
  }

  lemma CleanFrom(a: seq<string>, t: string)
    requires ValidNames(a) && IsTail(t)
    ensures CleanPath(Render(a) + t) == Render(Resolve(a, Parts(t), true))
  {
    SplitTail(Render(a), t);
    ResolveUnderRoot(a, Parts(t));
    CleanRooted(Render(a) + t);
  }

  lemma CleanStep(a: seq<string>, x: string, t: string)
    requires ValidNames(a) && '/' !in x && IsTail(t)
    ensures CleanPath(Render(a) + ("/" + x + t)) == Render(Resolve(Resolve1(a, x, true), Parts(t), true))
  {
    PartsOf(x, t);
    CleanFrom(a, "/" + x + t);
    assert ([x] + Parts(t))[1..] == Parts(t);
  }

  // ---------- The laws of absolute paths ----------

  /** ".." takes back the name before it. */
  lemma UpTakesBack(a: seq<string>, c: string, t: string)
    requires ValidNames(a) && ValidName(c) && IsTail(t)
    ensures CleanPath(Render(a + [c]) + "/.." + t) == CleanPath(Render(a) + t)
  {
    assert Render(a + [c]) + "/.." + t == Render(a + [c]) + ("/" + ".." + t);
    CleanStep(a + [c], "..", t);
    assert (a + [c])[..|a|] == a;
    CleanFrom(a, t);
  }

  /** At the root ".." goes nowhere. */
  lemma UpAtRoot(t: string)
    requires IsTail(t)
    ensures CleanPath("/.." + t) == CleanPath("/" + t)
  {
    assert "/.." + t == "" + ("/" + ".." + t);
    SplitTail("", "/" + ".." + t);
    PartsOf("..", t);
    CleanRooted("/.." + t);
    CleanFrom([], t);
    assert Render([]) + t == "/" + t;
    var parts := [""] + ([".."] + Parts(t));
    assert parts[1..] == [".."] + Parts(t) && parts[1..][1..] == Parts(t);
  }

  /** A "." and a doubled slash disappear. */
  lemma DotAndSlashVanish(a: seq<string>, t: string)
    requires ValidNames(a) && IsTail(t)
    ensures CleanPath(Render(a) + "/." + t) == CleanPath(Render(a) + t)
    ensures CleanPath(Render(a) + "/" + t) == CleanPath(Render(a) + t)
  {
    assert Render(a) + "/." + t == Render(a) + ("/" + "." + t);
    assert Render(a) + "/" + t == Render(a) + ("/" + "" + t);
    CleanStep(a, ".", t);
    CleanStep(a, "", t);
    CleanFrom(a, t);
  }

  lemma Regroup(p: string, slash: string, c: string, t: string)
    ensures p + slash + c + t == p + (slash + c + t)
  {
  }

  /** A name is appended. */
  lemma NameIsAppended(a: seq<string>, c: string, t: string)
    requires ValidNames(a) && ValidName(c) && IsTail(t)
    ensures CleanPath(Render(a) + "/" + c + t) == CleanPath(Render(a + [c]) + t)
  {
    Regroup(Render(a), "/", c, t);
    CleanStep(a, c, t);
    CleanFrom(a + [c], t);
  }

  /** So cleaning a clean path and one more name gives the path of the longer list of names. */
  lemma NameEnds(a: seq<string>, c: string)
    requires ValidNames(a) && ValidName(c)
    ensures CleanPath(Render(a) + "/" + c) == Render(a + [c])
  {
    assert Render(a) + "/" + c == Render(a) + ("/" + c + "");
    CleanStep(a, c, "");
  }

  // ---------- Relative paths ----------

  lemma RelativeIsNotDot(cs: seq<string>)
    requires Normal(cs, false) && cs != []
    ensures Join(cs) != "."
  {
    SplitJoin(cs);
    SplitSlashFree(".");
  }

  lemma CleanUnrooted(p: string)
    requires p != "" && p[0] != '/'
    ensures var cs := Resolve([], Split(p), false); CleanPath(p) == if cs == [] then "" else Join(cs)
  {
    var cs := Resolve([], Split(p), false);
    SplitSlashless(p);
    ResolveNormal([], Split(p), false);
    if cs != [] { RelativeIsNotDot(cs); }
  }

  lemma JoinedStart(a: seq<string>)
    requires ValidNames(a) && a != []
    ensures Join(a) != "" && Join(a)[0] != '/' && Split(Join(a)) == a
  {
    JoinHead(a);
    assert a[0][0] in a[0];
    SplitJoin(a);
  }

  lemma ResolveOwn(a: seq<string>, more: seq<string>)
    requires ValidNames(a)
    ensures Resolve([], a + more, false) == Resolve(a, more, false)
  {
    assert [] + a == a;
    assert Normal(a, false);
    ResolveAppend([], a, more, false);
    ResolveFixes([], a, false);
  }

  lemma CleanRelative(a: seq<string>, t: string)
    requires ValidNames(a) && a != [] && IsTail(t)
    ensures var cs := Resolve(a, Parts(t), false); CleanPath(Join(a) + t) == if cs == [] then "" else Join(cs)
  {
    JoinedStart(a);
    SplitTail(Join(a), t);
    assert (Join(a) + t)[0] == Join(a)[0];
    CleanUnrooted(Join(a) + t);
    ResolveOwn(a, Parts(t));
  }

  /** Names of a relative path stay, and ".." takes back the name before it. */
  lemma RelativeUp(a: seq<string>, c: string, t: string)
    requires ValidNames(a) && a != [] && ValidName(c) && IsTail(t)
    ensures CleanPath(Join(a)) == Join(a)
    ensures CleanPath(Join(a + [c]) + "/.." + t) == CleanPath(Join(a) + t)
  {
    assert Join(a) + "" == Join(a);
    CleanRelative(a, "");
    CleanRelative(a, t);
    assert Join(a + [c]) + "/.." + t == Join(a + [c]) + ("/" + ".." + t);
    PartsOf("..", t);
    CleanRelative(a + [c], "/" + ".." + t);
    assert (a + [c])[..|a|] == a && ([".."] + Parts(t))[1..] == Parts(t);
  }

  /** A path that climbs back to where it began is cleaned to nothing, which no directory holds. */
  lemma RelativeBack(c: string)
    requires ValidName(c)
    ensures CleanPath(c + "/..") == ""
  {
    assert c + "/.." == Join([c]) + ("/" + ".." + "");
    PartsOf("..", "");
    CleanRelative([c], "/" + ".." + "");
    assert [".."][1..] == [] && [c][..0] == [];
  }

  // ---------- The tests that clean ----------

  lemma ResolveNames(d: seq<string>, r: seq<string>)
    requires ValidNames(d) && ValidNames(r)
    ensures Resolve(d, r, true) == d + r
  {
    assert Normal(d + r, true);
    ResolveFixes(d, r, true);
  }

  lemma UpFrom(d: seq<string>, more: seq<string>)
    requires ValidNames(d) && d != []
    ensures Resolve(d, [".."] + more, true) == Resolve(d[..|d| - 1], more, true)
  {
    assert ([".."] + more)[1..] == more;
  }

  /** A query that climbs out of the root is refused. */
  lemma ClimbingIsRefused(d: seq<string>)
    requires ValidNames(d) && d != []
    ensures TreeRequest(Render(d), "..") == Refused
  {
    TreeRequestExact(d, "..");
    SplitSlashFree("..");
    UpFrom(d, []);
    assert [".."] + [] == [".."];
  }

  /** A query by names is served below the root. */
  lemma NamesAreServed(d: seq<string>, r: seq<string>)
    requires ValidNames(d) && ValidNames(r) && r != []
    ensures TreeRequest(Render(d), Join(r)) == if d == [] then Refused else Serves(Render(d + r))
  {
    JoinedStart(r);
    TreeRequestExact(d, Join(r));
    ResolveNames(d, r);
  }

  lemma SplitClimb(j: string)
    ensures Split("../" + j) == [".."] + Split(j)
  {
    assert "../" + j == ".." + "/" + j;
    SplitAt("..", j);
    SplitSlashFree("..");
  }

  lemma ClimbResolves(d: seq<string>, r: seq<string>)
    requires ValidNames(d) && d != [] && ValidNames(r) && r != []
    ensures Resolve(d, Split("../" + Join(r)), true) == d[..|d| - 1] + r
  {
    SplitClimb(Join(r));
    JoinedStart(r);
    UpFrom(d, r);
    ResolveNames(d[..|d| - 1], r);
  }

  lemma BackInside(d: seq<string>, r: seq<string>)
    requires d != [] && r != []
    ensures var up := d[..|d| - 1] + r;
            (d <= up <==> r[0] == d[|d| - 1]) && (r[0] == d[|d| - 1] ==> up == d + r[1..])
  {
    var n, up := |d| - 1, d[..|d| - 1] + r;
    assert up[n] == r[0];
    assert forall i :: 0 <= i < n ==> up[i] == d[i];
    if r[0] == d[n] { assert up == d + r[1..]; }
  }

  /** A query that climbs and comes back is served only if it comes back into the root. */
  lemma ClimbingBack(d: seq<string>, r: seq<string>)
    requires ValidNames(d) && d != [] && ValidNames(r) && r != []
    ensures TreeRequest(Render(d), "../" + Join(r))
         == if r[0] == d[|d| - 1] then Serves(Render(d + r[1..])) else Refused
  {
    TreeRequestExact(d, "../" + Join(r));
    ClimbResolves(d, r);
    BackInside(d, r);
  }

  /** The browser's relative form: what is left of the names below the root, and nothing for a path outside. */
  lemma RelativeByNames(root: seq<string>, p: seq<string>)
    requires ValidNames(root) && ValidNames(p) && root != []
    ensures RelFromFull(Render(root), Render(p)) == if root <= p then Some(Join(p[|root|..])) else None
  {
    if root <= p {
      assert p == root + p[|root|..];
      RelFromFullOfRender(root, p[|root|..]);
    } else {
      PrefixIsComponents(root, p);
      if Render(p) == Render(root) { RenderInjective(p, root); }
    }
  }

  /** A session is inside by its names; one in the parent of the root is not. */
  lemma SessionByNames(root: seq<string>, r: seq<string>, wd: seq<string>)
    requires ValidNames(root) && ValidNames(r) && ValidNames(wd)
    ensures CwdInside(Render(root + r), Render(root), Render(wd)) <==> r == [] || !HasPrefix(r[0], "..")
    ensures root != [] ==> !CwdInside(Render(root) + "/..", Render(root), Render(wd))
  {
    CwdInsideExact(Render(root + r), root, wd);
    ResolveRender(root + r);
    if root != [] {
      var cwd := Render(root) + "/..";
      CwdInsideExact(cwd, root, wd);
      SplitTail(Render(root), "/..");
      assert "/.."[1..] == "..";
      SplitSlashFree("..");
      ResolveUnderRoot(root, [".."]);
      UpFrom(root, []);
      assert [".."] + [] == [".."];
    }
  }
}
