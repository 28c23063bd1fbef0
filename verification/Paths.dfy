/**
 The path tests of the program are written on characters. This module states what they
 mean on path components: internal/tap/tap.go, internal/tap/tap_darwin.go,
 internal/ui/tree.go, internal/ui/claudehook.go, internal/ui/server.go (parentDir) and the
 path helpers of web/app.js.
 */
module Paths {
  import opened Sequences

  // ---------- Splitting at slashes ----------

  /** Go's strings.Split(p, "/"). */
  function Split(p: string): (cs: seq<string>)
    ensures cs != []
  {
    if p == "" then [""]
    else
      var rest := Split(p[1..]);
      if p[0] == '/' then [""] + rest else [[p[0]] + rest[0]] + rest[1..]
  }

  lemma {:induction false} SplitSlashless(p: string)
    ensures SlashFree(Split(p))
  {
    if p != "" { SplitSlashless(p[1..]); }
  }

  function Join(cs: seq<string>): string {
    if cs == [] then ""
    else if |cs| == 1 then cs[0]
    else cs[0] + "/" + Join(cs[1..])
  }

  lemma {:induction false} SplitSlashFree(c: string)
    requires '/' !in c
    ensures Split(c) == [c]
  {
    if c != "" {
      assert c[0] in c;
      SplitSlashFree(c[1..]);
      assert [c[0]] + c[1..] == c;
    }
  }

  /** A character put before a path joins the first component, or stands before it when it is a slash. */
  function Glue(x: char, cs: seq<string>): seq<string>
    requires cs != []
  {
    if x == '/' then [""] + cs else [[x] + cs[0]] + cs[1..]
  }

  lemma SplitCons(x: char, p: string)
    ensures Split([x] + p) == Glue(x, Split(p))
  {
  }

  lemma GlueAppend(x: char, cs: seq<string>, ds: seq<string>)
    requires cs != []
    ensures Glue(x, cs + ds) == Glue(x, cs) + ds
  {
  }

  lemma {:induction false} SplitAt(a: string, b: string)
    ensures Split(a + "/" + b) == Split(a) + Split(b)
  {
    if a == "" {
      assert a + "/" + b == ['/'] + b;
      SplitCons('/', b);
    } else {
      var x, rest := a[0], a[1..];
      assert a == [x] + rest && a + "/" + b == [x] + (rest + "/" + b);
      SplitAt(rest, b);
      SplitCons(x, rest);
      SplitCons(x, rest + "/" + b);
      GlueAppend(x, Split(rest), Split(b));
    }
  }

  ghost predicate SlashFree(cs: seq<string>) {
    forall i :: 0 <= i < |cs| ==> '/' !in cs[i]
  }

  lemma {:induction false} SplitJoin(cs: seq<string>)
    requires cs != [] && SlashFree(cs)
    ensures Split(Join(cs)) == cs
  {
    SplitSlashFree(cs[0]);
    if |cs| > 1 {
      SplitJoin(cs[1..]);
      SplitAt(cs[0], Join(cs[1..]));
    }
  }

  lemma {:induction false} JoinAppend(a: seq<string>, b: seq<string>)
    requires a != [] && b != []
    ensures Join(a + b) == Join(a) + "/" + Join(b)
  {
    assert (a + b)[1..] == a[1..] + b;
    if |a| > 1 {
      JoinAppend(a[1..], b);
      assert Join(a + b) == a[0] + "/" + (Join(a[1..]) + "/" + Join(b)) == Join(a) + "/" + Join(b);
    } else {
      assert a[1..] + b == b;
    }
  }

  // ---------- Clean absolute paths ----------

  /** A component of a clean path. */
  predicate ValidName(c: string) {
    c != "" && c != "." && c != ".." && '/' !in c
  }

  ghost predicate ValidNames(cs: seq<string>) {
    forall i :: 0 <= i < |cs| ==> ValidName(cs[i])
  }

  /** The absolute path with these components. */
  function Render(cs: seq<string>): string {
    "/" + Join(cs)
  }

  lemma RenderSplit(cs: seq<string>)
    requires SlashFree(cs)
    ensures Split(Render(cs)) == [""] + if cs == [] then [""] else cs
  {
    SplitAt("", Join(cs));
    assert "" + "/" + Join(cs) == Render(cs);
    if cs != [] { SplitJoin(cs); }
  }

  /** Different component lists are different paths. */
  lemma RenderInjective(a: seq<string>, b: seq<string>)
    requires ValidNames(a) && ValidNames(b) && Render(a) == Render(b)
    ensures a == b
  {
    RenderSplit(a);
    RenderSplit(b);
    var sa, sb := Split(Render(a)), Split(Render(b));
    assert sa[1..] == if a == [] then [""] else a;
    assert sb[1..] == if b == [] then [""] else b;
  }

  /** One component applied to a stack of resolved components: path.Clean's rules. */
  function Resolve1(stack: seq<string>, c: string, rooted: bool): seq<string> {
    if c == "" || c == "." then stack
    else if c == ".." then
      if stack != [] && stack[|stack| - 1] != ".." then stack[..|stack| - 1]
      else if rooted then stack
      else stack + [".."]
    else stack + [c]
  }

  function Resolve(stack: seq<string>, cs: seq<string>, rooted: bool): seq<string>
    decreases |cs|
  {
    if cs == [] then stack else Resolve(Resolve1(stack, cs[0], rooted), cs[1..], rooted)
  }

  /** Go's path.Clean. */
  function Clean(p: string): string {
    if p == "" then "."
    else if p[0] == '/' then Render(Resolve([], Split(p), true))
    else
      var cs := Resolve([], Split(p), false);
      if cs == [] then "." else Join(cs)
  }

  function CleanPath(p: string): string {
    if p == "" then p
    else
      var c := Clean(p);
      if c == "." then "" else c
  }

  /** What resolution leaves on the stack: names, preceded in a relative path by climbs. */
  ghost predicate Normal(cs: seq<string>, rooted: bool) {
    && (forall i :: 0 <= i < |cs| ==> cs[i] != "" && cs[i] != "." && '/' !in cs[i])
    && (forall i :: 0 <= i < |cs| && cs[i] == ".." ==> !rooted && (i > 0 ==> cs[i - 1] == ".."))
  }

  lemma {:induction false} ResolveNormal(stack: seq<string>, cs: seq<string>, rooted: bool)
    requires Normal(stack, rooted) && SlashFree(cs)
    ensures Normal(Resolve(stack, cs, rooted), rooted)
    decreases |cs|
  {
    if cs != [] {
      ResolveNormal(Resolve1(stack, cs[0], rooted), cs[1..], rooted);
    }
  }

  /** Normal components resolve to themselves. */
  lemma {:induction false} ResolveFixes(stack: seq<string>, cs: seq<string>, rooted: bool)
    requires Normal(stack + cs, rooted)
    ensures Resolve(stack, cs, rooted) == stack + cs
    decreases |cs|
  {
    if cs == [] {
      assert stack + cs == stack;
    } else {
      var all := stack + cs;
      assert cs[0] == all[|stack|];
      assert stack != [] ==> stack[|stack| - 1] == all[|stack| - 1];
      assert Resolve1(stack, cs[0], rooted) == stack + [cs[0]];
      assert stack + [cs[0]] + cs[1..] == all;
      ResolveFixes(stack + [cs[0]], cs[1..], rooted);
    }
  }

  lemma {:induction false} ResolveAppend(stack: seq<string>, a: seq<string>, b: seq<string>, rooted: bool)
    ensures Resolve(stack, a + b, rooted) == Resolve(Resolve(stack, a, rooted), b, rooted)
    decreases |a|
  {
    if a == [] {
      assert a + b == b;
    } else {
      assert (a + b)[1..] == a[1..] + b;
      ResolveAppend(Resolve1(stack, a[0], rooted), a[1..], b, rooted);
    }
  }

  lemma NormalIsValid(cs: seq<string>)
    ensures Normal(cs, true) <==> ValidNames(cs)
  {
  }

  /** Cleaning an absolute path gives the clean path of its resolved components. */
  lemma CleanAbsolute(p: string)
    requires p != "" && p[0] == '/'
    ensures CleanPath(p) == Render(Resolve([], Split(p), true))
    ensures ValidNames(Resolve([], Split(p), true))
  {
    SplitSlashless(p);
    ResolveNormal([], Split(p), true);
    NormalIsValid(Resolve([], Split(p), true));
  }

  lemma ResolveUnderRoot(d: seq<string>, tail: seq<string>)
    requires ValidNames(d)
    ensures Resolve([], Split(Render(d)) + tail, true) == Resolve(d, tail, true)
  {
    RenderSplit(d);
    NormalIsValid(d);
    var dd := if d == [] then [""] else d;
    assert [""] + dd == Split(Render(d));
    ResolveAppend([], [""] + dd, tail, true);
    ResolveAppend([], [""], dd, true);
    assert [] + d == d;
    ResolveFixes([], d, true);
  }

  lemma ResolveRender(cs: seq<string>)
    requires ValidNames(cs)
    ensures Resolve([], Split(Render(cs)), true) == cs
  {
    ResolveUnderRoot(cs, []);
    assert Split(Render(cs)) + [] == Split(Render(cs));
  }

  /** A clean absolute path is its own cleaning. */
  lemma CleanRender(cs: seq<string>)
    requires ValidNames(cs)
    ensures CleanPath(Render(cs)) == Render(cs)
  {
    ResolveRender(cs);
    assert Render(cs)[0] == '/';
  }

  /** Cleaning is idempotent on every string. */
  lemma CleanIdempotent(p: string)
    ensures CleanPath(CleanPath(p)) == CleanPath(p)
  {
    if p != "" {
      var rooted := p[0] == '/';
      var cs := Resolve([], Split(p), rooted);
      SplitSlashless(p);
      ResolveNormal([], Split(p), rooted);
      if rooted {
        NormalIsValid(cs);
        CleanRender(cs);
      } else if cs != [] {
        SplitJoin(cs);
        assert [] + cs == cs;
        ResolveFixes([], cs, false);
        JoinHead(cs);
      }
    }
  }

  /** A joined path starts with its first component. */
  lemma JoinHead(cs: seq<string>)
    requires cs != []
    ensures cs[0] <= Join(cs)
    ensures |cs| > 1 ==> |Join(cs)| > |cs[0]| && Join(cs)[|cs[0]|] == '/'
    ensures |cs| == 1 ==> Join(cs) == cs[0]
  {
  }

  // ---------- Containment ----------

  predicate HasPrefix(s: string, prefix: string) {
    prefix <= s
  }

  /** The prefix both taps compute from the watch directory. */
  function DirPrefix(dir: string): string {
    if dir != "" && dir[|dir| - 1] == '/' then dir else dir + "/"
  }

  predicate PathIn(p: string, dir: string, prefix: string) {
    p == dir || HasPrefix(p, prefix)
  }

  lemma StrictPrefix(x: string, p: seq<string>, d: seq<string>, rest: seq<string>)
    requires [x] + p == [x] + d + rest && rest != []
    ensures d < p
  {
    assert p == ([x] + p)[1..] == d + rest;
  }

  lemma PrefixSplits(d: seq<string>, p: seq<string>, rest: string)
    requires ValidNames(d) && ValidNames(p) && d != []
    requires Render(p) == Render(d) + "/" + rest
    ensures d < p
  {
    assert p != [] by {
      assert |Render(p)| >= 2;
    }
    SplitAt(Render(d), rest);
    RenderSplit(d);
    RenderSplit(p);
    StrictPrefix("", p, d, Split(rest));
  }

  lemma PrefixRenders(d: seq<string>, e: seq<string>)
    requires d != [] && e != []
    ensures Render(d + e) == Render(d) + "/" + Join(e)
  {
    JoinAppend(d, e);
  }

  /** A path continues `Render(d) + "/"` exactly when its components strictly continue `d`. */
  lemma PrefixIsComponents(d: seq<string>, p: seq<string>)
    requires ValidNames(d) && ValidNames(p) && d != []
    ensures HasPrefix(Render(p), Render(d) + "/") <==> d < p
  {
    var stem := Render(d) + "/";
    if stem <= Render(p) {
      assert Render(p) == stem + Render(p)[|stem|..];
      PrefixSplits(d, p, Render(p)[|stem|..]);
    } else if d < p {
      assert p == d + p[|d|..];
      PrefixRenders(d, p[|d|..]);
      assert false;
    }
  }

  lemma {:induction false} JoinLast(d: seq<string>)
    requires ValidNames(d) && d != []
    ensures Join(d) != "" && Join(d)[|Join(d)| - 1] != '/'
  {
    if |d| == 1 {
      assert d[0][|d[0]| - 1] in d[0];
    } else {
      JoinLast(d[1..]);
    }
  }

  /** The taps' test holds exactly for the directory itself and what lies below it, the root directory included. */
  lemma PathInIsComponents(d: seq<string>, p: seq<string>)
    requires ValidNames(d) && ValidNames(p)
    ensures PathIn(Render(p), Render(d), DirPrefix(Render(d))) <==> d <= p
  {
    if d == [] {
      assert DirPrefix(Render(d)) == "/" && "/" <= Render(p);
    } else {
      JoinLast(d);
      assert DirPrefix(Render(d)) == Render(d) + "/";
      PrefixIsComponents(d, p);
      assert d <= p <==> d < p || d == p;
      if Render(p) == Render(d) { RenderInjective(p, d); }
    }
  }

  /** Text that does not begin with a slash, such as the name of a pipe, is in no absolute directory. */
  lemma RelativeIsOutside(p: string, dir: string)
    requires !HasPrefix(p, "/") && HasPrefix(dir, "/")
    ensures !PathIn(CleanPath(p), dir, DirPrefix(dir))
  {
    if p != "" {
      var cs := Resolve([], Split(p), false);
      SplitSlashless(p);
      ResolveNormal([], Split(p), false);
      if cs != [] {
        JoinHead(cs);
        assert cs[0][0] in cs[0] && Join(cs)[0] == cs[0][0];
      }
    }
    assert DirPrefix(dir)[0] == '/' && dir[0] == '/';
  }

  datatype TreeReply = Refused | Serves(path: string)

  /** Go's filepath.Join for a non-empty first element. */
  function FileJoin(root: string, rel: string): string
    requires root != ""
  {
    Clean(if rel == "" then root else root + "/" + rel)
  }

  /** The guards of the tree endpoint: the directory it reads, or its refusal. `root` is absolute. */
  function TreeRequest(root: string, rel: string): TreeReply
    requires root != ""
  {
    if HasPrefix(rel, "/") then Refused
    else
      var clean := Clean(FileJoin(root, rel));
      var rootAbs := Clean(root);
      if clean != rootAbs && !HasPrefix(clean, rootAbs + "/") then Refused
      else Serves(clean)
  }

  lemma TreeResolves(d: seq<string>, rel: string)
    requires ValidNames(d)
    ensures var cs := Resolve(d, Split(rel), true);
            ValidNames(cs) && Clean(FileJoin(Render(d), rel)) == Render(cs)
  {
    var cs := Resolve(d, Split(rel), true);
    NormalIsValid(d);
    SplitSlashless(rel);
    ResolveNormal(d, Split(rel), true);
    NormalIsValid(cs);
    CleanRender(cs);
    if rel == "" {
      ResolveUnderRoot(d, []);
      assert Split(Render(d)) + [] == Split(Render(d));
      assert Split("") == [""] && [""][1..] == [];
    } else {
      SplitAt(Render(d), rel);
      ResolveUnderRoot(d, Split(rel));
    }
  }

  lemma NoDoubleSlash(cs: seq<string>)
    requires ValidNames(cs)
    ensures !HasPrefix(Render(cs), "//")
  {
    if cs != [] {
      JoinHead(cs);
      assert Join(cs)[0] == cs[0][0] && cs[0][0] in cs[0];
      assert Render(cs)[1] == Join(cs)[0] != "//"[1];
    }
  }

  /**
   The tree endpoint serves exactly the relative queries that resolve to the root or below it. When the root is
   "/" its prefix test is against "//", so only the root itself is served.
   */
  lemma TreeRequestExact(d: seq<string>, rel: string)
    requires ValidNames(d)
    ensures var cs := Resolve(d, Split(rel), true);
            TreeRequest(Render(d), rel)
            == if HasPrefix(rel, "/") || !(if d == [] then cs == [] else d <= cs) then Refused else Serves(Render(cs))
  {
    var cs := Resolve(d, Split(rel), true);
    TreeResolves(d, rel);
    CleanRender(d);
    if Render(cs) == Render(d) { RenderInjective(cs, d); }
    if d == [] {
      NoDoubleSlash(cs);
      assert Render(d) + "/" == "//";
    } else {
      PrefixIsComponents(d, cs);
      assert d <= cs <==> d < cs || d == cs;
    }
  }

  /** The number of leading components two paths share. */
  function Common(a: seq<string>, b: seq<string>): (k: nat)
    ensures k <= |a| && k <= |b| && a[..k] == b[..k]
    ensures k < |a| && k < |b| ==> a[k] != b[k]
  {
    if a != [] && b != [] && a[0] == b[0] then
      var k := Common(a[1..], b[1..]);
      assert a[..k + 1] == [a[0]] + a[1..][..k] && b[..k + 1] == [b[0]] + b[1..][..k];
      k + 1
    else 0
  }

  /** Go's filepath.Rel between clean absolute paths, as components. */
  function RelParts(base: seq<string>, target: seq<string>): seq<string> {
    var k := Common(base, target);
    seq(|base| - k, _ => "..") + target[k..]
  }

  function Rel(base: seq<string>, target: seq<string>): string {
    if RelParts(base, target) == [] then "." else Join(RelParts(base, target))
  }

  /** Go's filepath.Abs in a process whose working directory is `wd`. */
  function Abs(p: string, wd: string): string
    requires wd != ""
  {
    if HasPrefix(p, "/") then Clean(p) else FileJoin(wd, p)
  }

  /** The test on a session's working directory. */
  predicate CwdInside(cwd: string, rootAbs: string, wd: string)
    requires wd != ""
  {
    cwd != "" &&
    var abs := Abs(cwd, wd);
    abs == rootAbs ||
    var rel := Rel(Resolve([], Split(rootAbs), true), Resolve([], Split(abs), true));
    !HasPrefix(rel, "..") && rel != "."
  }

  lemma RelClimbsUnlessBelow(root: seq<string>, cwd: seq<string>)
    requires ValidNames(cwd) && ValidNames(root) && cwd != root
    ensures !HasPrefix(Rel(root, cwd), "..") && Rel(root, cwd) != "."
       <==> root < cwd && !HasPrefix(cwd[|root|], "..")
  {
    var k := Common(root, cwd);
    var parts := RelParts(root, cwd);
    assert parts != [] by {
      assert root[..|root|] == root && cwd[..|cwd|] == cwd;
    }
    JoinHead(parts);
    assert root <= cwd ==> forall i :: 0 <= i < |root| ==> root[i] == cwd[i];
    assert root <= cwd <==> k == |root|;
    if k < |root| {
      assert parts[0] == "..";
    } else {
      assert parts[0] == cwd[k];
      assert HasPrefix(Join(parts), "..") <==> HasPrefix(parts[0], "..");
    }
    assert Join(parts) != ".";
  }

  /** The components a session's working directory resolves to. */
  function CwdParts(cwd: string, wd: seq<string>): seq<string> {
    Resolve(if HasPrefix(cwd, "/") then [] else wd, Split(cwd), true)
  }

  lemma AbsResolves(cwd: string, wd: seq<string>)
    requires ValidNames(wd) && cwd != ""
    ensures ValidNames(CwdParts(cwd, wd)) && Abs(cwd, Render(wd)) == Render(CwdParts(cwd, wd))
  {
    if HasPrefix(cwd, "/") {
      CleanAbsolute(cwd);
    } else {
      SplitAt(Render(wd), cwd);
      ResolveUnderRoot(wd, Split(cwd));
      NormalIsValid(wd);
      SplitSlashless(cwd);
      ResolveNormal(wd, Split(cwd), true);
      NormalIsValid(CwdParts(cwd, wd));
    }
  }

  /**
   A session is accepted exactly when its working directory resolves to the root or below it, except below a
   first component that starts with two dots; the empty directory is refused.
   */
  lemma CwdInsideExact(cwd: string, root: seq<string>, wd: seq<string>)
    requires ValidNames(root) && ValidNames(wd)
    ensures var cs := CwdParts(cwd, wd);
            CwdInside(cwd, Render(root), Render(wd))
            <==> cwd != "" && root <= cs && (cs == root || !HasPrefix(cs[|root|], ".."))
  {
    if cwd != "" {
      var cs := CwdParts(cwd, wd);
      AbsResolves(cwd, wd);
      ResolveRender(root);
      ResolveRender(cs);
      if cs == root {
      } else {
        if Render(cs) == Render(root) { RenderInjective(cs, root); }
        RelClimbsUnlessBelow(root, cs);
        assert root <= cs <==> root < cs;
      }
    }
  }

  // ---------- Parents ----------

  /** JavaScript's lastIndexOf("/"). */
  function LastSlash(p: string): (i: int)
    ensures -1 <= i < |p|
    ensures i >= 0 ==> p[i] == '/'
    ensures forall j :: i < j < |p| ==> p[j] != '/'
  {
    if p == "" then -1
    else if p[|p| - 1] == '/' then |p| - 1
    else LastSlash(p[..|p| - 1])
  }

  lemma LastSlashAt(a: string, c: string)
    requires '/' !in c
    ensures LastSlash(a + "/" + c) == |a|
  {
    var p := a + "/" + c;
    assert p[|a|] == '/';
    assert forall j :: |a| < j < |p| ==> p[j] in c;
  }

  /** The scan of internal/ui/server.go for the directory to refresh. */
  method ParentDir(p: string) returns (dir: string)
    ensures dir == ParentDirOf(p)
    ensures (dir == p && forall j :: 0 < j < |p| ==> p[j] != '/')
            || (exists i :: 0 < i < |p| && p[i] == '/' && dir == p[..i] && forall j :: i < j < |p| ==> p[j] != '/')
  {
    var idx := -1;
    var i := |p| - 1;
    while i >= 0
      invariant -1 <= i < |p| && idx == -1
      invariant forall j :: i < j < |p| ==> p[j] != '/'
    {
      if p[i] == '/' {
        idx := i;
        break;
      }
      i := i - 1;
    }
    assert idx == LastSlash(p);
    if idx <= 0 {
      return p;
    }
    return p[..idx];
  }

  function ParentDirOf(p: string): string {
    if LastSlash(p) <= 0 then p else p[..LastSlash(p)]
  }

  function ParentRel(rel: string): string {
    if LastSlash(rel) < 0 then "" else rel[..LastSlash(rel)]
  }

  /** The path below the root that a full path names, if it lies in the root. */
  function RelFromFull(rootDir: string, full: string): Option<string> {
    if rootDir == "" then None
    else if full == rootDir then Some("")
    else if !HasPrefix(full, rootDir + "/") then None
    else Some(full[|rootDir| + 1..])
  }

  lemma NoSlash(c: string)
    requires '/' !in c
    ensures LastSlash(c) == -1
  {
  }

  lemma ParentRelOfJoin(cs: seq<string>)
    requires ValidNames(cs) && cs != []
    ensures ParentRel(Join(cs)) == Join(cs[..|cs| - 1])
  {
    var n := |cs| - 1;
    if n == 0 {
      NoSlash(cs[0]);
    } else {
      JoinSnoc(cs);
      ParentRelAt(Join(cs[..n]), cs[n]);
    }
  }

  lemma ParentRelAt(a: string, c: string)
    requires '/' !in c
    ensures ParentRel(a + "/" + c) == a
  {
    LastSlashAt(a, c);
  }

  lemma JoinSnoc(cs: seq<string>)
    requires |cs| > 1
    ensures Join(cs) == Join(cs[..|cs| - 1]) + "/" + cs[|cs| - 1]
  {
    var n := |cs| - 1;
    assert cs == cs[..n] + [cs[n]];
    JoinAppend(cs[..n], [cs[n]]);
  }

  lemma ParentDirOfRender(cs: seq<string>)
    requires ValidNames(cs) && |cs| > 1
    ensures ParentDirOf(Render(cs)) == Render(cs[..|cs| - 1])
  {
    var n := |cs| - 1;
    JoinSnoc(cs);
    assert Render(cs) == Render(cs[..n]) + "/" + cs[n];
    LastSlashAt(Render(cs[..n]), cs[n]);
  }

  lemma RelFromFullOfRender(root: seq<string>, r: seq<string>)
    requires ValidNames(root) && ValidNames(r) && root != []
    ensures RelFromFull(Render(root), Render(root + r)) == Some(Join(r))
  {
    if r == [] {
      assert root + r == root;
    } else {
      JoinAppend(root, r);
      assert Render(root + r) == Render(root) + "/" + Join(r);
    }
  }

  /**
   The refresh triggered by a file-system notification (the relative form of the parent directory) and the one
   triggered by a write event (the parent of the relative form) name the same directory.
   */
  lemma PathViewsCommute(root: seq<string>, p: seq<string>)
    requires ValidNames(root) && ValidNames(p) && root != [] && root < p
    ensures RelFromFull(Render(root), Render(p)).Some?
    ensures RelFromFull(Render(root), ParentDirOf(Render(p)))
         == Some(ParentRel(RelFromFull(Render(root), Render(p)).value))
  {
    var r := p[|root|..];
    assert p == root + r;
    RelFromFullOfRender(root, r);
    ParentDirOfRender(p);
    ParentRelOfJoin(r);
    var up := r[..|r| - 1];
    assert p[..|p| - 1] == root + up;
    RelFromFullOfRender(root, up);
  }

  /** With the root directory "/" the browser relates no other path to the root, so neither refresh happens. */
  lemma RootHasNoRelatives(p: seq<string>)
    requires ValidNames(p) && p != []
    ensures RelFromFull(Render([]), Render(p)) == None
  {
    NoDoubleSlash(p);
    JoinHead(p);
    assert Render([]) + "/" == "//";
    if Render(p) == Render([]) { RenderInjective(p, []); }
  }

  // ---------- The data volume ----------

  const DATA_VOLUME := "/System/Volumes/Data"
  const DATA_PARTS := ["System", "Volumes", "Data"]

  function NormalizePath(p: string): string {
    if HasPrefix(p, DATA_VOLUME + "/") then p[|DATA_VOLUME|..] else p
  }

  /** Stripping the data volume drops its three components from paths strictly below it and leaves others alone. */
  lemma NormalizeIsComponents(cs: seq<string>)
    requires ValidNames(cs)
    ensures NormalizePath(Render(cs)) == Render(if ["System", "Volumes", "Data"] < cs then cs[3..] else cs)
  {
    var parts := ["System", "Volumes", "Data"];
    assert parts[1..] == ["Volumes", "Data"] && parts[1..][1..] == ["Data"];
    assert Render(parts) == DATA_VOLUME;
    PrefixIsComponents(parts, cs);
    if parts < cs {
      assert cs == parts + cs[3..];
      JoinAppend(parts, cs[3..]);
      assert Render(cs) == DATA_VOLUME + Render(cs[3..]);
    }
  }

  // ---------- The row a path is drawn at ----------

  /** The row of the nearest ancestor-or-self that is visible. */
  function NearestRow(rel: string, rows: map<string, real>): Option<real>
    decreases |rel|
  {
    if rel in rows then Some(rows[rel])
    else if rel == "" then None
    else NearestRow(ParentRel(rel), rows)
  }

  method YForPath(rel: Option<string>, rows: map<string, real>) returns (y: Option<real>)
    ensures rel.None? ==> y == None
    ensures rel.Some? ==> y == NearestRow(rel.value, rows)
  {
    if rel.None? {
      return None;
    }
    if rel.value in rows {
      return Some(rows[rel.value]);
    }
    var cur := rel.value;
    while cur != ""
      invariant cur !in rows && NearestRow(rel.value, rows) == NearestRow(cur, rows)
      decreases |cur|
    {
      var i := LastSlash(cur);
      cur := if i < 0 then "" else cur[..i];
      if cur in rows {
        return Some(rows[cur]);
      }
    }
    return None;
  }

  /** By components: the answer is the row of the longest visible prefix of the path. */
  lemma {:induction false} NearestRowIsLongestPrefix(cs: seq<string>, k: nat, rows: map<string, real>)
    requires ValidNames(cs) && k <= |cs| && Join(cs[..k]) in rows
    requires forall j :: k < j <= |cs| ==> Join(cs[..j]) !in rows
    ensures NearestRow(Join(cs), rows) == Some(rows[Join(cs[..k])])
    decreases |cs|
  {
    assert cs[..|cs|] == cs;
    if k < |cs| {
      var up := cs[..|cs| - 1];
      ParentRelOfJoin(cs);
      JoinHead(cs);
      assert forall j :: 0 <= j <= |up| ==> up[..j] == cs[..j];
      NearestRowIsLongestPrefix(up, k, rows);
    }
  }

  /** Some prefix of the path, the root and the path itself included, is visible. */
  ghost predicate SomeVisible(cs: seq<string>, rows: map<string, real>) {
    exists j :: 0 <= j <= |cs| && Join(cs[..j]) in rows
  }

  lemma SomeVisibleUp(cs: seq<string>, rows: map<string, real>)
    requires cs != []
    ensures SomeVisible(cs, rows) <==> Join(cs) in rows || SomeVisible(cs[..|cs| - 1], rows)
  {
    var up := cs[..|cs| - 1];
    if SomeVisible(up, rows) {
      var j :| 0 <= j <= |up| && Join(up[..j]) in rows;
      assert up[..j] == cs[..j];
    }
    if SomeVisible(cs, rows) {
      var j :| 0 <= j <= |cs| && Join(cs[..j]) in rows;
      if j == |cs| {
        assert cs[..j] == cs;
      } else {
        assert up[..j] == cs[..j];
        assert SomeVisible(up, rows);
      }
    }
    if Join(cs) in rows {
      assert cs[..|cs|] == cs;
    }
  }

  /** There is an answer exactly when some prefix is visible. */
  lemma {:induction false} RowIffSomeVisible(cs: seq<string>, rows: map<string, real>)
    requires ValidNames(cs)
    ensures NearestRow(Join(cs), rows).Some? <==> SomeVisible(cs, rows)
    decreases |cs|
  {
    if cs == [] {
      assert cs[..0] == cs;
    } else {
      SomeVisibleUp(cs, rows);
      ParentRelOfJoin(cs);
      JoinHead(cs);
      RowIffSomeVisible(cs[..|cs| - 1], rows);
    }
  }
}
