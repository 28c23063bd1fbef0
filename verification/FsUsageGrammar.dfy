/**
 The grammar of one fs_usage line, the regular expression of internal/tap/parse.go. A match
 is stated as the pieces it captures; which of several matches the expression picks is
 stated by its greedy and lazy groups. The line is cut by working on words from both ends.
 */
module FsUsageGrammar {

  // ---------- Character classes ----------

  /** The class \s. */
  predicate IsSpace(c: char) {
    c == ' ' || c == '\t' || c == '\n' || c == '\U{C}' || c == '\r'
  }

  /** The class \d. */
  predicate IsDigit(c: char) {
    '0' <= c <= '9'
  }

  predicate Spaces(s: string) {
    forall i :: 0 <= i < |s| ==> IsSpace(s[i])
  }

  /** A string over \S. */
  predicate Solid(s: string) {
    forall i :: 0 <= i < |s| ==> !IsSpace(s[i])
  }

  predicate Digits(s: string) {
    s != "" && forall i :: 0 <= i < |s| ==> IsDigit(s[i])
  }

  /** The form \d+\.\d+ of a duration. */
  predicate IsDecimal(s: string) {
    exists d :: 0 <= d < |s| && s[d] == '.' && Digits(s[..d]) && Digits(s[d + 1..])
  }

  /** The form \d{2}:\d{2}:\d{2}\.\d+ of a time of day. */
  predicate IsStamp(s: string) {
    && |s| > 9
    && s[2] == ':' && s[5] == ':' && s[8] == '.'
    && forall i :: 0 <= i < |s| && i != 2 && i != 5 && i != 8 ==> IsDigit(s[i])
  }

  lemma DecimalIsSolid(s: string)
    requires IsDecimal(s)
    ensures s != "" && Solid(s) && IsDigit(s[|s| - 1])
  {
  }

  // ---------- Matches ----------

  /** The pieces of a line; `wait` is the optional W. */
  datatype Line = Line(lead: string, ts: string, g1: string, call: string, g2: string, args: string, g3: string,
                       dur: string, g4: string, wait: string, g5: string, proc: string, pid: string, trail: string)

  function Middle(m: Line): string {
    m.g2 + m.args + m.g3
  }

  /** The duration and what follows it. */
  function Ending(m: Line): string {
    m.dur + m.g4 + m.wait + m.g5 + (m.proc + "." + m.pid) + m.trail
  }

  /** What follows the syscall name. */
  function Rest(m: Line): string {
    Middle(m) + Ending(m)
  }

  function Text(m: Line): string {
    m.lead + (m.ts + (m.g1 + (m.call + Rest(m))))
  }

  /** Each piece is in its class; `.` does not match a newline. */
  predicate Shape(m: Line) {
    && Spaces(m.lead) && IsStamp(m.ts)
    && m.g1 != "" && Spaces(m.g1) && m.call != "" && Solid(m.call)
    && m.g2 != "" && Spaces(m.g2) && m.args != "" && '\n' !in m.args && m.g3 != "" && Spaces(m.g3)
    && IsDecimal(m.dur) && Spaces(m.g4) && m.wait in ["", "W"] && m.g5 != "" && Spaces(m.g5)
    && m.proc != "" && Solid(m.proc) && Digits(m.pid) && Spaces(m.trail)
  }

  predicate Matches(line: string, m: Line) {
    Shape(m) && line == Text(m)
  }

  /** `a` is tried before `b`: the gap before the arguments is greedy, the arguments are lazy. */
  predicate Earlier(a: Line, b: Line) {
    |a.g2| > |b.g2| || (|a.g2| == |b.g2| && |a.args| < |b.args|)
  }

  /** The match the expression reports, up to how the blanks around W are shared out. */
  ghost predicate Preferred(line: string, m: Line) {
    Matches(line, m) && forall other :: Matches(line, other) ==> !Earlier(other, m)
  }

  // ---------- Runs from either end ----------

  /** The length of the longest prefix of blanks, or of non-blanks. */
  function LeadRun(s: string, space: bool): (n: nat)
    ensures n <= |s|
    ensures forall i :: 0 <= i < n ==> IsSpace(s[i]) == space
    ensures n < |s| ==> IsSpace(s[n]) != space
  {
    if s == "" || IsSpace(s[0]) != space then 0 else 1 + LeadRun(s[1..], space)
  }

  /** The length of the longest such suffix. */
  function TailRun(s: string, space: bool): (n: nat)
    ensures n <= |s|
    ensures forall i :: |s| - n <= i < |s| ==> IsSpace(s[i]) == space
    ensures n < |s| ==> IsSpace(s[|s| - n - 1]) != space
  {
    if s == "" || IsSpace(s[|s| - 1]) != space then 0 else 1 + TailRun(s[..|s| - 1], space)
  }

  datatype Cut = Cut(left: string, right: string)

  /** `s` cut after its leading run. */
  function CutLead(s: string, space: bool): (c: Cut)
    ensures s == c.left + c.right
  {
    var n := LeadRun(s, space);
    Cut(s[..n], s[n..])
  }

  /** `s` cut before its trailing run. */
  function CutTrail(s: string, space: bool): (c: Cut)
    ensures s == c.left + c.right
  {
    var n := |s| - TailRun(s, space);
    Cut(s[..n], s[n..])
  }

  lemma CutLeadOf(run: string, rest: string, space: bool)
    requires if space then Spaces(run) else Solid(run)
    requires rest == "" || IsSpace(rest[0]) != space
    ensures CutLead(run + rest, space) == Cut(run, rest)
  {
    var s := run + rest;
    assert forall i :: 0 <= i < |run| ==> s[i] == run[i];
    assert rest != "" ==> s[|run|] == rest[0];
  }

  lemma CutTrailOf(rest: string, run: string, space: bool)
    requires if space then Spaces(run) else Solid(run)
    requires rest == "" || IsSpace(rest[|rest| - 1]) != space
    ensures CutTrail(rest + run, space) == Cut(rest, run)
  {
    var s := rest + run;
    assert forall i :: |rest| <= i < |s| ==> s[i] == run[i - |rest|];
    assert rest != "" ==> s[|rest| - 1] == rest[|rest| - 1];
  }

  // ---------- Cutting a line ----------

  datatype Head = Head(lead: string, ts: string, g1: string, call: string, rest: string)

  /** The first two words of a line. */
  function CutHead(line: string): (h: Head)
    ensures line == h.lead + (h.ts + (h.g1 + (h.call + h.rest)))
  {
    var a := CutLead(line, true);
    var b := CutLead(a.right, false);
    var c := CutLead(b.right, true);
    var d := CutLead(c.right, false);
    Head(a.left, b.left, c.left, d.left, d.right)
  }

  datatype Tail = Tail(mid: string, dur: string, g4: string, wait: string, g5: string, last: string, trail: string)

  /** The last word, the W before it, and the word before that. */
  function CutTail(rest: string): (t: Tail)
    ensures rest == t.mid + t.dur + t.g4 + t.wait + t.g5 + t.last + t.trail
  {
    var a := CutTrail(rest, true);
    var b := CutTrail(a.left, false);
    var c := CutTrail(b.left, true);
    var d := CutWait(c.left);
    var e := CutTrail(d.0.left, false);
    Tail(e.left, e.right, d.0.right, d.1, c.right, b.right, a.right)
  }

  /** The W a string ends with and the blanks before it. */
  function CutWait(u: string): (r: (Cut, string))
    ensures u == r.0.left + r.0.right + r.1
  {
    if u != "" && u[|u| - 1] == 'W' then
      (CutTrail(u[..|u| - 1], true), "W")
    else
      (Cut(u, ""), "")
  }

  lemma HeadOf(m: Line)
    requires Shape(m)
    ensures CutHead(Text(m)) == Head(m.lead, m.ts, m.g1, m.call, Rest(m))
  {
    var r3 := m.call + Rest(m);
    var r2 := m.g1 + r3;
    var r1 := m.ts + r2;
    assert r1[0] == m.ts[0] && r2[0] == m.g1[0] && r3[0] == m.call[0] && Rest(m)[0] == m.g2[0];
    CutLeadOf(m.lead, r1, true);
    CutLeadOf(m.ts, r2, false);
    CutLeadOf(m.g1, r3, true);
    CutLeadOf(m.call, Rest(m), false);
  }

  /** The blanks before the last word; without a W they are one gap. */
  function Gaps(m: Line): (string, string) {
    if m.wait == "" then ("", m.g4 + m.g5) else (m.g4, m.g5)
  }

  /** The last words of a match are found after whatever the line begins with. */
  lemma TailOf(m: Line, front: string)
    requires Shape(m) && front != "" && IsSpace(front[|front| - 1])
    ensures CutTail(front + Ending(m)) == Tail(front, m.dur, Gaps(m).0, m.wait, Gaps(m).1, m.proc + "." + m.pid, m.trail)
  {
    Regroup(m, front);
    TailOfPieces(front + Ending(m), front + m.dur, m, front);
  }

  lemma TailOfPieces(line: string, upto: string, m: Line, front: string)
    requires Shape(m) && front != "" && IsSpace(front[|front| - 1])
    requires upto == front + m.dur
    requires line == upto + Gaps(m).0 + m.wait + Gaps(m).1 + (m.proc + "." + m.pid) + m.trail
    ensures CutTail(line) == Tail(front, m.dur, Gaps(m).0, m.wait, Gaps(m).1, m.proc + "." + m.pid, m.trail)
  {
    DecimalIsSolid(m.dur);
    EndsWith(front, m.dur);
    WaitOf(upto, Gaps(m).0, m.wait);
    LastWordOf(upto + Gaps(m).0 + m.wait, Gaps(m).1, m.proc + "." + m.pid, m.trail);
    CutTrailOf(front, m.dur, false);
  }

  lemma Regroup(m: Line, front: string)
    requires m.wait == "" || m.wait == "W"
    ensures front + Ending(m) == front + m.dur + Gaps(m).0 + m.wait + Gaps(m).1 + (m.proc + "." + m.pid) + m.trail
  {
  }

  lemma LastWordOf(before: string, gap: string, last: string, trail: string)
    requires before != "" && !IsSpace(before[|before| - 1])
    requires gap != "" && Spaces(gap) && last != "" && Solid(last) && Spaces(trail)
    ensures CutTrail(before + gap + last + trail, true) == Cut(before + gap + last, trail)
    ensures CutTrail(before + gap + last, false) == Cut(before + gap, last)
    ensures CutTrail(before + gap, true) == Cut(before, gap)
  {
    EndsWith(before + gap, last);
    EndsWith(before, gap);
    CutTrailOf(before + gap + last, trail, true);
    CutTrailOf(before + gap, last, false);
    CutTrailOf(before, gap, true);
  }

  lemma EndsWith(a: string, b: string)
    requires b != ""
    ensures (a + b)[|a + b| - 1] == b[|b| - 1]
  {
  }

  lemma WaitOf(upto: string, gap: string, wait: string)
    requires upto != "" && !IsSpace(upto[|upto| - 1]) && upto[|upto| - 1] != 'W'
    requires Spaces(gap) && wait in ["", "W"] && (wait == "" ==> gap == "")
    ensures CutWait(upto + gap + wait) == (Cut(upto, gap), wait)
    ensures var u := upto + gap + wait; !IsSpace(u[|u| - 1])
  {
    var u := upto + gap + wait;
    if wait == "" {
      assert u == upto;
    } else {
      assert u[|u| - 1] == 'W' && u[..|u| - 1] == upto + gap;
      CutTrailOf(upto, gap, true);
    }
  }

  /** The position of the last dot, or -1. */
  function LastDot(s: string): (d: int)
    ensures -1 <= d < |s|
    ensures d >= 0 ==> s[d] == '.'
    ensures forall i :: d < i < |s| ==> s[i] != '.'
  {
    if s == "" then -1 else if s[|s| - 1] == '.' then |s| - 1 else LastDot(s[..|s| - 1])
  }

  lemma LastDotOf(proc: string, pid: string)
    requires Digits(pid)
    ensures var last := proc + "." + pid;
            LastDot(last) == |proc| && last[..|proc|] == proc && last[|proc| + 1..] == pid
  {
    var last := proc + "." + pid;
    assert last[|proc|] == '.';
    assert forall i :: |proc| < i < |last| ==> last[i] == pid[i - |proc| - 1];
  }

  /** A match is what the cuts find. */
  lemma CutsOf(m: Line)
    requires Shape(m)
    ensures var h := CutHead(Text(m));
            && h == Head(m.lead, m.ts, m.g1, m.call, Rest(m))
            && CutTail(h.rest) == Tail(Middle(m), m.dur, Gaps(m).0, m.wait, Gaps(m).1, m.proc + "." + m.pid, m.trail)
  {
    HeadOf(m);
    EndsWith(m.g2 + m.args, m.g3);
    TailOf(m, Middle(m));
  }

  /** Two matches of one line agree on every captured group except how the middle is shared out. */
  lemma Unambiguous(line: string, a: Line, b: Line)
    requires Matches(line, a) && Matches(line, b)
    ensures a.ts == b.ts && a.call == b.call && Middle(a) == Middle(b)
    ensures a.dur == b.dur && a.wait == b.wait && a.proc == b.proc && a.pid == b.pid
  {
    CutsOf(a);
    CutsOf(b);
    LastDotOf(a.proc, a.pid);
    LastDotOf(b.proc, b.pid);
  }

  // ---------- The middle ----------

  /** A string without its blanks on either side. */
  function Core(mid: string): string {
    CutTrail(CutLead(mid, true).right, true).left
  }

  lemma CoreOf(g2: string, args: string, g3: string)
    requires Spaces(g2) && Spaces(g3) && args != "" && !IsSpace(args[0]) && !IsSpace(args[|args| - 1])
    ensures Core(g2 + args + g3) == args
  {
    assert g2 + args + g3 == g2 + (args + g3);
    assert (args + g3)[0] == args[0];
    CutLeadOf(g2, args + g3, true);
    CutTrailOf(args, g3, true);
  }

  lemma CutLeadRuns(s: string, space: bool)
    ensures var c := CutLead(s, space);
            && (if space then Spaces(c.left) else Solid(c.left))
            && (c.right != "" ==> IsSpace(c.right[0]) != space)
  {
  }

  lemma CutTrailRuns(s: string, space: bool)
    ensures var c := CutTrail(s, space);
            && (if space then Spaces(c.right) else Solid(c.right))
            && (c.left != "" ==> IsSpace(c.left[|c.left| - 1]) != space)
  {
  }

  /** The core with the blanks it was cut from; it begins and ends with a non-blank. */
  lemma CorePieces(mid: string) returns (before: string, after: string)
    ensures mid == before + Core(mid) + after
    ensures Spaces(before) && Spaces(after)
    ensures Core(mid) != "" ==> !IsSpace(Core(mid)[0]) && !IsSpace(Core(mid)[|Core(mid)| - 1])
  {
    var c := CutLead(mid, true);
    var d := CutTrail(c.right, true);
    CutLeadRuns(mid, true);
    CutTrailRuns(c.right, true);
    before, after := c.left, d.right;
    assert d.left != "" ==> d.left[0] == c.right[0];
  }

  /** The arguments begin and end with a non-blank. */
  predicate Trimmed(m: Line)
    requires m.args != ""
  {
    !IsSpace(m.args[0]) && !IsSpace(m.args[|m.args| - 1])
  }

  /** Sharing out the middle otherwise gives the arguments blanks of their own. */
  lemma Squeeze(m: Line, g2: string, args: string, g3: string)
    requires Shape(m) && Middle(m) == g2 + args + g3
    requires Spaces(g2) && Spaces(g3) && args != "" && !IsSpace(args[0]) && !IsSpace(args[|args| - 1])
    ensures |m.g2| <= |g2| && |m.g3| <= |g3| && |args| <= |m.args|
    ensures g2 != "" && g3 != "" && '\n' !in args
    ensures |m.g2| == |g2| && |m.args| == |args| ==> m.g2 == g2 && m.args == args && m.g3 == g3
  {
    var mid := Middle(m);
    Slices(m.g2, m.args, m.g3);
    Slices(g2, args, g3);
    Bounds(mid, |m.g2|, |m.g2| + |m.args|, |g2|, |g2| + |args|);
  }

  lemma Slices(a: string, b: string, c: string)
    ensures var s := a + b + c;
            s[..|a|] == a && s[|a|..|a| + |b|] == b && s[|a| + |b|..] == c
  {
  }

  lemma Bounds(mid: string, a: nat, b: nat, c: nat, d: nat)
    requires a <= b <= |mid| && c < d <= |mid|
    requires Spaces(mid[..a]) && Spaces(mid[b..]) && !IsSpace(mid[c..d][0]) && !IsSpace(mid[c..d][d - c - 1])
    ensures a <= c && d <= b
    ensures forall x :: x in mid[c..d] ==> x in mid[a..b]
  {
    assert forall i :: 0 <= i < a ==> mid[i] == mid[..a][i];
    assert forall i :: b <= i < |mid| ==> mid[i] == mid[b..][i - b];
    assert mid[c..d][0] == mid[c] && mid[c..d][d - c - 1] == mid[d - 1];
    assert a <= c && d <= b;
    assert forall i :: 0 <= i < d - c ==> mid[c..d][i] == mid[c + i] == mid[a..b][c - a + i];
  }

  /** A match whose arguments hold a non-blank has a variant with trimmed arguments. */
  lemma TrimmedMatch(line: string, m: Line) returns (t: Line)
    requires Matches(line, m) && Core(Middle(m)) != ""
    ensures Matches(line, t) && t == m.(g2 := t.g2, args := Core(Middle(m)), g3 := t.g3) && Trimmed(t)
  {
    var before, after := CorePieces(Middle(m));
    Squeeze(m, before, Core(Middle(m)), after);
    t := m.(g2 := before, args := Core(Middle(m)), g3 := after);
    SameText(m, before, Core(Middle(m)), after);
  }

  lemma SameText(m: Line, g2: string, args: string, g3: string)
    requires Middle(m) == g2 + args + g3
    ensures Text(m.(g2 := g2, args := args, g3 := g3)) == Text(m)
  {
  }

  /** Of all matches of a line the one with trimmed arguments is the one reported. */
  lemma TrimmedIsPreferred(line: string, m: Line)
    requires Matches(line, m) && Trimmed(m)
    ensures Preferred(line, m) && m.args == Core(Middle(m))
  {
    CoreOf(m.g2, m.args, m.g3);
    forall other | Matches(line, other)
      ensures !Earlier(other, m)
    {
      Unambiguous(line, other, m);
      Squeeze(other, m.g2, m.args, m.g3);
    }
  }

  lemma PreferredIsTrimmed(line: string, m: Line)
    requires Preferred(line, m) && Core(Middle(m)) != ""
    ensures Trimmed(m) && m.args == Core(Middle(m))
  {
    var t := TrimmedMatch(line, m);
    Unambiguous(line, m, t);
    Squeeze(m, t.g2, t.args, t.g3);
    assert !Earlier(t, m);
  }

  /** Otherwise the arguments are blank in every match. */
  lemma BlankMiddle(m: Line)
    requires Shape(m) && Core(Middle(m)) == ""
    ensures Spaces(m.args)
  {
    var before, after := CorePieces(Middle(m));
    BlanksJoin(before, after);
    BlanksInside(m.g2, m.args, m.g3);
  }

  lemma BlanksJoin(a: string, b: string)
    requires Spaces(a) && Spaces(b)
    ensures Spaces(a + "" + b)
  {
  }

  lemma BlanksInside(a: string, b: string, c: string)
    requires Spaces(a + b + c)
    ensures Spaces(b)
  {
    assert forall i :: 0 <= i < |b| ==> b[i] == (a + b + c)[|a| + i];
  }

  // ---------- Every cut is a match ----------

  /** The runs a head is made of. */
  predicate GoodHead(h: Head) {
    && Spaces(h.lead) && Spaces(h.g1) && Solid(h.call)
    && (h.call != "" ==> h.g1 != "")
    && (h.rest != "" ==> IsSpace(h.rest[0]))
  }

  predicate GoodTail(t: Tail) {
    && Spaces(t.g4) && t.wait in ["", "W"] && Spaces(t.g5) && Solid(t.last) && Spaces(t.trail)
    && (t.dur != "" ==> t.g5 != "")
    && (t.mid != "" ==> IsSpace(t.mid[|t.mid| - 1]))
  }

  lemma HeadRuns(line: string)
    ensures GoodHead(CutHead(line))
  {
    var a := CutLead(line, true);
    var b := CutLead(a.right, false);
    var c := CutLead(b.right, true);
    CutLeadRuns(line, true);
    CutLeadRuns(a.right, false);
    CutLeadRuns(b.right, true);
    CutLeadRuns(c.right, false);
    assert c.left == "" ==> c.right == b.right;
  }

  lemma TailRuns(rest: string)
    ensures GoodTail(CutTail(rest))
  {
    var a := CutTrail(rest, true);
    var b := CutTrail(a.left, false);
    var c := CutTrail(b.left, true);
    var d := CutWait(c.left);
    CutTrailRuns(rest, true);
    CutTrailRuns(a.left, false);
    CutTrailRuns(b.left, true);
    if c.left != "" {
      CutTrailRuns(c.left[..|c.left| - 1], true);
      assert c.right == "" ==> c.left == b.left;
    }
    CutTrailRuns(d.0.left, false);
  }
}
