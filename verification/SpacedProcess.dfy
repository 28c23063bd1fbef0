/**
 Process names with blanks in fs_usage lines (internal/tap/parse.go): the grammar takes the last word of the line for
 the process, so such a line is dropped, or read as another record.
 */
module SpacedProcess {
  import opened Sequences
  import opened FsUsageGrammar
  import opened FsUsageLine
  import Wire

  // ---------- What precedes the last word ----------

  /** The word taken for a duration, after what stands before it: the last word, a final W aside. */
  function DurationCut(front: string): Cut {
    CutTrail(CutWait(front).0.left, false)
  }

  /** The text ends in a duration, or in one and a W. */
  predicate EndsInDuration(front: string) {
    IsDecimal(DurationCut(front).right)
  }

  /** What stands before that word, without the blanks between. */
  function BeforeDuration(front: string): string {
    CutTrail(DurationCut(front).left, true).left
  }

  /** Any text of this form ends in the duration `number`, with `t` before it; the W may touch the number or not. */
  lemma DurationAt(t: string, b1: string, number: string, b2: string, w: string)
    requires (t != "" ==> !IsSpace(t[|t| - 1])) && b1 != "" && Spaces(b1) && IsDecimal(number)
    requires w in ["", "W"] && Spaces(b2) && (w == "" ==> b2 == "")
    ensures var x := t + b1 + number + b2 + w; EndsInDuration(x) && BeforeDuration(x) == t
  {
    DecimalIsSolid(number);
    EndsWith(t, b1);
    EndsWith(t + b1, number);
    WaitOf(t + b1 + number, b2, w);
    CutTrailOf(t + b1, number, false);
    CutTrailOf(t, b1, true);
  }

  /**
   A process name with a blank puts a word of the name before the last one. Unless that word passes for a
   duration, no piece of the line is a match and the line is dropped.
   */
  lemma DroppedWithoutDuration(front: string, gap: string, last: string, trail: string, at: Clock -> int)
    requires front != "" && !IsSpace(front[|front| - 1]) && gap != "" && Spaces(gap)
    requires last != "" && Solid(last) && Spaces(trail)
    requires !EndsInDuration(front)
    ensures ParseLine(front + gap + last + trail, at) == None
  {
    var line := front + gap + last + trail;
    LastWordOf(front, gap, last, trail);
    assert CutTail(line).dur == DurationCut(front).right;
    if WellFormed(CutLine(line)) {
      var m := CutIsMatch(line);
      DurationOf(m);
    }
  }

  /** A match ends in its duration. */
  lemma DurationOf(m: Line)
    requires Shape(m)
    ensures CutTail(Text(m)).dur == m.dur && IsDecimal(m.dur)
  {
    var front := m.lead + (m.ts + (m.g1 + (m.call + Middle(m))));
    Nested(m.lead, m.ts, m.g1, m.call, Middle(m), Ending(m));
    EndsWith(m.g2 + m.args, m.g3);
    EndOfNested(m.lead, m.ts, m.g1, m.call, Middle(m));
    TailOf(m, front);
  }

  lemma Nested(lead: string, ts: string, g1: string, call: string, a: string, b: string)
    ensures lead + (ts + (g1 + (call + (a + b)))) == lead + (ts + (g1 + (call + a))) + b
  {
    assert call + (a + b) == call + a + b;
    assert g1 + (call + a + b) == g1 + (call + a) + b;
    assert ts + (g1 + (call + a) + b) == ts + (g1 + (call + a)) + b;
    assert lead + (ts + (g1 + (call + a)) + b) == lead + (ts + (g1 + (call + a))) + b;
  }

  lemma EndOfNested(lead: string, ts: string, g1: string, call: string, a: string)
    requires a != ""
    ensures var s := lead + (ts + (g1 + (call + a))); s != "" && s[|s| - 1] == a[|a| - 1]
  {
    EndsWith(call, a);
    EndsWith(g1, call + a);
    EndsWith(ts, g1 + (call + a));
    EndsWith(lead, ts + (g1 + (call + a)));
  }

  // ---------- Cuts that stay inside a suffix ----------

  lemma CutTrailLocal(p: string, y: string, space: bool)
    requires CutTrail(y, space).left != ""
    ensures CutTrail(p + y, space) == Cut(p + CutTrail(y, space).left, CutTrail(y, space).right)
  {
    var c := CutTrail(y, space);
    CutTrailRuns(y, space);
    assert p + y == p + c.left + c.right;
    EndsWith(p, c.left);
    CutTrailOf(p + c.left, c.right, space);
  }

  lemma StopsAt(s: string, i: nat, space: bool)
    requires i < |s| && IsSpace(s[i]) != space
    ensures CutTrail(s, space).left != ""
  {
    CutTrailRuns(s, space);
  }

  lemma CutWaitLocal(p: string, x: string)
    requires x != "" && CutTrail(x[..|x| - 1], true).left != ""
    ensures CutWait(p + x) == (Cut(p + CutWait(x).0.left, CutWait(x).0.right), CutWait(x).1)
    ensures CutWait(x).0.left != "" && CutWait(x).0.left[0] == x[0]
  {
    EndsWith(p, x);
    assert (p + x)[..|p + x| - 1] == p + x[..|x| - 1];
    CutTrailLocal(p, x[..|x| - 1], true);
    var c := CutTrail(x[..|x| - 1], true);
    assert c.left[0] == (c.left + c.right)[0];
    assert x[..|x| - 1][0] == x[0];
  }

  /** What stands between the path and the last two words of a line. */
  ghost predicate Between(x: string) {
    && x != "" && IsSpace(x[0]) && !IsSpace(x[|x| - 1])
    && exists i :: 0 < i < |x| - 1 && !IsSpace(x[i])
  }

  /** The cuts of such a text are those of any text it ends. */
  lemma CutsLocal(p: string, x: string)
    requires Between(x)
    ensures CutWait(p + x) == (Cut(p + CutWait(x).0.left, CutWait(x).0.right), CutWait(x).1)
    ensures DurationCut(p + x) == Cut(p + DurationCut(x).left, DurationCut(x).right)
    ensures DurationCut(x).left != ""
  {
    var i :| 0 < i < |x| - 1 && !IsSpace(x[i]);
    assert x[..|x| - 1][i] == x[i];
    StopsAt(x[..|x| - 1], i, true);
    CutWaitLocal(p, x);
    StopsAt(CutWait(x).0.left, 0, false);
    CutTrailLocal(p, CutWait(x).0.left, false);
  }

  lemma GapAtEnd(y: string)
    requires y != "" && IsSpace(y[|y| - 1])
    ensures CutTrail(y, true).right != ""
  {
    CutTrailRuns(y, true);
    assert CutTrail(y, true).right == "" ==> CutTrail(y, true).left == y;
  }

  lemma WaitRuns(u: string)
    ensures Spaces(CutWait(u).0.right) && CutWait(u).1 in ["", "W"]
  {
    if u != "" { CutTrailRuns(u[..|u| - 1], true); }
  }

  lemma Rejoin(x: string, y: string, d: string, t: string, b1: string, number: string, b2: string, w: string)
    requires x == y + b2 + w && y == d + number && d == t + b1
    ensures x == t + b1 + number + b2 + w
  {
  }

  /** The pieces the cuts make of such a text. */
  lemma CutPieces(x: string) returns (t: string, b1: string, number: string, b2: string, w: string)
    requires Between(x)
    ensures x == t + b1 + number + b2 + w
    ensures t == BeforeDuration(x) && number == DurationCut(x).right && w == CutWait(x).1
    ensures (t != "" ==> !IsSpace(t[|t| - 1])) && b1 != "" && Spaces(b1) && Spaces(b2) && w in ["", "W"]
  {
    var d := DurationCut(x).left;
    CutsLocal("", x);
    CutTrailRuns(CutWait(x).0.left, false);
    CutTrailRuns(d, true);
    GapAtEnd(d);
    WaitRuns(x);
    t, b1, number := BeforeDuration(x), CutTrail(d, true).right, DurationCut(x).right;
    b2, w := CutWait(x).0.right, CutWait(x).1;
    Rejoin(x, CutWait(x).0.left, d, t, b1, number, b2, w);
  }

  // ---------- Printed records ----------

  /** The columns between path and process. */
  function Columns(r: Record, l: Layout): string {
    l.g3 + r.dur + l.g4 + (if r.wait then "W" else "") + l.g5
  }

  lemma ColumnsBetween(r: Record, l: Layout, name: string)
    requires IsDecimal(r.dur) && Blank(l) && name != "" && !IsSpace(name[|name| - 1])
    ensures Between(Columns(r, l) + name)
  {
    var x := Columns(r, l) + name;
    DecimalIsSolid(r.dur);
    assert x[0] == l.g3[0] && x[|x| - 1] == name[|name| - 1];
    assert x[|l.g3|] == r.dur[0];
  }

  /** The text of a record whose process is `name`, a gap and `end`, by its columns. */
  lemma NameText(args: string, l: Layout, dur: string, w: string, name: string, gap: string, last: string, pid: string)
    ensures l.g2 + args + l.g3 + (dur + l.g4 + w + l.g5 + ((name + gap + last) + "." + pid) + l.trail)
         == (l.g2 + args) + (l.g3 + dur + l.g4 + w + l.g5 + name) + gap + (last + "." + pid) + l.trail
  {
    assert (name + gap + last) + "." + pid == name + gap + (last + "." + pid);
    Spread(l.g2 + args, l.g3, dur, l.g4, w, l.g5, name, gap, last + "." + pid, l.trail);
  }

  lemma Spread(p: string, a: string, b: string, c: string, d: string, e: string, f: string,
               g: string, h: string, i: string)
    ensures p + a + (b + c + d + e + (f + g + h) + i) == p + (a + b + c + d + e + f) + g + h + i
  {
  }

  lemma OtherText(g2: string, before: string, path: string, t: string, b1: string, number: string, b2: string,
                  w: string, gap: string, end: string, trail: string)
    ensures g2 + (before + (path + t)) + b1 + (number + b2 + w + gap + end + trail)
         == (g2 + (before + path)) + (t + b1 + number + b2 + w) + gap + end + trail
  {
    assert g2 + (before + (path + t)) == (g2 + (before + path)) + t;
    Gather(g2 + (before + path), t, b1, number, b2, w, gap, end, trail);
  }

  lemma Gather(p: string, t: string, b1: string, number: string, b2: string, w: string, gap: string, end: string,
               trail: string)
    ensures p + t + b1 + (number + b2 + w + gap + end + trail) == p + (t + b1 + number + b2 + w) + gap + end + trail
  {
  }

  /** The line printed for `r` when its process is called `name`, a gap and `last`. */
  function Spaced(r: Record, l: Layout, name: string, gap: string, last: string): string {
    Print(r.(process := name + gap + last), l)
  }

  /** What the line begins with, up to the path. */
  function Opening(r: Record, l: Layout): string {
    l.lead + (PrintClock(r.hour, r.minute, r.second, r.micros) + (l.g1 + (r.call + (l.g2 + (r.before + r.path)))))
  }

  lemma SpacedText(r: Record, l: Layout, name: string, gap: string, last: string)
    ensures Spaced(r, l, name, gap, last)
         == Opening(r, l) + (Columns(r, l) + name) + gap + (last + "." + Decimal(r.pid)) + l.trail
  {
    var x, end := Columns(r, l) + name, last + "." + Decimal(r.pid);
    NameText(r.before + r.path, l, r.dur, if r.wait then "W" else "", name, gap, last, Decimal(r.pid));
    Nest(l.lead, PrintClock(r.hour, r.minute, r.second, r.micros), l.g1, r.call, l.g2 + (r.before + r.path),
         x, gap, end, l.trail);
  }

  lemma Nest(lead: string, ts: string, g1: string, call: string, a: string, x: string, gap: string, end: string,
             trail: string)
    ensures lead + (ts + (g1 + (call + (a + x + gap + end + trail))))
         == lead + (ts + (g1 + (call + a))) + x + gap + end + trail
  {
    assert a + x + gap + end + trail == a + (x + gap + end + trail);
    Nested(lead, ts, g1, call, a, x + gap + end + trail);
  }

  /** The record the line is read as: the path runs on to the word taken for the duration. */
  function Reading(r: Record, l: Layout, name: string, last: string): Record {
    var x := Columns(r, l) + name;
    r.(path := r.path + BeforeDuration(x), dur := DurationCut(x).right, wait := CutWait(x).1 == "W", process := last)
  }

  /** A printed line from its path on. */
  function Body(r: Record, l: Layout): string {
    l.g2 + (r.before + r.path) + l.g3
      + (r.dur + l.g4 + (if r.wait then "W" else "") + l.g5 + (r.process + "." + Decimal(r.pid)) + l.trail)
  }

  lemma PrintBody(r: Record, l: Layout)
    ensures Print(r, l) == l.lead + (PrintClock(r.hour, r.minute, r.second, r.micros) + (l.g1 + (r.call + Body(r, l))))
  {
  }

  lemma ReadingText(r: Record, l: Layout, name: string, gap: string, last: string) returns (l': Layout)
    requires Printable(r.(process := last)) && Blank(l) && gap != "" && Spaces(gap)
    requires name != "" && !IsSpace(name[|name| - 1])
    ensures Blank(l') && Spaced(r, l, name, gap, last) == Print(Reading(r, l, name, last), l')
  {
    var x := Columns(r, l) + name;
    ColumnsBetween(r, l, name);
    var t, b1, number, b2, w := CutPieces(x);
    l' := l.(g3 := b1, g4 := b2, g5 := gap);
    var spaced, reading := r.(process := name + gap + last), Reading(r, l, name, last);
    PrintBody(spaced, l);
    PrintBody(reading, l');
    assert Body(spaced, l) == Body(reading, l') by {
      NameText(r.before + r.path, l, r.dur, if r.wait then "W" else "", name, gap, last, Decimal(r.pid));
      OtherText(l.g2, r.before, r.path, t, b1, number, b2, w, gap, last + "." + Decimal(r.pid), l.trail);
    }
  }

  lemma LongerPath(path: string, t: string)
    requires path != "" && path[0] == '/' && '\n' !in path && !IsSpace(path[|path| - 1])
    requires '\n' !in t && (t != "" ==> !IsSpace(t[|t| - 1]))
    ensures var p := path + t; p[0] == '/' && '\n' !in p && !IsSpace(p[|p| - 1])
  {
    if t != "" { EndsWith(path, t); } else { assert path + t == path; }
  }

  lemma NoneInFront(t: string, b1: string, number: string, b2: string, w: string)
    requires '\n' !in t + b1 + number + b2 + w
    ensures '\n' !in t
  {
    assert forall i :: 0 <= i < |t| ==> t[i] == (t + b1 + number + b2 + w)[i];
  }

  lemma CleanFront(x: string)
    requires Between(x) && '\n' !in x
    ensures var t := BeforeDuration(x); '\n' !in t && (t != "" ==> !IsSpace(t[|t| - 1]))
  {
    var t, b1, number, b2, w := CutPieces(x);
    NoneInFront(t, b1, number, b2, w);
  }

  lemma StillPrintable(r: Record, path: string, dur: string, wait: bool)
    requires Printable(r) && IsDecimal(dur)
    requires path != "" && path[0] == '/' && '\n' !in path && !IsSpace(path[|path| - 1])
    ensures Printable(r.(path := path, dur := dur, wait := wait))
  {
  }

  lemma ReadingPrints(r: Record, l: Layout, name: string, last: string)
    requires Printable(r.(process := last)) && Blank(l) && name != "" && !IsSpace(name[|name| - 1])
    requires '\n' !in Columns(r, l) + name && EndsInDuration(Columns(r, l) + name)
    ensures Printable(Reading(r, l, name, last))
  {
    ColumnsBetween(r, l, name);
    CleanFront(Columns(r, l) + name);
    var x := Columns(r, l) + name;
    ReadingOf(r, BeforeDuration(x), DurationCut(x).right, CutWait(x).1 == "W", last);
  }

  lemma ReadingOf(r: Record, t: string, dur: string, wait: bool, last: string)
    requires Printable(r.(process := last)) && IsDecimal(dur)
    requires '\n' !in t && (t != "" ==> !IsSpace(t[|t| - 1]))
    ensures Printable(r.(path := r.path + t, dur := dur, wait := wait, process := last))
  {
    LongerPath(r.path, t);
    StillPrintable(r.(process := last), r.path + t, dur, wait);
  }

  /**
   A printed record whose process name holds a blank, cut at its last gap, is dropped exactly when the text before
   the last word does not end in a duration or the record is refused for its pid or call. Otherwise it is read as
   the event of another path, which swallows what stands before that duration, with the last word for the process.
   */
  lemma Exactly(r: Record, l: Layout, name: string, gap: string, last: string, at: Clock -> int)
    requires Printable(r.(process := last)) && Blank(l) && gap != "" && Spaces(gap)
    requires name != "" && !IsSpace(name[|name| - 1]) && '\n' !in Columns(r, l) + name
    ensures var x := Columns(r, l) + name;
            var seen := r.path + BeforeDuration(x);
            var op := MapSyscall(r.call, r.before + seen);
            ParseLine(Spaced(r, l, name, gap, last), at) ==
            if !EndsInDuration(x) || r.pid > MAX_INT || op == None then None
            else Some(Wire.Event(at(Clock(r.hour, r.minute, r.second, 1000 * r.micros)),
                                 op.value, seen, last, r.pid, Wire.NoClaude))
  {
    if EndsInDuration(Columns(r, l) + name) {
      ReadingPrints(r, l, name, last);
      var l' := ReadingText(r, l, name, gap, last);
      RoundTrip(Reading(r, l, name, last), l', at);
    } else {
      Dropped(r, l, name, gap, last, at);
    }
  }

  lemma Dropped(r: Record, l: Layout, name: string, gap: string, last: string, at: Clock -> int)
    requires Printable(r.(process := last)) && Blank(l) && gap != "" && Spaces(gap)
    requires name != "" && !IsSpace(name[|name| - 1]) && !EndsInDuration(Columns(r, l) + name)
    ensures ParseLine(Spaced(r, l, name, gap, last), at) == None
  {
    var x, end := Columns(r, l) + name, last + "." + Decimal(r.pid);
    ColumnsBetween(r, l, name);
    CutsLocal(Opening(r, l), x);
    SpacedText(r, l, name, gap, last);
    EndsWith(Opening(r, l), x);
    SolidName(last, Decimal(r.pid));
    DroppedWithoutDuration(Opening(r, l) + x, gap, end, l.trail, at);
  }

  lemma SolidName(last: string, pid: string)
    requires Solid(last) && Digits(pid)
    ensures Solid(last + "." + pid)
  {
  }

  // ---------- The forms of such names ----------

  /** A number behind a first part, with or without a W: the path swallows the columns and the first part. */
  lemma NumberLater(r: Record, l: Layout, first: string, b1: string, number: string, b2: string, w: string)
    requires first != "" && !IsSpace(first[|first| - 1]) && b1 != "" && Spaces(b1) && IsDecimal(number)
    requires w in ["", "W"] && Spaces(b2) && (w == "" ==> b2 == "")
    ensures var x := Columns(r, l) + (first + b1 + number + b2 + w);
            EndsInDuration(x) && BeforeDuration(x) == Columns(r, l) + first
  {
    EndsWith(Columns(r, l), first);
    DurationAt(Columns(r, l) + first, b1, number, b2, w);
    ShiftThree(Columns(r, l), first, b1, number, b2, w);
  }

  lemma ShiftThree(p: string, first: string, b1: string, number: string, b2: string, w: string)
    ensures p + (first + b1 + number + b2 + w) == (p + first) + b1 + number + b2 + w
  {
  }

  lemma DurationIn(x: string, t: string, b1: string, number: string, b2: string, w: string)
    requires x == t + b1 + number + b2 + w
    requires (t != "" ==> !IsSpace(t[|t| - 1])) && b1 != "" && Spaces(b1) && IsDecimal(number)
    requires w in ["", "W"] && Spaces(b2) && (w == "" ==> b2 == "")
    ensures EndsInDuration(x) && BeforeDuration(x) == t
  {
    DurationAt(t, b1, number, b2, w);
  }

  lemma Parted(g3: string, dur: string, g4: string, g5: string, number: string, b2: string, w: string)
    ensures g3 + dur + g4 + "" + g5 + (number + b2 + w) == (g3 + dur) + (g4 + g5) + number + b2 + w
    ensures g3 + dur + g4 + "" + g5 + "W" == "" + g3 + dur + (g4 + g5) + "W"
  {
  }

  lemma PartedByWait(g3: string, dur: string, g4: string, g5: string, number: string, b2: string, w: string)
    ensures g3 + dur + g4 + "W" + g5 + (number + b2 + w) == (g3 + dur + (g4 + "W")) + g5 + number + b2 + w
  {
  }

  /** A number at the start of the name: the path swallows the real duration and its W. */
  lemma NumberFirst(r: Record, l: Layout, number: string, b2: string, w: string)
    requires IsDecimal(r.dur) && Blank(l) && IsDecimal(number)
    requires w in ["", "W"] && Spaces(b2) && (w == "" ==> b2 == "")
    ensures var x := Columns(r, l) + (number + b2 + w);
            EndsInDuration(x) && BeforeDuration(x) == if r.wait then l.g3 + r.dur + (l.g4 + "W") else l.g3 + r.dur
  {
    var x := Columns(r, l) + (number + b2 + w);
    DecimalIsSolid(r.dur);
    if r.wait {
      EndsWith(l.g3 + r.dur, l.g4 + "W");
      PartedByWait(l.g3, r.dur, l.g4, l.g5, number, b2, w);
      DurationIn(x, l.g3 + r.dur + (l.g4 + "W"), l.g5, number, b2, w);
    } else {
      EndsWith(l.g3, r.dur);
      Parted(l.g3, r.dur, l.g4, l.g5, number, b2, w);
      DurationIn(x, l.g3 + r.dur, l.g4 + l.g5, number, b2, w);
    }
  }

  /** The name W before the last word of a line without a W: the real duration is found and the path stays. */
  lemma NameIsWait(r: Record, l: Layout)
    requires IsDecimal(r.dur) && Blank(l) && !r.wait
    ensures EndsInDuration(Columns(r, l) + "W") && BeforeDuration(Columns(r, l) + "W") == ""
  {
    Parted(l.g3, r.dur, l.g4, l.g5, "", "", "");
    DurationIn(Columns(r, l) + "W", "", l.g3, r.dur, l.g4 + l.g5, "W");
  }
}
