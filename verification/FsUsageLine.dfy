/** ParseLine of internal/tap/parse.go: what a matched line says, and that printed records are read back. */
module FsUsageLine {
  import opened Sequences
  import opened FsUsageGrammar
  import Wire

  // ---------- Numbers and clocks ----------

  const MAX_INT := 0x7FFF_FFFF_FFFF_FFFF

  predicate AllDigits(s: string) {
    forall i :: 0 <= i < |s| ==> IsDigit(s[i])
  }

  function Number(s: string): nat
    requires AllDigits(s)
  {
    if s == "" then 0 else 10 * Number(s[..|s| - 1]) + (s[|s| - 1] as int - '0' as int)
  }

  function Digit(n: nat): (c: char)
    requires n < 10
    ensures IsDigit(c) && c as int == '0' as int + n
  {
    ('0' as int + n) as char
  }

  function Pow10(n: nat): (p: nat)
    ensures p > 0
  {
    if n == 0 then 1 else 10 * Pow10(n - 1)
  }

  /** `n` in decimal, with leading zeros up to `width`. */
  function Padded(n: nat, width: nat): (s: string)
    ensures |s| == width && AllDigits(s)
  {
    if width == 0 then "" else Padded(n / 10, width - 1) + [Digit(n % 10)]
  }

  function Decimal(n: nat): (s: string)
    ensures Digits(s)
  {
    (if n < 10 then "" else Decimal(n / 10)) + [Digit(n % 10)]
  }

  lemma {:induction false} PaddedReadsBack(n: nat, width: nat)
    requires n < Pow10(width)
    ensures Number(Padded(n, width)) == n
  {
    if width > 0 {
      PaddedReadsBack(n / 10, width - 1);
      assert Padded(n, width)[..width - 1] == Padded(n / 10, width - 1);
    }
  }

  lemma {:induction false} DecimalReadsBack(n: nat)
    ensures Number(Decimal(n)) == n
  {
    var s := Decimal(n);
    if n >= 10 {
      DecimalReadsBack(n / 10);
      assert s[..|s| - 1] == Decimal(n / 10);
    } else {
      assert s[..0] == "";
    }
  }

  datatype Clock = Clock(hour: nat, minute: nat, second: nat, nanos: nat)

  /** Digits after the ninth are dropped, missing ones are zeros. */
  function Nanos(fraction: string): nat
    requires AllDigits(fraction)
  {
    var f := if |fraction| > 9 then fraction[..9] else fraction;
    Number(f) * Pow10(9 - |f|)
  }

  /** Go's time.Parse on such a string: fields out of range are refused. */
  function ParseClock(ts: string): Option<Clock>
    requires IsStamp(ts)
  {
    var hour, minute, second := Number(ts[..2]), Number(ts[3..5]), Number(ts[6..8]);
    if hour < 24 && minute < 60 && second < 60 then Some(Clock(hour, minute, second, Nanos(ts[9..]))) else None
  }

  /** The form HH:MM:SS.ffffff. */
  function PrintClock(hour: nat, minute: nat, second: nat, micros: nat): (ts: string)
    ensures IsStamp(ts)
  {
    Padded(hour, 2) + ":" + Padded(minute, 2) + ":" + Padded(second, 2) + "." + Padded(micros, 6)
  }

  lemma PowersOfTen()
    ensures Pow10(2) == 100 && Pow10(3) == 1000 && Pow10(6) == 1_000_000
  {
    assert Pow10(1) == 10;
    assert Pow10(2) == 100;
    assert Pow10(3) == 1000;
    assert Pow10(4) == 10_000;
    assert Pow10(5) == 100_000;
  }

  lemma ClockFields(h: string, m: string, s: string, f: string)
    requires |h| == 2 && |m| == 2 && |s| == 2
    ensures var ts := h + ":" + m + ":" + s + "." + f;
            |ts| >= 9 && ts[..2] == h && ts[3..5] == m && ts[6..8] == s && ts[9..] == f
  {
  }

  lemma ClockReadsBack(hour: nat, minute: nat, second: nat, micros: nat)
    requires hour < 24 && minute < 60 && second < 60 && micros < 1_000_000
    ensures ParseClock(PrintClock(hour, minute, second, micros)) == Some(Clock(hour, minute, second, 1000 * micros))
  {
    ClockFields(Padded(hour, 2), Padded(minute, 2), Padded(second, 2), Padded(micros, 6));
    PowersOfTen();
    PaddedReadsBack(hour, 2);
    PaddedReadsBack(minute, 2);
    PaddedReadsBack(second, 2);
    PaddedReadsBack(micros, 6);
  }

  // ---------- Path and operation ----------

  function FirstSlash(s: string): (i: nat)
    ensures i <= |s|
    ensures i < |s| ==> s[i] == '/'
    ensures forall k :: 0 <= k < i ==> s[k] != '/'
  {
    if s == "" || s[0] == '/' then 0 else 1 + FirstSlash(s[1..])
  }

  /** Go's strings.TrimRight(s, " \t"). */
  function TrimRight(s: string): string {
    if s != "" && s[|s| - 1] in [' ', '\t'] then TrimRight(s[..|s| - 1]) else s
  }

  function ExtractPath(args: string): string {
    var i := FirstSlash(args);
    if i == |args| then "" else TrimRight(args[i..])
  }

  predicate IsModeChar(c: char) {
    'A' <= c <= 'Z' || c == '_'
  }

  predicate IsMode(s: string) {
    s != "" && forall i :: 0 <= i < |s| ==> IsModeChar(s[i])
  }

  function ModeRun(s: string): (n: nat)
    ensures n <= |s|
    ensures forall i :: 0 <= i < n ==> IsModeChar(s[i])
    ensures n < |s| ==> !IsModeChar(s[n])
  {
    if s == "" || !IsModeChar(s[0]) then 0 else 1 + ModeRun(s[1..])
  }

  /** The first parenthesised run of mode characters. */
  function OpenMode(args: string): string {
    if args == "" then ""
    else
      var n := ModeRun(args[1..]);
      if args[0] == '(' && 0 < n < |args| - 1 && args[n + 1] == ')' then args[1..n + 1] else OpenMode(args[1..])
  }

  function MapSyscall(call: string, args: string): Option<string> {
    if call in {"open", "openat", "open_nocancel", "openat_nocancel"} then
      var mode := OpenMode(args);
      Some(if 'W' in mode || 'C' in mode then "write" else "read")
    else if call in {"rename", "renameat", "renameatx_np"} then Some("rename")
    else if call in {"mkdir", "mkdirat"} then Some("mkdir")
    else if call in {"link", "linkat", "symlink", "symlinkat"} then Some("write")
    else if call == "truncate" then Some("write")
    else if call in {"chmod", "fchmodat"} then Some("write")
    else if call in {"utimes", "utimensat", "futimes", "futimens", "lutimes"} then Some("write")
    else if call in {"setattrlist", "setattrlistat", "fsetattrlist"} then Some("write")
    else if call in {"chflags", "fchflags", "lchflags", "chflagsat"} then Some("write")
    else if call in {"chown", "fchown", "lchown", "fchownat"} then Some("write")
    else None
  }

  /** The parenthesised mode `mode` stands at position `i`. */
  ghost predicate GroupAt(args: string, i: nat, mode: string) {
    && IsMode(mode) && i + |mode| + 1 < |args|
    && args[i] == '(' && args[i + 1..i + 1 + |mode|] == mode && args[i + 1 + |mode|] == ')'
  }

  /** No mode stands before position `n`, although parentheses may. */
  ghost predicate NoGroupBefore(args: string, n: nat) {
    forall j: nat, m :: j < n ==> !GroupAt(args, j, m)
  }

  lemma ModeRunOf(args: string, mode: string)
    requires GroupAt(args, 0, mode)
    ensures ModeRun(args[1..]) == |mode|
  {
    var rest := args[1..];
    assert forall i :: 0 <= i < |mode| ==> rest[i] == args[1..1 + |mode|][i];
    assert rest[|mode|] == ')';
  }

  lemma GroupShifts(args: string, i: nat, mode: string)
    requires args != ""
    ensures GroupAt(args[1..], i, mode) <==> GroupAt(args, i + 1, mode)
  {
    if i + 1 + |mode| < |args[1..]| {
      assert args[1..][i + 1..i + 1 + |mode|] == args[i + 2..i + 2 + |mode|];
    }
  }

  /** A mode is found, also inside a path, when no other stands before it. */
  lemma {:induction false} OpenModeFound(args: string, i: nat, mode: string)
    requires GroupAt(args, i, mode) && NoGroupBefore(args, i)
    ensures OpenMode(args) == mode
  {
    if i == 0 {
      ModeRunOf(args, mode);
    } else {
      if StopsHere(args) {
        StopIsGroup(args);
        assert false;
      }
      forall j: nat, m | j < i - 1
        ensures !GroupAt(args[1..], j, m)
      {
        GroupShifts(args, j, m);
      }
      GroupShifts(args, i - 1, mode);
      OpenModeFound(args[1..], i - 1, mode);
    }
  }

  /** The loop of OpenMode stops here. */
  predicate StopsHere(args: string)
    requires args != ""
  {
    var n := ModeRun(args[1..]);
    args[0] == '(' && 0 < n < |args| - 1 && args[n + 1] == ')'
  }

  lemma StopIsGroup(args: string)
    requires args != "" && StopsHere(args)
    ensures OpenMode(args) != "" && GroupAt(args, 0, OpenMode(args))
  {
    var n := ModeRun(args[1..]);
    assert OpenMode(args) == args[1..n + 1];
    assert forall k :: 0 <= k < n ==> args[1..n + 1][k] == args[1..][k];
  }

  lemma NoGroupGrows(args: string, n: nat)
    requires args != "" && !StopsHere(args) && NoGroupBefore(args[1..], n)
    ensures NoGroupBefore(args, n + 1)
  {
    forall j: nat, m | j < n + 1
      ensures !GroupAt(args, j, m)
    {
      if j == 0 { NoGroupAtStart(args, m); } else { GroupShifts(args, j - 1, m); }
    }
  }

  /** Conversely the answer is such a mode, or there is none. */
  lemma {:induction false} OpenModeStands(args: string) returns (i: nat)
    ensures OpenMode(args) == "" ==> NoGroupBefore(args, |args|)
    ensures OpenMode(args) != "" ==> GroupAt(args, i, OpenMode(args)) && NoGroupBefore(args, i)
  {
    i := 0;
    if args != "" {
      if StopsHere(args) {
        StopIsGroup(args);
      } else {
        var k := OpenModeStands(args[1..]);
        assert OpenMode(args) == OpenMode(args[1..]);
        if OpenMode(args) == "" {
          NoGroupGrows(args, |args[1..]|);
        } else {
          i := k + 1;
          NoGroupGrows(args, k);
          GroupShifts(args, k, OpenMode(args));
        }
      }
    }
  }

  lemma NoGroupAtStart(args: string, m: string)
    requires args != "" && !StopsHere(args)
    ensures !GroupAt(args, 0, m)
  {
    if GroupAt(args, 0, m) { ModeRunOf(args, m); }
  }

  // ---------- Which calls are kept ----------

  /** The first mode among the arguments, which may stand in the path, has a W or a C. */
  ghost predicate OpensToWrite(args: string) {
    exists i: nat, mode :: GroupAt(args, i, mode) && NoGroupBefore(args, i) && ('W' in mode || 'C' in mode)
  }

  lemma OpenModeDecides(args: string)
    ensures OpensToWrite(args) <==> 'W' in OpenMode(args) || 'C' in OpenMode(args)
  {
    var i := OpenModeStands(args);
    if OpensToWrite(args) {
      var j: nat, mode :| GroupAt(args, j, mode) && NoGroupBefore(args, j) && ('W' in mode || 'C' in mode);
      OpenModeFound(args, j, mode);
    }
  }

  const OPENS := {"open", "openat", "open_nocancel", "openat_nocancel"}
  const RENAMES := {"rename", "renameat", "renameatx_np"}
  const MAKES := {"mkdir", "mkdirat"}
  const LINKS := {"link", "linkat", "symlink", "symlinkat"}
  const MODES := {"truncate", "chmod", "fchmodat"}
  const TIMES := {"utimes", "utimensat", "futimes", "futimens", "lutimes"}
  const ATTRIBUTES := {"setattrlist", "setattrlistat", "fsetattrlist"}
  const FLAGS := {"chflags", "fchflags", "lchflags", "chflagsat"}
  const OWNERS := {"chown", "fchown", "lchown", "fchownat"}

  /** Calls that change a file or what the file system says about it. */
  predicate Changes(call: string) {
    call in LINKS || call in MODES || call in TIMES || call in ATTRIBUTES || call in FLAGS || call in OWNERS
  }

  predicate IsKept(call: string) {
    call in OPENS || call in RENAMES || call in MAKES || Changes(call)
  }

  /** The operation of a call: that of the first group it is in; all other calls are dropped. */
  lemma CallsExactly(call: string, args: string)
    ensures MapSyscall(call, args) == if call in OPENS then Some(if OpensToWrite(args) then "write" else "read")
                                      else if call in RENAMES then Some("rename")
                                      else if call in MAKES then Some("mkdir")
                                      else if Changes(call) then Some("write")
                                      else None
  {
    OpenModeDecides(args);
  }

  lemma KeptCall(call: string, args: string)
    ensures MapSyscall(call, args) == None <==> !IsKept(call)
    ensures call in OPENS ==> MapSyscall(call, args) == Some(if OpensToWrite(args) then "write" else "read")
  {
    CallsExactly(call, args);
  }

  // ---------- Parsing ----------

  /** What the code makes of captured groups; `at` puts a time of day on today's date. */
  function Outcome(ts: string, call: string, args: string, proc: string, pid: string, at: Clock -> int): Option<Wire.Event>
    requires IsStamp(ts) && Digits(pid)
  {
    if Number(pid) > MAX_INT then None
    else if ExtractPath(args) == "" then None
    else match MapSyscall(call, args)
      case None => None
      case Some(op) =>
        match ParseClock(ts)
        case None => None
        case Some(clock) => Some(Wire.Event(at(clock), op, ExtractPath(args), proc, Number(pid), Wire.NoClaude))
  }

  function MatchOutcome(m: Line, at: Clock -> int): Option<Wire.Event>
    requires Shape(m)
  {
    Outcome(m.ts, m.call, m.args, m.proc, m.pid, at)
  }

  /** The groups of a line, cut out from both ends. */
  datatype Groups = Groups(head: Head, tail: Tail, args: string, dot: int)

  function CutLine(line: string): Groups {
    var h := CutHead(line);
    var t := CutTail(h.rest);
    Groups(h, t, Core(t.mid), LastDot(t.last))
  }

  predicate WellFormed(g: Groups)
    requires -1 <= g.dot < |g.tail.last|
  {
    && IsStamp(g.head.ts) && g.head.call != "" && g.args != "" && '\n' !in g.args
    && IsDecimal(g.tail.dur) && g.dot > 0 && Digits(g.tail.last[g.dot + 1..])
  }

  function ParseLine(line: string, at: Clock -> int): Option<Wire.Event> {
    var g := CutLine(line);
    if !WellFormed(g) then None
    else Outcome(g.head.ts, g.head.call, g.args, g.tail.last[..g.dot], g.tail.last[g.dot + 1..], at)
  }

  // ---------- The parser reports the match ----------

  lemma BlankHasNoPath(args: string)
    requires Spaces(args)
    ensures ExtractPath(args) == ""
  {
  }

  lemma TrimmedParses(line: string, m: Line, at: Clock -> int)
    requires Matches(line, m) && Trimmed(m)
    ensures ParseLine(line, at) == MatchOutcome(m, at)
  {
    CutsOf(m);
    CoreOf(m.g2, m.args, m.g3);
    LastDotOf(m.proc, m.pid);
  }

  lemma BlankParses(line: string, m: Line, at: Clock -> int)
    requires Matches(line, m) && Core(Middle(m)) == ""
    ensures ParseLine(line, at) == MatchOutcome(m, at) == None
  {
    CutsOf(m);
    BlankMiddle(m);
    BlankHasNoPath(m.args);
  }

  /** The pieces of an accepted cut, its middle shared out around the arguments. */
  function Glue(h: Head, t: Tail, g2: string, args: string, g3: string, dot: nat): Line
    requires dot < |t.last|
  {
    Line(h.lead, h.ts, h.g1, h.call, g2, args, g3, t.dur, t.g4, t.wait, t.g5, t.last[..dot], t.last[dot + 1..], t.trail)
  }

  lemma GlueText(h: Head, t: Tail, g2: string, args: string, g3: string, dot: nat)
    requires dot < |t.last| && t.last[dot] == '.'
    requires h.rest == t.mid + t.dur + t.g4 + t.wait + t.g5 + t.last + t.trail && t.mid == g2 + args + g3
    ensures Text(Glue(h, t, g2, args, g3, dot)) == h.lead + (h.ts + (h.g1 + (h.call + h.rest)))
  {
  }

  lemma GlueShape(h: Head, t: Tail, g2: string, args: string, g3: string, dot: nat)
    requires dot < |t.last| && GoodHead(h) && GoodTail(t) && WellFormed(Groups(h, t, args, dot))
    requires g2 != "" && Spaces(g2) && g3 != "" && Spaces(g3)
    ensures Shape(Glue(h, t, g2, args, g3, dot))
  {
  }

  /** Whatever the cuts accept is a match. */
  lemma CutIsMatch(line: string) returns (m: Line)
    requires WellFormed(CutLine(line))
    ensures Matches(line, m) && Trimmed(m)
  {
    HeadRuns(line);
    TailRuns(CutHead(line).rest);
    m := Glued(CutHead(line), CutTail(CutHead(line).rest), LastDot(CutLine(line).tail.last));
  }

  lemma Glued(h: Head, t: Tail, dot: nat) returns (m: Line)
    requires h.rest == t.mid + t.dur + t.g4 + t.wait + t.g5 + t.last + t.trail
    requires GoodHead(h) && GoodTail(t) && dot < |t.last| && t.last[dot] == '.'
    requires WellFormed(Groups(h, t, Core(t.mid), dot))
    ensures Matches(h.lead + (h.ts + (h.g1 + (h.call + h.rest))), m) && Trimmed(m)
  {
    var g2, g3 := CorePieces(t.mid);
    EndsOfMiddle(t.mid, g2, Core(t.mid), g3);
    GlueText(h, t, g2, Core(t.mid), g3, dot);
    GlueShape(h, t, g2, Core(t.mid), g3, dot);
    m := Glue(h, t, g2, Core(t.mid), g3, dot);
  }

  lemma EndsOfMiddle(mid: string, g2: string, args: string, g3: string)
    requires mid == g2 + args + g3 && mid != "" && IsSpace(mid[0]) && IsSpace(mid[|mid| - 1])
    requires args != "" && !IsSpace(args[0]) && !IsSpace(args[|args| - 1])
    ensures g2 != "" && g3 != ""
  {
  }

  /** The path of an event begins with a slash. */
  lemma ParsedPathIsAbsolute(line: string, at: Clock -> int)
    requires ParseLine(line, at).Some?
    ensures var p := ParseLine(line, at).value.path; p != "" && p[0] == '/'
  {
    NoSlashNoPath(CutLine(line).args);
  }

  lemma ReportedParses(line: string, m: Line, at: Clock -> int)
    requires Preferred(line, m)
    ensures ParseLine(line, at) == MatchOutcome(m, at)
  {
    if Core(Middle(m)) == "" {
      BlankParses(line, m, at);
    } else {
      PreferredIsTrimmed(line, m);
      TrimmedParses(line, m, at);
    }
  }

  /** The parser is the regular expression: its event is that of the reported match, and without one there is none. */
  lemma ParseLineIsTheMatch(line: string, at: Clock -> int, ev: Wire.Event)
    ensures ParseLine(line, at) == Some(ev) <==> exists m :: Preferred(line, m) && MatchOutcome(m, at) == Some(ev)
    ensures forall m :: Preferred(line, m) ==> ParseLine(line, at) == MatchOutcome(m, at)
  {
    forall m | Preferred(line, m)
      ensures ParseLine(line, at) == MatchOutcome(m, at)
    {
      ReportedParses(line, m, at);
    }
    if ParseLine(line, at) == Some(ev) {
      var m := CutIsMatch(line);
      TrimmedIsPreferred(line, m);
    }
  }

  lemma {:induction false} NoSlashNoPath(args: string)
    ensures '/' !in args ==> ExtractPath(args) == ""
    ensures '/' in args ==> ExtractPath(args) != "" && ExtractPath(args)[0] == '/'
  {
    var i := FirstSlash(args);
    if '/' in args {
      assert i < |args|;
      TrimKeepsStart(args[i..]);
    }
  }

  lemma {:induction false} TrimKeepsStart(s: string)
    requires s != "" && s[0] == '/'
    ensures TrimRight(s) != "" && TrimRight(s)[0] == '/'
  {
    if s[|s| - 1] in [' ', '\t'] {
      assert |s| > 1;
      TrimKeepsStart(s[..|s| - 1]);
    }
  }

  lemma OutcomeRefused(ts: string, call: string, args: string, proc: string, pid: string, at: Clock -> int)
    requires IsStamp(ts) && Digits(pid)
    ensures Outcome(ts, call, args, proc, pid, at) == None <==>
              Number(pid) > MAX_INT || ExtractPath(args) == "" || MapSyscall(call, args) == None || ParseClock(ts) == None
  {
  }

  lemma ClockRefused(ts: string)
    requires IsStamp(ts)
    ensures ParseClock(ts) == None <==> Number(ts[..2]) >= 24 || Number(ts[3..5]) >= 60 || Number(ts[6..8]) >= 60
  {
  }

  /**
   A matched line gives no event exactly when its arguments have no slash, its call is not kept, its process number
   overflows or its time of day is none.
   */
  lemma RefusedExactly(line: string, m: Line, at: Clock -> int)
    requires Preferred(line, m)
    ensures ParseLine(line, at) == None <==>
              || '/' !in m.args || !IsKept(m.call) || Number(m.pid) > 0x7FFF_FFFF_FFFF_FFFF
              || Number(m.ts[..2]) >= 24 || Number(m.ts[3..5]) >= 60 || Number(m.ts[6..8]) >= 60
  {
    ReportedParses(line, m, at);
    OutcomeRefused(m.ts, m.call, m.args, m.proc, m.pid, at);
    NoSlashNoPath(m.args);
    KeptCall(m.call, m.args);
    ClockRefused(m.ts);
  }

  /** The fraction of a second counts nanoseconds: digits after the ninth are dropped, missing ones are zeros. */
  lemma FractionExactly(ts: string)
    requires IsStamp(ts) && ParseClock(ts).Some?
    ensures var nanos, digits := ParseClock(ts).value.nanos, ts[9..];
            && (|digits| <= 9 ==> nanos == Number(digits) * Pow10(9 - |digits|))
            && (|digits| > 9 ==> nanos == Number(digits[..9]))
  {
  }

  // ---------- Printed records ----------

  /** A record as fs_usage prints it; `before` is what stands before the path. */
  datatype Record = Record(hour: nat, minute: nat, second: nat, micros: nat, call: string, before: string, path: string,
                           dur: string, wait: bool, process: string, pid: nat)

  /** The blanks of a line. */
  datatype Layout = Layout(lead: string, g1: string, g2: string, g3: string, g4: string, g5: string, trail: string)

  predicate Printable(r: Record) {
    && r.hour < 24 && r.minute < 60 && r.second < 60 && r.micros < 1_000_000
    && r.call != "" && Solid(r.call) && IsDecimal(r.dur)
    && '/' !in r.before && '\n' !in r.before && (r.before != "" ==> !IsSpace(r.before[0]))
    && r.path != "" && r.path[0] == '/' && '\n' !in r.path && !IsSpace(r.path[|r.path| - 1])
    && r.process != "" && Solid(r.process)
  }

  predicate Blank(l: Layout) {
    && Spaces(l.lead) && Spaces(l.g1) && Spaces(l.g2) && Spaces(l.g3) && Spaces(l.g4) && Spaces(l.g5) && Spaces(l.trail)
    && l.g1 != "" && l.g2 != "" && l.g3 != "" && l.g5 != ""
  }

  function Pieces(r: Record, l: Layout): Line {
    Line(l.lead, PrintClock(r.hour, r.minute, r.second, r.micros), l.g1, r.call, l.g2, r.before + r.path, l.g3,
         r.dur, l.g4, if r.wait then "W" else "", l.g5, r.process, Decimal(r.pid), l.trail)
  }

  function Print(r: Record, l: Layout): string {
    Text(Pieces(r, l))
  }

  lemma {:induction false} ExtractsPath(before: string, path: string)
    requires '/' !in before && path != "" && path[0] == '/' && !IsSpace(path[|path| - 1])
    ensures ExtractPath(before + path) == path
  {
    var args := before + path;
    assert forall i :: 0 <= i < |before| ==> args[i] == before[i];
    assert args[|before|] == '/';
    assert args[|before|..] == path;
  }

  lemma PrintedMatches(r: Record, l: Layout)
    requires Printable(r) && Blank(l)
    ensures Matches(Print(r, l), Pieces(r, l)) && Trimmed(Pieces(r, l))
  {
  }

  /** A printed record is read back: time, path, process and pid are its own, whatever the path holds. */
  lemma RoundTrip(r: Record, l: Layout, at: Clock -> int)
    requires Printable(r) && Blank(l)
    ensures ParseLine(Print(r, l), at)
         == if r.pid > MAX_INT || MapSyscall(r.call, r.before + r.path) == None then None
            else Some(Wire.Event(at(Clock(r.hour, r.minute, r.second, 1000 * r.micros)),
                                 MapSyscall(r.call, r.before + r.path).value, r.path, r.process, r.pid, Wire.NoClaude))
  {
    PrintedMatches(r, l);
    TrimmedParses(Print(r, l), Pieces(r, l), at);
    ClockReadsBack(r.hour, r.minute, r.second, r.micros);
    DecimalReadsBack(r.pid);
    ExtractsPath(r.before, r.path);
  }

  /** The operation of a printed record, if its call is kept. */
  function PrintedOp(r: Record): string {
    match MapSyscall(r.call, r.before + r.path)
    case None => ""
    case Some(op) => op
  }

  /** A printed record gives an event exactly when its call is kept and its pid fits; the event. */
  lemma PrintedParse(r: Record, l: Layout, at: Clock -> int)
    requires Printable(r) && Blank(l)
    ensures var e := ParseLine(Print(r, l), at);
            && (e.Some? <==> IsKept(r.call) && r.pid <= MAX_INT)
            && (e.Some? ==> e.value == Wire.Event(at(Clock(r.hour, r.minute, r.second, 1000 * r.micros)), PrintedOp(r),
                                                  r.path, r.process, r.pid, Wire.NoClaude))
  {
    RoundTrip(r, l, at);
    KeptCall(r.call, r.before + r.path);
  }

  /** The record of an open of any kind is a write exactly when it opens to write, otherwise a read. */
  lemma OpenIsWrite(r: Record, l: Layout, at: Clock -> int)
    requires Printable(r) && Blank(l) && r.call in OPENS && r.pid <= MAX_INT
    ensures var e := ParseLine(Print(r, l), at);
            e.Some? && e.value.op == if OpensToWrite(r.before + r.path) then "write" else "read"
  {
    RoundTrip(r, l, at);
    KeptCall(r.call, r.before + r.path);
  }
}
