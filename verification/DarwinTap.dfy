/**
 The macOS tap of internal/tap/tap_darwin.go: the lines of fs_usage are parsed, filtered and
 written in order. Today's date, the outcome of writes and how fs_usage ends are parameters.
 */
module DarwinTap {
  import opened Sequences
  import opened TapBooks
  import FsUsageLine
  import Paths
  import Wire

  /** The filter's settings, with the functions the loop calls on a line and its path. */
  datatype Config = Config(parse: (string, FsUsageLine.Clock -> int) -> Option<Wire.Event>, clean: string -> string,
                           normalize: string -> string, within: string -> bool,
                           excludePIDs: set<int>, excludeNames: set<string>)

  /** The settings Run builds for watch directory `abs`. */
  function Settings(abs: string, excludePIDs: set<int>, excludeNames: set<string>): Config {
    Config((line: string, today: FsUsageLine.Clock -> int) => FsUsageLine.ParseLine(line, today),
           p => Paths.CleanPath(p), p => Paths.NormalizePath(p),
           p => Paths.PathIn(p, abs, Paths.DirPrefix(abs)), excludePIDs, excludeNames)
  }

  datatype World = World(today: nat -> (FsUsageLine.Clock -> int), writeFails: nat -> bool,
                         scanFails: bool, exitFails: bool)

  datatype Ending = Done | WriteError | ScanError | ExitError

  /** What becomes of the `k`-th line. */
  function Judge(cfg: Config, w: World, k: nat, line: string): Verdict {
    match cfg.parse(line, w.today(k))
    case None => Unresolved
    case Some(ev) =>
      var path := cfg.normalize(cfg.clean(ev.path));
      if !cfg.within(path) then Outside
      else if ev.pid in cfg.excludePIDs || ev.process in cfg.excludeNames then Excluded
      else Kept(ev.(path := path))
  }

  function Verdicts(cfg: Config, w: World, lines: seq<string>): seq<Verdict> {
    seq(|lines|, k requires 0 <= k < |lines| => Judge(cfg, w, k, lines[k]))
  }

  lemma VerdictsSnoc(cfg: Config, w: World, lines: seq<string>, i: nat)
    requires i < |lines|
    ensures Verdicts(cfg, w, lines[..i + 1]) == Verdicts(cfg, w, lines[..i]) + [Judge(cfg, w, i, lines[i])]
  {
  }

  /** Output, counters and ending account for the verdicts on the lines seen. */
  ghost predicate Accounted(w: World, vs: seq<Verdict>, output: seq<Wire.Event>, stats: Tally, ending: Ending) {
    && stats.lines == |vs|
    && stats.parsed == stats.kept + stats.dropped + stats.excluded == |vs| - Count(vs, Unresolved)
    && stats.kept == |Forwarded(vs)| && stats.dropped == Count(vs, Outside) && stats.excluded == Count(vs, Excluded)
    && if ending.WriteError?
       then stats.kept > 0 && w.writeFails(stats.kept - 1) && output == Forwarded(vs)[..stats.kept - 1]
       else output == Forwarded(vs) && forall k :: 0 <= k < stats.kept ==> !w.writeFails(k)
  }

  /** The books while no write has failed. */
  ghost predicate Open(w: World, vs: seq<Verdict>, output: seq<Wire.Event>, stats: Tally) {
    stats == TallyOf(vs) && output == Forwarded(vs) && forall k :: 0 <= k < stats.kept ==> !w.writeFails(k)
  }

  lemma OpenStep(w: World, vs: seq<Verdict>, output: seq<Wire.Event>, stats: Tally, v: Verdict)
    requires Open(w, vs, output, stats)
    ensures v.Kept? && w.writeFails(stats.kept) ==> Accounted(w, vs + [v], output, Add(stats, v), WriteError)
    ensures v.Kept? && !w.writeFails(stats.kept) ==> Open(w, vs + [v], output + [v.out], Add(stats, v))
    ensures !v.Kept? ==> Open(w, vs + [v], output, Add(stats, v))
  {
    TallySnoc(vs, v);
    TallyCounts(vs);
    TallyCounts(vs + [v]);
    assert v.Kept? ==> (Forwarded(vs) + [v.out])[..|Forwarded(vs)|] == Forwarded(vs);
    assert Forwarded(vs) + [] == Forwarded(vs);
  }

  lemma OpenAccounted(w: World, vs: seq<Verdict>, output: seq<Wire.Event>, stats: Tally, ending: Ending)
    requires Open(w, vs, output, stats) && !ending.WriteError?
    ensures Accounted(w, vs, output, stats, ending)
  {
    TallyCounts(vs);
  }

  /** The body of the loop up to the write: the counters, and the event to write if the line passes. */
  method Filter(cfg: Config, w: World, line: string, before: Tally) returns (stats: Tally, kept: Option<Wire.Event>)
    ensures var v := Judge(cfg, w, before.lines, line);
            stats == Add(before, v) && kept == if v.Kept? then Some(v.out) else None
  {
    stats, kept := before.(lines := before.lines + 1), None;
    var parsed := cfg.parse(line, w.today(before.lines));
    if parsed.None? {
      return;
    }
    var ev := parsed.value;
    stats := stats.(parsed := stats.parsed + 1);
    ev := ev.(path := cfg.clean(ev.path));
    ev := ev.(path := cfg.normalize(ev.path));
    if !cfg.within(ev.path) {
      stats := stats.(dropped := stats.dropped + 1);
      return;
    }
    if ev.pid in cfg.excludePIDs {
      stats := stats.(excluded := stats.excluded + 1);
      return;
    }
    if ev.process in cfg.excludeNames {
      stats := stats.(excluded := stats.excluded + 1);
      return;
    }
    stats, kept := stats.(kept := stats.kept + 1), Some(ev);
  }

  /**
   The scan loop. Its output is the in-order selection of the lines seen, short of the last selected one when that
   one's write failed; the counters count the verdicts.
   */
  method Run(cfg: Config, w: World, lines: seq<string>) returns (output: seq<Wire.Event>, stats: Tally, ending: Ending)
    ensures stats.lines <= |lines| && Accounted(w, Verdicts(cfg, w, lines[..stats.lines]), output, stats, ending)
    ensures !ending.WriteError? ==> stats.lines == |lines|
    ensures !ending.WriteError? ==> ending == if w.scanFails then ScanError else if w.exitFails then ExitError else Done
  {
    output, stats := [], Tally(0, 0, 0, 0, 0);
    ghost var vs := [];
    for i := 0 to |lines|
      invariant stats.lines == i && vs == Verdicts(cfg, w, lines[..i]) && Open(w, vs, output, stats)
    {
      ghost var v := Judge(cfg, w, i, lines[i]);
      VerdictsSnoc(cfg, w, lines, i);
      OpenStep(w, vs, output, stats, v);
      vs := vs + [v];
      var kept;
      stats, kept := Filter(cfg, w, lines[i], stats);
      if kept.Some? {
        if w.writeFails(stats.kept - 1) {
          return output, stats, WriteError;
        }
        output := output + [kept.value];
      }
    }
    ending := if w.scanFails then ScanError else if w.exitFails then ExitError else Done;
    OpenAccounted(w, vs, output, stats, ending);
    assert lines[..|lines|] == lines;
  }

  /** The components a printed path has after cleaning and stripping the data volume. */
  function Place(path: string): seq<string> {
    var cs := Paths.Resolve([], Paths.Split(path), true);
    if Paths.DATA_PARTS < cs then cs[3..] else cs
  }

  lemma PlaceOf(path: string)
    requires path != "" && path[0] == '/'
    ensures Paths.ValidNames(Place(path))
    ensures Paths.NormalizePath(Paths.CleanPath(path)) == Paths.Render(Place(path))
  {
    Paths.CleanAbsolute(path);
    Paths.NormalizeIsComponents(Paths.Resolve([], Paths.Split(path), true));
  }

  /**
   What becomes of any line: it is unresolved when it does not parse; otherwise the place of its path and its process
   decide, and what is forwarded is its event under that place.
   */
  lemma JudgeExactly(d: seq<string>, pids: set<int>, names: set<string>, w: World, k: nat, line: string)
    requires Paths.ValidNames(d)
    ensures var v := Judge(Settings(Paths.Render(d), pids, names), w, k, line);
            match FsUsageLine.ParseLine(line, w.today(k))
            case None => v == Unresolved
            case Some(ev) =>
              var place := Place(ev.path);
              if !(d <= place) then v == Outside
              else if ev.pid in pids || ev.process in names then v == Excluded
              else v == Kept(ev.(path := Paths.Render(place)))
  {
    if FsUsageLine.ParseLine(line, w.today(k)).Some? {
      var ev := FsUsageLine.ParseLine(line, w.today(k)).value;
      FsUsageLine.ParsedPathIsAbsolute(line, w.today(k));
      PlaceOf(ev.path);
      Paths.PathInIsComponents(d, Place(ev.path));
    }
  }

  /**
   End to end: a printed record is forwarded exactly when its call is one that is kept, its pid fits an int, its
   place lies in the watch directory and nothing excludes it; it is forwarded under that place.
   */
  lemma ForwardedExactly(d: seq<string>, pids: set<int>, names: set<string>, w: World, k: nat,
                         r: FsUsageLine.Record, l: FsUsageLine.Layout)
    requires Paths.ValidNames(d) && FsUsageLine.Printable(r) && FsUsageLine.Blank(l)
    ensures var v := Judge(Settings(Paths.Render(d), pids, names), w, k, FsUsageLine.Print(r, l));
            && (v.Kept? <==> FsUsageLine.IsKept(r.call) && r.pid <= FsUsageLine.MAX_INT && d <= Place(r.path)
                             && r.pid !in pids && r.process !in names)
            && (v.Kept? ==> v.out == Wire.Event(w.today(k)(FsUsageLine.Clock(r.hour, r.minute, r.second, 1000 * r.micros)),
                                               FsUsageLine.PrintedOp(r), Paths.Render(Place(r.path)), r.process, r.pid,
                                               Wire.NoClaude))
  {
    FsUsageLine.PrintedParse(r, l, w.today(k));
    JudgeExactly(d, pids, names, w, k, FsUsageLine.Print(r, l));
  }
}
