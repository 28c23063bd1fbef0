/**
 The Linux tap of internal/tap/tap_linux.go as it runs: a read buffer, carried-over bytes in
 a slice whose array is reused, counters, and the output. Path and process lookups, the
 clock and the outcome of writes are parameters, indexed by the event or write they serve.
 */
module FanotifyTap {
  import opened Sequences
  import opened Fanotify
  import opened FanotifyStream
  import opened TapBooks
  import Paths
  import Wire

  const READ_WINDOW := 0x1_0000

  /** The outcome of one read call. */
  datatype Read = Data(chunk: seq<Byte>) | Interrupted | Failed

  /** The filter's settings; `clean` and `within` are the path functions of internal/tap/tap.go. */
  datatype Config = Config(clean: string -> string, within: string -> bool,
                           excludePIDs: set<int>, excludeNames: set<string>)

  /** The settings Run builds for watch directory `abs`. */
  function Settings(abs: string, excludePIDs: set<int>, excludeNames: set<string>): Config {
    Config(p => Paths.CleanPath(p), p => Paths.PathIn(p, abs, Paths.DirPrefix(abs)), excludePIDs, excludeNames)
  }

  datatype World = World(pathOf: nat -> string, commOf: nat -> string, clock: nat -> int, writeFails: nat -> bool)

  // ---------- The filter ----------

  predicate Bit(v: nat, value: nat)
    requires value > 0
  {
    v / value % 2 == 1
  }

  const FAN_MODIFY := 0x2
  const FAN_CLOSE_WRITE := 0x8

  function OpFromMask(mask: nat): string {
    if Bit(mask, FAN_MODIFY) || Bit(mask, FAN_CLOSE_WRITE) then "write" else "read"
  }

  function Judge(cfg: Config, w: World, k: nat, ev: Event): Verdict {
    if w.pathOf(k) == "" then Unresolved
    else
      var path := cfg.clean(w.pathOf(k));
      if !cfg.within(path) then Outside
      else if ev.pid in cfg.excludePIDs || w.commOf(k) in cfg.excludeNames then Excluded
      else Kept(Wire.Event(w.clock(k), OpFromMask(ev.mask), path, w.commOf(k), ev.pid, Wire.NoClaude))
  }

  function Verdicts(cfg: Config, w: World, events: seq<Event>): seq<Verdict> {
    seq(|events|, k requires 0 <= k < |events| => Judge(cfg, w, k, events[k]))
  }

  function Descriptors(events: seq<Event>): seq<int> {
    seq(|events|, k requires 0 <= k < |events| => events[k].fd)
  }

  /** What a run has recorded about the events it handled. */
  datatype Ledger = Ledger(handled: seq<Event>, verdicts: seq<Verdict>, closed: seq<int>, tally: Tally)

  ghost predicate Correct(cfg: Config, w: World, l: Ledger) {
    && l.tally.lines == |l.handled| == |l.verdicts| == |l.closed|
    && (forall k :: 0 <= k < |l.handled| ==> l.verdicts[k] == Judge(cfg, w, k, l.handled[k]))
    && (forall k :: 0 <= k < |l.handled| ==> l.closed[k] == l.handled[k].fd)
    && l.tally == TallyOf(l.verdicts)
  }

  function Record(l: Ledger, ev: Event, v: Verdict): Ledger {
    Ledger(l.handled + [ev], l.verdicts + [v], l.closed + [ev.fd], Add(l.tally, v))
  }

  lemma RecordCorrect(cfg: Config, w: World, l: Ledger, ev: Event)
    requires Correct(cfg, w, l)
    ensures Correct(cfg, w, Record(l, ev, Judge(cfg, w, l.tally.lines, ev)))
  {
    var v := Judge(cfg, w, l.tally.lines, ev);
    var l' := Record(l, ev, v);
    TallySnoc(l.verdicts, v);
    forall k | 0 <= k < |l'.handled|
      ensures l'.verdicts[k] == Judge(cfg, w, k, l'.handled[k]) && l'.closed[k] == l'.handled[k].fd
    {
      if k < |l.handled| {
        assert l'.handled[k] == l.handled[k] && l'.verdicts[k] == l.verdicts[k] && l'.closed[k] == l.closed[k];
      }
    }
  }

  /** `events`, `left'` and `skipped'` are what decoding `chunk` after `left` gives. */
  predicate Reassembled(left: seq<Byte>, skipped: seq<Event>, chunk: seq<Byte>,
                        events: seq<Event>, left': seq<Byte>, skipped': seq<Event>) {
    match Parse(left + chunk)
    case Parsed(es, rest) => events == es && left' == rest && skipped' == skipped
    case BadLength(es, _) => events == [] && left' == [] && skipped' == skipped + es
  }

  lemma Deliver1Reassembled(handled: seq<Event>, left: seq<Byte>, skipped: seq<Event>, chunk: seq<Byte>,
                            events: seq<Event>, left': seq<Byte>, skipped': seq<Event>)
    requires Reassembled(left, skipped, chunk, events, left', skipped')
    ensures Deliver1(Delivery(handled, left, skipped), chunk) == Delivery(handled + events, left', skipped')
  {
  }

  /** The first `n` writes succeed. */
  ghost predicate AllWrites(w: World, n: nat) {
    forall j :: 0 <= j < n ==> !w.writeFails(j)
  }

  /** The output of `kept` forwarded events, all written. */
  ghost predicate Complete(w: World, vs: seq<Verdict>, output: seq<Wire.Event>, kept: nat) {
    output == Forwarded(vs) && AllWrites(w, kept)
  }

  /** The output when the write of the last event failed. */
  ghost predicate LastMissing(w: World, vs: seq<Verdict>, output: seq<Wire.Event>, kept: nat) {
    && vs != [] && vs[|vs| - 1].Kept? && output == Forwarded(vs[..|vs| - 1])
    && kept >= 1 && w.writeFails(kept - 1) && AllWrites(w, kept - 1)
  }

  lemma OutputStep(w: World, vs: seq<Verdict>, output: seq<Wire.Event>, kept: nat, v: Verdict)
    requires Complete(w, vs, output, kept)
    ensures !v.Kept? ==> Complete(w, vs + [v], output, kept)
    ensures v.Kept? && w.writeFails(kept) ==> LastMissing(w, vs + [v], output, kept + 1)
    ensures v.Kept? && !w.writeFails(kept) ==> Complete(w, vs + [v], output + [v.out], kept + 1)
  {
    TallySnoc(vs, v);
    assert (vs + [v])[..|vs|] == vs;
    assert Forwarded(vs) + [] == Forwarded(vs);
  }

  // ---------- The running tap ----------

  class Tap {
    const cfg: Config
    const world: World
    const buf: array<Byte>      // the read window
    var store: array<Byte>      // backing array of the carried-over slice
    var len: nat                // its length
    var stats: Tally
    var closed: seq<int>        // descriptors closed, in order
    var output: seq<Wire.Event>
    ghost var handled: seq<Event>  // events the filter has processed
    ghost var verdicts: seq<Verdict>  // and what it decided
    ghost var skipped: seq<Event>  // events decoded in a call that returned an error

    ghost predicate Valid()
      reads `store, `len
    {
      buf.Length == READ_WINDOW && len <= store.Length && buf != store
    }

    ghost function Left(): seq<Byte>
      reads `store, `len, store
      requires Valid()
    {
      store[..len]
    }

    ghost function Books(): Ledger
      reads `stats, `closed, `handled, `verdicts
    {
      Ledger(handled, verdicts, closed, stats)
    }

    /** Counters, verdicts and closed descriptors account for the handled events. */
    ghost predicate Accounted()
      reads `stats, `closed, `handled, `verdicts
    {
      Correct(cfg, world, Books())
    }

    /** All forwarded events have been written. */
    ghost predicate Written()
      reads `stats, `output, `verdicts
    {
      Complete(world, verdicts, output, stats.kept)
    }

    /** The write of the last forwarded event failed; the earlier ones are written. */
    ghost predicate CutShort()
      reads `stats, `output, `verdicts
    {
      LastMissing(world, verdicts, output, stats.kept)
    }

    constructor (cfg: Config, world: World)
      ensures Valid() && Left() == [] && Accounted() && Written()
      ensures this.cfg == cfg && this.world == world && handled == [] && skipped == []
      ensures fresh(buf) && fresh(store)
    {
      this.cfg, this.world := cfg, world;
      buf := new Byte[READ_WINDOW](_ => 0);
      store, len := new Byte[0], 0;
      stats := Tally(0, 0, 0, 0, 0);
      closed, output, handled, verdicts, skipped := [], [], [], [], [];
    }

    /** The filter's tests on the event that `k` counts, and what they add to correct books. */
    method Classify(k: nat, ev: Event, ghost books: Ledger) returns (v: Verdict)
      requires Correct(cfg, world, books) && books.tally.lines == k
      ensures Correct(cfg, world, Record(books, ev, v))
    {
      v := Tests(k, ev);
      RecordCorrect(cfg, world, books, ev);
    }

    method Tests(k: nat, ev: Event) returns (v: Verdict)
      ensures v == Judge(cfg, world, k, ev)
    {
      var path := world.pathOf(k);
      if path == "" {
        return Unresolved;
      }
      path := cfg.clean(path);
      if !cfg.within(path) {
        return Outside;
      }
      if ev.pid in cfg.excludePIDs {
        return Excluded;
      }
      var pname := world.commOf(k);
      if pname in cfg.excludeNames {
        return Excluded;
      }
      return Kept(Wire.Event(world.clock(k), OpFromMask(ev.mask), path, pname, ev.pid, Wire.NoClaude));
    }

    /** One event: its descriptor is closed, whatever the tests then say, and the counters are updated. */
    method Enter(ev: Event) returns (v: Verdict)
      requires Accounted()
      modifies this`stats, this`closed, this`handled, this`verdicts
      ensures handled == old(handled) + [ev] && verdicts == old(verdicts) + [v] && Accounted()
      ensures closed == old(closed) + [ev.fd]
      ensures stats.kept == old(stats).kept + if v.Kept? then 1 else 0
    {
      ghost var books := Books();
      closed := closed + [ev.fd];
      v := Classify(stats.lines, ev, books);
      stats := Add(stats, v);
      handled, verdicts := handled + [ev], verdicts + [v];
      assert Books() == Record(books, ev, v);
    }

    /** One event through the filter; `ok` is false when its write failed. */
    method Handle(ev: Event) returns (ok: bool)
      requires Accounted() && Written()
      modifies this`stats, this`closed, this`output, this`handled, this`verdicts
      ensures handled == old(handled) + [ev] && Accounted()
      ensures if ok then Written() else CutShort()
    {
      var v := Enter(ev);
      OutputStep(world, old(verdicts), output, old(stats).kept, v);
      if !v.Kept? {
        return true;
      }
      if world.writeFails(stats.kept - 1) {
        return false;
      }
      output := output + [v.out];
      return true;
    }

    /** The events of one decode; on a failed write the rest of the batch is abandoned. */
    method HandleAll(events: seq<Event>) returns (ok: bool)
      requires Accounted() && Written()
      modifies this`stats, this`closed, this`output, this`handled, this`verdicts
      ensures Accounted()
      ensures ok ==> handled == old(handled) + events && Written()
      ensures !ok ==> old(handled) < handled <= old(handled) + events
      ensures !ok ==> CutShort()
    {
      ghost var before := handled;
      for i := 0 to |events|
        invariant Accounted() && Written() && handled == before + events[..i]
      {
        TakeOneMore(before, events, i);
        ok := Handle(events[i]);
        if !ok {
          return false;
        }
      }
      assert events[..|events|] == events;
      return true;
    }

    /** Copy `n` elements between different arrays. */
    static method Copy(src: array<Byte>, from: nat, dst: array<Byte>, to: nat, n: nat)
      requires src != dst && from + n <= src.Length && to + n <= dst.Length
      modifies dst
      ensures dst[to..to + n] == src[from..from + n]
      ensures dst[..to] == old(dst[..to]) && dst[to + n..] == old(dst[to + n..])
    {
      forall i | 0 <= i < n {
        dst[to + i] := src[from + i];
      }
    }

    /** The read: carried-over bytes, if any, are put before the window in a new array, and the kernel fills in `chunk`. */
    method ReadMore(chunk: seq<Byte>) returns (readBuf: array<Byte>)
      requires Valid() && |chunk| <= READ_WINDOW
      modifies buf
      ensures readBuf == buf || fresh(readBuf)
      ensures len + |chunk| <= readBuf.Length && readBuf[..len + |chunk|] == Left() + chunk
      ensures store[..] == old(store[..])
    {
      readBuf := buf;
      if len > 0 {
        readBuf := new Byte[len + buf.Length](_ => 0);
        Copy(store, 0, readBuf, 0, len);
        Copy(buf, 0, readBuf, len, buf.Length);
      }
      assert readBuf[..len] == store[..len];
      Fill(readBuf, len, chunk);
    }

    static method Fill(dst: array<Byte>, to: nat, chunk: seq<Byte>)
      requires to + |chunk| <= dst.Length
      modifies dst
      ensures dst[..to + |chunk|] == old(dst[..to]) + chunk
    {
      forall i | 0 <= i < |chunk| {
        dst[to + i] := chunk[i];
      }
    }

    /** Keep `n` bytes of another array, reusing the slice's array when it is long enough. */
    method Keep(readBuf: array<Byte>, from: nat, n: nat)
      requires Valid() && readBuf != store && from + n <= readBuf.Length
      modifies this`store, this`len, store
      ensures Valid() && (store == old(store) || fresh(store)) && Left() == old(readBuf[from..from + n])
    {
      if n > store.Length {
        store := new Byte[n](_ => 0);
      }
      Copy(readBuf, from, store, 0, n);
      len := n;
      assert store[..n] == readBuf[from..from + n];
    }

    /**
     The reassembly of one read: the carried-over bytes and the new ones are decoded together, and the undecoded
     rest is copied into the reused array. The buffer that is decoded never shares its array with that slice.
     */
    method Reassemble(chunk: seq<Byte>) returns (events: seq<Event>, ok: bool)
      requires Valid() && |chunk| <= READ_WINDOW
      modifies this`store, this`len, this`skipped, buf, store
      ensures Valid() && (store == old(store) || fresh(store))
      ensures Reassembled(old(Left()), old(skipped), chunk, events, Left(), skipped)
      ensures ok <==> Parse(old(Left()) + chunk).Parsed?
    {
      ghost var left, skip := Left(), skipped;
      var readBuf := ReadMore(chunk);
      var n := len + |chunk|;
      var from;
      events, from, ok := DecodeBuffer(readBuf, n, left, skip, chunk);
      if !ok {
        skipped := skip + Parse(left + chunk).events;
        store, len := new Byte[0], 0;
        return;
      }
      Keep(readBuf, from, n - from);
    }

    /** Decodes the first `n` bytes of the buffer; those from `from` on are to be kept. */
    static method DecodeBuffer(readBuf: array<Byte>, n: nat, ghost left: seq<Byte>, ghost skip: seq<Event>,
                               chunk: seq<Byte>)
      returns (events: seq<Event>, from: nat, ok: bool)
      requires n <= readBuf.Length && readBuf[..n] == left + chunk
      ensures from <= n
      ensures ok ==> Reassembled(left, skip, chunk, events, readBuf[from..n], skip)
      ensures !ok ==> Reassembled(left, skip, chunk, events, [], skip + Parse(left + chunk).events)
      ensures ok <==> Parse(left + chunk).Parsed?
    {
      var total := readBuf[..n];
      var rest, err;
      events, rest, err := ParseEvents(total);
      if err.Some? {
        return [], n, false;
      }
      assert rest == readBuf[n - |rest|..n];
      return events, n - |rest|, true;
    }

    /** One turn of the loop after a successful read. */
    method Turn(chunk: seq<Byte>) returns (writeFailed: bool, ghost events: seq<Event>)
      requires Valid() && Accounted() && Written() && |chunk| <= READ_WINDOW
      modifies this, buf, store
      ensures Valid() && Accounted() && (store == old(store) || fresh(store))
      ensures Reassembled(old(Left()), old(skipped), chunk, events, Left(), skipped)
      ensures if writeFailed then CutShort() && handled <= old(handled) + events
              else Written() && handled == old(handled) + events
    {
      var batch, ok := Reassemble(chunk);
      ghost var left', skip' := Left(), skipped;
      writeFailed, events := false, batch;
      if ok {
        ok := HandleAll(batch);
        assert Left() == left' && skipped == skip';
        writeFailed := !ok;
      } else {
        assert handled + events == handled;
      }
    }

    /** One turn of the loop: an interrupted read changes nothing, a failed one changes nothing and ends it. */
    method Once(r: Read) returns (writeFailed: bool)
      requires Valid() && Accounted() && Written() && (r.Data? ==> |r.chunk| <= READ_WINDOW)
      modifies this, buf, store
      ensures Valid() && Accounted() && (store == old(store) || fresh(store))
      ensures if writeFailed then CutShort() && handled <= After(old(Delivery(handled, Left(), skipped)), r).events
              else Written() && Delivery(handled, Left(), skipped) == After(old(Delivery(handled, Left(), skipped)), r)
    {
      if !r.Data? {
        return false;
      }
      ghost var events;
      writeFailed, events := Turn(r.chunk);
      Deliver1Reassembled(old(handled), old(Left()), old(skipped), r.chunk, events, Left(), skipped);
    }

    /** The endless loop over a finite run of read outcomes; a decode error is skipped, a failed read or write ends it. */
    method Run(outcomes: seq<Read>) returns (writeFailed: bool)
      requires Valid() && Accounted() && Written() && ReadsFit(outcomes)
      modifies this, buf, store
      ensures Valid() && Accounted()
      ensures if writeFailed then CutShort() else Written()
      ensures writeFailed ==> handled <= Deliver(old(Delivery(handled, Left(), skipped)), Chunks(outcomes)).events
      ensures !writeFailed ==> Deliver(old(Delivery(handled, Left(), skipped)), Chunks(outcomes))
                               == Delivery(handled, Left(), skipped)
    {
      ghost var start := Delivery(handled, Left(), skipped);
      writeFailed := false;
      for i := 0 to |outcomes|
        invariant Valid() && (store == old(store) || fresh(store))
        invariant Accounted() && Written() && !writeFailed
        invariant Deliver(start, Chunks(outcomes)) == Deliver(Delivery(handled, Left(), skipped), Chunks(outcomes[i..]))
      {
        DeliverFromRead(Delivery(handled, Left(), skipped), outcomes, i);
        writeFailed := Once(outcomes[i]);
        if writeFailed || outcomes[i].Failed? {
          return;
        }
      }
    }
  }

  /** What a read outcome does to what has been delivered. */
  function After(d: Delivery, r: Read): Delivery {
    if r.Data? then Deliver1(d, r.chunk) else d
  }

  lemma DeliverFromRead(d: Delivery, outcomes: seq<Read>, i: nat)
    requires i < |outcomes|
    ensures Deliver(d, Chunks(outcomes[i..]))
         == if outcomes[i].Failed? then d else Deliver(After(d, outcomes[i]), Chunks(outcomes[i + 1..]))
    ensures After(d, outcomes[i]).events <= Deliver(d, Chunks(outcomes[i..])).events
  {
    DeliverGrows(After(d, outcomes[i]), Chunks(outcomes[i + 1..]));
    var rest := outcomes[i + 1..];
    assert outcomes[i..][1..] == rest;
    match outcomes[i]
    case Data(chunk) => assert ([chunk] + Chunks(rest))[1..] == Chunks(rest);
    case Interrupted => assert [] + Chunks(rest) == Chunks(rest);
    case Failed =>
  }

  predicate ReadsFit(outcomes: seq<Read>) {
    forall i :: 0 <= i < |outcomes| && outcomes[i].Data? ==> |outcomes[i].chunk| <= READ_WINDOW
  }

  /** The bytes of a run of reads: those before the first failed one. */
  function Chunks(outcomes: seq<Read>): seq<seq<Byte>> {
    if outcomes == [] || outcomes[0].Failed? then []
    else (if outcomes[0].Data? then [outcomes[0].chunk] else []) + Chunks(outcomes[1..])
  }

  /** Interrupted reads are nothing, a failed one is the end, and what is read before counts in order. */
  lemma {:induction false} ReadsThatCount(a: seq<Read>, r: Read, b: seq<Read>)
    requires Failed !in a
    ensures r == Interrupted ==> Chunks(a + [r] + b) == Chunks(a + b)
    ensures r == Failed ==> Chunks(a + [r] + b) == Chunks(a)
    ensures r.Data? ==> Chunks(a + [r] + b) == Chunks(a) + [r.chunk] + Chunks(b)
  {
    if a == [] {
      assert a + b == b && (a + [r] + b)[1..] == b;
    } else {
      assert (a + [r] + b)[1..] == a[1..] + [r] + b && (a + b)[1..] == a[1..] + b;
      ReadsThatCount(a[1..], r, b);
    }
  }

  /** What a run that handled `events` leaves behind; after a failed write the last forwarded one is missing. */
  ghost predicate Filtered(cfg: Config, w: World, events: seq<Event>, output: seq<Wire.Event>, closed: seq<int>,
                           stats: Tally, writeFailed: bool) {
    var vs := Verdicts(cfg, w, events);
    && closed == Descriptors(events)
    && stats.lines == |events|
    && stats.parsed == stats.kept + stats.dropped + stats.excluded
    && stats.kept == |Forwarded(vs)| && stats.dropped == Count(vs, Outside) && stats.excluded == Count(vs, Excluded)
    && AllWrites(w, |output|)
    && if writeFailed
       then vs != [] && vs[|vs| - 1].Kept? && output == Forwarded(vs)[..stats.kept - 1] && w.writeFails(stats.kept - 1)
       else output == Forwarded(vs)
  }

  /** The tap's books, when it handled a prefix of `all`. */
  lemma BooksFiltered(cfg: Config, w: World, l: Ledger, output: seq<Wire.Event>, writeFailed: bool, all: seq<Event>)
    requires Correct(cfg, w, l) && l.handled <= all
    requires if writeFailed then LastMissing(w, l.verdicts, output, l.tally.kept)
             else Complete(w, l.verdicts, output, l.tally.kept)
    ensures l.tally.lines == |l.handled|
    ensures Filtered(cfg, w, all[..l.tally.lines], output, l.closed, l.tally, writeFailed)
  {
    assert all[..|l.handled|] == l.handled;
    assert l.verdicts == Verdicts(cfg, w, l.handled);
    assert l.closed == Descriptors(l.handled);
    TallyCounts(l.verdicts);
    if writeFailed {
      var init, v := l.verdicts[..|l.verdicts| - 1], l.verdicts[|l.verdicts| - 1];
      assert l.verdicts == init + [v];
      TallySnoc(init, v);
    }
  }

  /**
   The tap as a filter. Its output is the in-order selection of the events it handled, their descriptors are closed
   once in order, and the counters add up; descriptors of events decoded in a call that returned an error stay open.
   It handles all delivered events, or those up to a failed write, and then the event of that write is all that is
   missing. Without malformed records the delivered events are those of the stream, wherever the reads cut it.
   */
  method RunTap(cfg: Config, world: World, outcomes: seq<Read>)
    returns (output: seq<Wire.Event>, closed: seq<int>, stats: Tally, writeFailed: bool)
    requires ReadsFit(outcomes)
    ensures var all := Deliver(START, Chunks(outcomes)).events;
            && stats.lines <= |all| && (!writeFailed ==> stats.lines == |all|)
            && Filtered(cfg, world, all[..stats.lines], output, closed, stats, writeFailed)
            && |closed| == stats.lines && forall k :: 0 <= k < stats.lines ==> closed[k] == all[k].fd
    ensures var stream := Parse(Flatten(Chunks(outcomes)));
            stream.Parsed? ==> Deliver(START, Chunks(outcomes)).events == stream.events
  {
    var tap := new Tap(cfg, world);
    writeFailed := tap.Run(outcomes);
    if Parse(Flatten(Chunks(outcomes))).Parsed? {
      ChunkIndependence(Chunks(outcomes));
    }
    BooksFiltered(cfg, world, tap.Books(), tap.output, writeFailed, Deliver(START, Chunks(outcomes)).events);
    output, closed, stats := tap.output, tap.closed, tap.stats;
  }

  /** An event is a write exactly when FAN_MODIFY or FAN_CLOSE_WRITE is among its bits. */
  lemma OpOfMask(mask: nat)
    ensures OpFromMask(mask) == if mask % 4 >= 2 || mask % 16 >= 8 then "write" else "read"
  {
    assert mask % 4 == mask - 4 * (mask / 4) && mask / 2 % 2 == mask / 2 - 2 * (mask / 4);
    assert mask % 16 == mask - 16 * (mask / 16) && mask / 8 % 2 == mask / 8 - 2 * (mask / 16);
  }

  /**
   With the real path functions, an event is forwarded exactly when what its descriptor resolves to is an absolute
   path in the watch directory and nothing excludes it; the record that is forwarded, and what the others count as.
   */
  lemma ForwardedExactly(d: seq<string>, pids: set<int>, names: set<string>, w: World, k: nat, ev: Event)
    requires Paths.ValidNames(d)
    ensures var v := Judge(Settings(Paths.Render(d), pids, names), w, k, ev);
            var cs := Paths.Resolve([], Paths.Split(w.pathOf(k)), true);
            var inside := Paths.HasPrefix(w.pathOf(k), "/") && d <= cs;
            && (v.Unresolved? <==> w.pathOf(k) == "")
            && (v.Outside? <==> w.pathOf(k) != "" && !inside)
            && (v.Excluded? <==> inside && (ev.pid in pids || w.commOf(k) in names))
            && (v.Kept? <==> inside && ev.pid !in pids && w.commOf(k) !in names)
            && (v.Kept? ==> v.out == Wire.Event(w.clock(k),
                                                if ev.mask % 4 >= 2 || ev.mask % 16 >= 8 then "write" else "read",
                                                Paths.Render(cs), w.commOf(k), ev.pid, Wire.NoClaude))
  {
    if Paths.HasPrefix(w.pathOf(k), "/") {
      Paths.CleanAbsolute(w.pathOf(k));
      Paths.PathInIsComponents(d, Paths.Resolve([], Paths.Split(w.pathOf(k)), true));
    } else {
      Paths.RelativeIsOutside(w.pathOf(k), Paths.Render(d));
    }
    OpOfMask(ev.mask);
  }
}
