/**
 The coalescing of file-system notifications in runFSEventsWatcher (internal/ui/server.go).
 Times are nanoseconds of a clock that does not run backwards.
 */
module Dedupe {
  import opened Wire
  import Paths

  const DEDUPE_WINDOW := 200_000_000
  const SWEEP_AGE := 5_000_000_000
  const SWEEP_SIZE := 1024

  datatype Kind = Create | Write | Remove | Rename
  datatype Key = Key(path: string, kind: Kind)
  datatype Notice = Notice(key: Key, now: int)

  /** A call on the hub: a transient control message or an event kept for replay. */
  datatype Call = Transient(ev: Event) | Stored(ev: Event)

  // ---------- The cache on values ----------

  predicate Suppressed(recent: map<Key, int>, n: Notice) {
    n.key in recent && n.now - recent[n.key] < DEDUPE_WINDOW
  }

  function Sweep(recent: map<Key, int>, now: int): map<Key, int> {
    map k | k in recent && now - recent[k] <= SWEEP_AGE :: recent[k]
  }

  /** The cache as it is, swept when it is large. */
  function SweptStep(recent: map<Key, int>, n: Notice): map<Key, int> {
    if Suppressed(recent, n) then recent
    else
      var grown := recent[n.key := n.now];
      if |grown| > SWEEP_SIZE then Sweep(grown, n.now) else grown
  }

  /** A cache that never forgets. */
  function FullStep(full: map<Key, int>, n: Notice): map<Key, int> {
    if Suppressed(full, n) then full else full[n.key := n.now]
  }

  function Swept(h: seq<Notice>): map<Key, int> {
    if h == [] then map[] else SweptStep(Swept(h[..|h| - 1]), h[|h| - 1])
  }

  function Full(h: seq<Notice>): map<Key, int> {
    if h == [] then map[] else FullStep(Full(h[..|h| - 1]), h[|h| - 1])
  }

  /** Whether the last notice of a history is passed on, by the cache that never forgets. */
  predicate Emitted(h: seq<Notice>)
    requires h != []
  {
    !Suppressed(Full(h[..|h| - 1]), h[|h| - 1])
  }

  ghost predicate Monotone(h: seq<Notice>) {
    forall i, j :: 0 <= i < j < |h| ==> h[i].now <= h[j].now
  }

  // ---------- Eviction is invisible ----------

  /** The swept cache holds what the full one holds, except entries older than the sweep age. */
  ghost predicate Abbreviates(swept: map<Key, int>, full: map<Key, int>, now: int) {
    && (forall k :: k in swept ==> k in full && full[k] == swept[k])
    && (forall k :: k in full && k !in swept ==> now - full[k] > SWEEP_AGE)
  }

  lemma {:induction false} SweptAbbreviates(h: seq<Notice>)
    requires Monotone(h)
    ensures h != [] ==> Abbreviates(Swept(h), Full(h), h[|h| - 1].now)
  {
    if h != [] {
      var init, n := h[..|h| - 1], h[|h| - 1];
      SweptAbbreviates(init);
      if init != [] {
        assert init[|init| - 1].now <= n.now;
        StepAbbreviates(Swept(init), Full(init), n);
      }
    }
  }

  lemma StepAbbreviates(swept: map<Key, int>, full: map<Key, int>, n: Notice)
    requires Abbreviates(swept, full, n.now)
    ensures Suppressed(swept, n) <==> Suppressed(full, n)
    ensures Abbreviates(SweptStep(swept, n), FullStep(full, n), n.now)
  {
  }

  /** The swept cache passes on exactly what a cache that never forgets would. */
  lemma EvictionIsInvisible(h: seq<Notice>)
    requires Monotone(h) && h != []
    ensures Suppressed(Swept(h[..|h| - 1]), h[|h| - 1]) <==> !Emitted(h)
  {
    var init, n := h[..|h| - 1], h[|h| - 1];
    SweptAbbreviates(init);
    if init != [] {
      assert init[|init| - 1].now <= n.now;
      StepAbbreviates(Swept(init), Full(init), n);
    }
  }

  // ---------- What is passed on ----------

  /** Notice `i` of a history is passed on. */
  ghost predicate EmittedAt(h: seq<Notice>, i: nat, key: Key) {
    i < |h| && h[i].key == key && Emitted(h[..i + 1])
  }

  lemma EmittedAtInit(h: seq<Notice>, i: nat, key: Key)
    requires i + 1 < |h|
    ensures EmittedAt(h, i, key) <==> EmittedAt(h[..|h| - 1], i, key)
  {
    assert h[..|h| - 1][..i + 1] == h[..i + 1];
  }

  /** The entry of a key is no older than any emission of it. */
  lemma {:induction false} EmissionIsRecorded(h: seq<Notice>, i: nat, key: Key)
    requires Monotone(h) && EmittedAt(h, i, key)
    ensures key in Full(h) && h[i].now <= Full(h)[key]
  {
    if i + 1 == |h| {
      assert h[..i + 1] == h;
    } else {
      EmittedAtInit(h, i, key);
      EmissionIsRecorded(h[..|h| - 1], i, key);
    }
  }

  /** The entry of a key is the time of one of its emissions. */
  lemma {:induction false} RecordIsEmission(h: seq<Notice>, key: Key) returns (i: nat)
    requires key in Full(h)
    ensures EmittedAt(h, i, key) && h[i].now == Full(h)[key]
  {
    if h[|h| - 1].key == key && Emitted(h) {
      i := |h| - 1;
      assert h[..i + 1] == h;
    } else {
      i := RecordIsEmission(h[..|h| - 1], key);
      EmittedAtInit(h, i, key);
    }
  }

  /** Emissions of one key are at least a window apart. */
  lemma EmissionsAreSpaced(h: seq<Notice>, i: nat, j: nat, key: Key)
    requires Monotone(h) && i < j && EmittedAt(h, i, key) && EmittedAt(h, j, key)
    ensures h[j].now - h[i].now >= 200_000_000
  {
    var before := h[..j];
    assert before[..i + 1] == h[..i + 1] && h[..j + 1][..j] == before;
    EmissionIsRecorded(before, i, key);
  }

  /** A notice is held back only when its key was passed on less than a window ago. */
  lemma SuppressedHasRecentEmission(h: seq<Notice>, j: nat) returns (i: nat)
    requires Monotone(h) && j < |h| && !Emitted(h[..j + 1])
    ensures i < j && EmittedAt(h, i, h[j].key) && h[j].now - h[i].now < 200_000_000
  {
    var before := h[..j];
    assert h[..j + 1][..j] == before;
    i := RecordIsEmission(before, h[j].key);
    assert before[..i + 1] == h[..i + 1];
  }

  /** The emissions of `key` in a closed time interval. */
  function EmissionsIn(h: seq<Notice>, key: Key, from: int, to: int): nat {
    if h == [] then 0
    else
      var n := h[|h| - 1];
      EmissionsIn(h[..|h| - 1], key, from, to) + if n.key == key && Emitted(h) && from <= n.now <= to then 1 else 0
  }

  lemma {:induction false} LastEmissionBound(h: seq<Notice>, key: Key, from: int, to: int)
    requires Monotone(h) && from <= to
    ensures var c := EmissionsIn(h, key, from, to);
            c > 0 ==> key in Full(h) && Full(h)[key] >= from
                      && (c - 1) * DEDUPE_WINDOW <= (if Full(h)[key] <= to then Full(h)[key] else to) - from
  {
    if h != [] {
      var init := h[..|h| - 1];
      LastEmissionBound(init, key, from, to);
      if key in Full(init) {
        var i := RecordIsEmission(init, key);
        assert h[i].now <= h[|h| - 1].now;
      }
    }
  }

  /** At most one emission per window fits into any interval, plus one. */
  lemma RateBound(h: seq<Notice>, key: Key, from: int, to: int)
    requires Monotone(h) && from <= to
    ensures EmissionsIn(h, key, from, to) <= (to - from) / 200_000_000 + 1
  {
    LastEmissionBound(h, key, from, to);
  }

  // ---------- The size of the cache ----------

  /** The time of the last emission, when the cache was last a candidate for a sweep. */
  function LastSwept(h: seq<Notice>): (t: int)
    requires h != []
  {
    if |h| == 1 || Emitted(h) then h[|h| - 1].now else LastSwept(h[..|h| - 1])
  }

  /**
   After every step the cache has at most 1024 entries or none of them was older than five seconds when the last
   notice was passed on; at the present time they are less than 5.2 seconds old.
   */
  lemma {:induction false} CacheIsBounded(h: seq<Notice>)
    requires Monotone(h) && h != []
    ensures var now := h[|h| - 1].now;
            && LastSwept(h) <= now < LastSwept(h) + 200_000_000
            && (|Swept(h)| <= 1024 || forall k :: k in Swept(h) ==> LastSwept(h) - Swept(h)[k] <= 5_000_000_000)
            && (forall k :: k in Swept(h) ==> Swept(h)[k] <= LastSwept(h))
  {
    var init, n := h[..|h| - 1], h[|h| - 1];
    EvictionIsInvisible(h);
    if init != [] {
      assert init[|init| - 1].now <= n.now;
      CacheIsBounded(init);
    }
  }

  /** At most 1024 entries, or none older than five seconds at time `now`. */
  predicate Bounded(recent: map<Key, int>, now: int) {
    |recent| <= 1024 || forall k :: k in recent ==> now - recent[k] <= 5_000_000_000
  }

  /**
   At the time of a step the bound holds exactly when the step passes its notice on or the cache it found was within
   the bound at that time already.
   */
  lemma BoundedExactly(h: seq<Notice>)
    requires Monotone(h) && h != []
    ensures var init, now := h[..|h| - 1], h[|h| - 1].now;
            Bounded(Swept(h), now) <==> Emitted(h) || Bounded(Swept(init), now)
  {
    EvictionIsInvisible(h);
    CacheIsBounded(h);
  }

  /** `count` different keys at time zero. */
  function Burst(count: nat): seq<Notice> {
    seq(count, i requires 0 <= i < count => Notice(KeyOf(i), 0))
  }

  function KeyOf(i: nat): Key {
    Key(seq(i, _ => 'a'), Create)
  }

  lemma KeysDiffer(i: nat, j: nat)
    requires KeyOf(i) == KeyOf(j)
    ensures i == j
  {
    assert |KeyOf(i).path| == i && |KeyOf(j).path| == j;
  }

  lemma {:induction false} BurstIsKept(count: nat)
    ensures |Swept(Burst(count))| == count
    ensures forall k :: k in Swept(Burst(count)) ==> Swept(Burst(count))[k] == 0
    ensures forall i: nat :: KeyOf(i) in Swept(Burst(count)) <==> i < count
  {
    if count > 0 {
      BurstIsKept(count - 1);
      var before := Swept(Burst(count - 1));
      assert Burst(count)[..count - 1] == Burst(count - 1);
      var grown := before[KeyOf(count - 1) := 0];
      assert Sweep(grown, 0) == grown;
      assert Swept(Burst(count)) == grown;
      forall i: nat ensures KeyOf(i) in grown <==> i < count {
        if KeyOf(i) == KeyOf(count - 1) { KeysDiffer(i, count - 1); }
      }
    }
  }

  /**
   The five-second bound does not hold at the time of a step that is held back, because such a step does not
   sweep: here the cache is large and holds an entry 5.1 seconds old.
   */
  lemma HeldBackStepDoesNotSweep() returns (h: seq<Notice>)
    ensures Monotone(h) && h != [] && |Swept(h)| > 1024
    ensures exists k :: k in Swept(h) && h[|h| - 1].now - Swept(h)[k] > 5_000_000_000
  {
    var burst := Burst(1025);
    var a, b := Notice(KeyOf(0), 5_000_000_000), Notice(KeyOf(0), 5_100_000_000);
    BurstIsKept(1025);
    var h1 := burst + [a];
    h := h1 + [b];
    assert h1[..|h1| - 1] == burst && h[..|h| - 1] == h1;
    var m := Swept(burst);
    assert KeyOf(0) in m && KeyOf(1) in m;
    var grown := m[KeyOf(0) := a.now];
    assert |grown| == |m| by { assert grown.Keys == m.Keys; }
    assert Sweep(grown, a.now) == grown;
    assert Swept(h1) == grown && Swept(h) == grown;
    assert KeyOf(1) != KeyOf(0) by { if KeyOf(1) == KeyOf(0) { KeysDiffer(1, 0); } }
    assert grown[KeyOf(1)] == 0;
  }

  // ---------- The watcher loop ----------

  function TimelineOp(k: Kind): string {
    if k == Remove then "" else "write"
  }

  /** What the hub is told about a notice that is passed on. */
  function CallsFor(n: Notice): seq<Call> {
    [Transient(Event(n.now, "dirchange", Paths.ParentDirOf(n.key.path), "fsevents", 0, NoClaude))]
    + if TimelineOp(n.key.kind) == "" then []
      else [Stored(Event(n.now, TimelineOp(n.key.kind), n.key.path, "fsevents", 0, NoClaude))]
  }

  /** All calls of a history, by the cache that never forgets. */
  function AllCalls(h: seq<Notice>): seq<Call> {
    if h == [] then [] else AllCalls(h[..|h| - 1]) + if Emitted(h) then CallsFor(h[|h| - 1]) else []
  }

  /** `path` is the absolute path of `c` in the directory with components `cs`. */
  ghost predicate ChildOf(path: string, cs: seq<string>, c: string) {
    Paths.ValidNames(cs) && Paths.ValidName(c) && path == Paths.Render(cs + [c])
  }

  /** The calls for a notice: its directory is refreshed, and a file that was not removed goes on the timeline. */
  ghost predicate Announced(calls: seq<Call>, dir: string, path: string, kind: Kind, now: int) {
    var refresh := Transient(Event(now, "dirchange", dir, "fsevents", 0, NoClaude));
    match kind
    case Remove => calls == [refresh]
    case _ => calls == [refresh, Stored(Event(now, "write", path, "fsevents", 0, NoClaude))]
  }

  /** The directory of a file is the directory that holds it; directly below "/" the file's own path stands for it. */
  lemma CallsExactly(path: string, kind: Kind, now: int, cs: seq<string>, c: string)
    requires ChildOf(path, cs, c)
    ensures Announced(CallsFor(Notice(Key(path, kind), now)), if cs == [] then path else Paths.Render(cs), path, kind, now)
  {
    if cs == [] {
      Paths.NoSlash(c);
      Paths.LastSlashAt("", c);
      assert path == "" + "/" + c;
    } else {
      assert (cs + [c])[..|cs + [c]| - 1] == cs;
      Paths.ParentDirOfRender(cs + [c]);
    }
  }

  lemma MonotoneGrows(h: seq<Notice>, n: Notice)
    requires Monotone(h) && (h == [] || h[|h| - 1].now <= n.now)
    ensures Monotone(h + [n])
  {
  }

  lemma HistoryGrows(h: seq<Notice>, n: Notice)
    requires Monotone(h + [n])
    ensures Monotone(h)
    ensures Swept(h + [n]) == SweptStep(Swept(h), n)
    ensures Suppressed(Swept(h), n) ==> AllCalls(h + [n]) == AllCalls(h)
    ensures !Suppressed(Swept(h), n) ==> AllCalls(h + [n]) == AllCalls(h) + CallsFor(n)
  {
    var g := h + [n];
    assert g[..|g| - 1] == h;
    assert forall i :: 0 <= i < |h| ==> g[i] == h[i];
    EvictionIsInvisible(g);
  }

  class Watcher {
    var recent: map<Key, int>
    var calls: seq<Call>
    ghost var history: seq<Notice>

    ghost predicate Valid()
      reads this
    {
      Monotone(history) && recent == Swept(history) && calls == AllCalls(history)
    }

    constructor ()
      ensures Valid() && history == [] && recent == map[] && calls == []
    {
      recent, calls, history := map[], [], [];
    }

    /** One turn of the loop; the calls made are those a cache that never forgets would make. */
    method Observe(path: string, kind: Kind, now: int)
      requires Valid() && (history == [] || history[|history| - 1].now <= now)
      modifies this
      ensures Valid() && history == old(history) + [Notice(Key(path, kind), now)]
      ensures var key, was := Key(path, kind), old(recent);
              if key in was && now - was[key] < 200_000_000 then recent == was && calls == old(calls)
              else var grown := was[key := now];
                   && recent == (if |grown| > 1024 then map k | k in grown && now - grown[k] <= 5_000_000_000 :: grown[k]
                                 else grown)
                   && old(calls) <= calls
                   && forall cs, c :: ChildOf(path, cs, c) ==>
                        Announced(calls[|old(calls)|..], if cs == [] then path else Paths.Render(cs), path, kind, now)
    {
      var key := Key(path, kind);
      ghost var n := Notice(key, now);
      MonotoneGrows(history, n);
      HistoryGrows(history, n);
      history := history + [n];
      if key in recent && now - recent[key] < DEDUPE_WINDOW {
        return;
      }
      recent := recent[key := now];
      if |recent| > SWEEP_SIZE {
        SweepInPlace(now);
      }
      Publish(path, kind, now);
    }

    /** The calls on the hub for a notice that is passed on. */
    method Publish(path: string, kind: Kind, now: int)
      modifies this`calls
      ensures calls == old(calls) + CallsFor(Notice(Key(path, kind), now))
      ensures forall cs, c :: ChildOf(path, cs, c) ==>
                Announced(calls[|old(calls)|..], if cs == [] then path else Paths.Render(cs), path, kind, now)
    {
      var dir := Paths.ParentDir(path);
      calls := calls + [Transient(Event(now, "dirchange", dir, "fsevents", 0, NoClaude))];
      var op := TimelineOp(kind);
      if op != "" {
        calls := calls + [Stored(Event(now, op, path, "fsevents", 0, NoClaude))];
      }
      assert calls[|old(calls)|..] == CallsFor(Notice(Key(path, kind), now));
      forall cs, c | ChildOf(path, cs, c)
        ensures Announced(calls[|old(calls)|..], if cs == [] then path else Paths.Render(cs), path, kind, now)
      {
        CallsExactly(path, kind, now, cs, c);
      }
    }

    /** The deletion of old entries while ranging over the map, in any order. */
    method SweepInPlace(now: int)
      modifies this`recent
      ensures recent == Sweep(old(recent), now)
      ensures recent == map k | k in old(recent) && now - old(recent)[k] <= 5_000_000_000 :: old(recent)[k]
    {
      var todo := recent.Keys;
      while todo != {}
        invariant todo <= recent.Keys <= old(recent).Keys
        invariant forall k :: k in recent ==> recent[k] == old(recent)[k]
        invariant forall k :: k in old(recent) && k !in todo ==> (k in recent <==> now - old(recent)[k] <= SWEEP_AGE)
      {
        var k :| k in todo;
        if now - recent[k] > SWEEP_AGE {
          recent := recent - {k};
        }
        todo := todo - {k};
      }
    }
  }
}
