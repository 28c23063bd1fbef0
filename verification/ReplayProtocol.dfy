/**
 The concurrent protocol between the hub's producers, its WebSocket connections and their
 replay goroutines, as an interleaved transition system.

 A producer takes the hub's lock once per event: it stores the event in the ring and copies
 the set of registered clients (`Begin`). It then makes one non-blocking offer per captured
 client without the lock (`Offer`). A connection registers, snapshots the ring from a second
 goroutine, pushes the snapshot into its own queue, and drains that one queue.

 `log` is history: the broadcasts in the order in which they took the lock. Frames name
 the log entry or the snapshot position they carry.
 */
module ReplayProtocol {
  import opened Sequences
  import opened Wire

  type ClientId = nat
  type ProducerId = nat

  const QUEUE_CAPACITY := 1024

  datatype Frame = Live(idx: nat) | Replayed(pos: nat)

  datatype Broadcast = Broadcast(producer: ProducerId, event: Event, stored: bool, targets: set<ClientId>)

  /** A send that has released the lock and still has offers to make. */
  datatype InFlight = InFlight(idx: nat, todo: set<ClientId>)

  /** What a snapshot returned: the length of the log then, and the log entries the ring held. */
  datatype Snap = Snap(at: nat, picks: seq<nat>)

  datatype Client = Client(
    joined: nat,           // length of the log at registration
    left: Option<nat>,     // length of the log at unregistration
    snap: Option<Snap>,
    pushed: nat,           // snapshot events pushed so far
    sent: seq<Frame>,      // every frame that entered the channel, oldest first
    taken: nat,            // how many of them the writer loop has received
    lost: set<nat>,        // log entries whose offer met a full queue
    done: bool,            // the reader goroutine has closed `done`
    aborted: bool)         // the replay goroutine returned because of `done`

  datatype State = State(
    log: seq<Broadcast>,
    ring: seq<nat>,
    inflight: map<ProducerId, InFlight>,
    clients: map<ClientId, Client>,
    delivered: nat,
    dropped: nat)

  datatype Action =
    | Begin(p: ProducerId, ev: Event, store: bool)
    | Offer(p: ProducerId, c: ClientId)
    | Finish(p: ProducerId)
    | Register(c: ClientId)
    | Snapshot(c: ClientId)
    | Push(c: ClientId)
    | Abort(c: ClientId)
    | Take(c: ClientId)
    | Done(c: ClientId)
    | Leave(c: ClientId)

  const INIT := State([], [], map[], map[], 0, 0)

  /** The frames buffered in the client's channel. */
  function Queue(c: Client): seq<Frame> {
    if c.taken <= |c.sent| then c.sent[c.taken..] else []
  }

  function Registered(s: State): set<ClientId> {
    set id | id in s.clients && s.clients[id].left.None?
  }

  predicate Enabled(s: State, a: Action) {
    match a
    case Begin(p, _, _) => p !in s.inflight
    case Offer(p, c) => p in s.inflight && c in s.inflight[p].todo && c in s.clients
    case Finish(p) => p in s.inflight && s.inflight[p].todo == {}
    case Register(c) => c !in s.clients
    case Snapshot(c) => c in s.clients && s.clients[c].snap.None?
    case Push(c) => c in s.clients && Replaying(s.clients[c]) && |Queue(s.clients[c])| < QUEUE_CAPACITY
    case Abort(c) => c in s.clients && Replaying(s.clients[c]) && s.clients[c].done
    case Take(c) => c in s.clients && s.clients[c].left.None? && Queue(s.clients[c]) != []
    case Done(c) => c in s.clients
    case Leave(c) => c in s.clients && s.clients[c].left.None?
  }

  predicate Replaying(c: Client) {
    c.snap.Some? && !c.aborted && c.pushed < |c.snap.value.picks|
  }

  /** The locked part of a send: store, and copy the set of registered clients. `n` is the ring size. */
  function LockedSend(n: nat, s: State, p: ProducerId, ev: Event, store: bool): State {
    State(s.log + [Broadcast(p, ev, store, Registered(s))],
          if store then LastN<nat>(s.ring + [|s.log|], n) else s.ring,
          s.inflight[p := InFlight(|s.log|, Registered(s))],
          s.clients, s.delivered, s.dropped)
  }

  /** The non-blocking offer of log entry `i`: the client afterwards. */
  function Offered(c: Client, i: nat): Client {
    if |Queue(c)| < QUEUE_CAPACITY then c.(sent := c.sent + [Live(i)]) else c.(lost := c.lost + {i})
  }

  /** One unlocked iteration of the fan-out loop. */
  function OfferOne(s: State, p: ProducerId, id: ClientId): State
    requires p in s.inflight && id in s.clients
  {
    var f := s.inflight[p];
    var room := |Queue(s.clients[id])| < QUEUE_CAPACITY;
    State(s.log, s.ring,
          s.inflight[p := InFlight(f.idx, f.todo - {id})],
          s.clients[id := Offered(s.clients[id], f.idx)],
          s.delivered + if room then 1 else 0,
          s.dropped + if room then 0 else 1)
  }

  /** A step of connection `a.c`: the client afterwards. */
  function Connection(s: State, a: Action): Client
    requires OfConnection(a) && Enabled(s, a)
  {
    match a
    case Register(_) => Client(|s.log|, None, None, 0, [], 0, {}, false, false)
    case Snapshot(c) => s.clients[c].(snap := Some(Snap(|s.log|, s.ring)))
    case Push(c) => Pushed(s.clients[c])
    case Abort(c) => s.clients[c].(aborted := true)
    case Take(c) => s.clients[c].(taken := s.clients[c].taken + 1)
    case Done(c) => s.clients[c].(done := true)
    case Leave(c) => s.clients[c].(left := Some(|s.log|))
  }

  function Pushed(c: Client): Client {
    c.(sent := c.sent + [Replayed(c.pushed)], pushed := c.pushed + 1)
  }

  predicate OfConnection(a: Action) {
    !a.Begin? && !a.Offer? && !a.Finish?
  }

  function Apply(n: nat, s: State, a: Action): State
    requires Enabled(s, a)
  {
    match a
    case Begin(p, ev, store) => LockedSend(n, s, p, ev, store)
    case Offer(p, c) => OfferOne(s, p, c)
    case Finish(p) => s.(inflight := s.inflight - {p})
    case _ => s.(clients := s.clients[a.c := Connection(s, a)])
  }

  /** The runs of the system: every action of `acts` is enabled when it is taken. */
  predicate Legal(n: nat, s: State, acts: seq<Action>)
    decreases |acts|
  {
    acts == [] || (Enabled(s, acts[0]) && Legal(n, Apply(n, s, acts[0]), acts[1..]))
  }

  function Exec(n: nat, s: State, acts: seq<Action>): State
    requires Legal(n, s, acts)
    decreases |acts|
  {
    if acts == [] then s else Exec(n, Apply(n, s, acts[0]), acts[1..])
  }

  // ---------- What the ring holds ----------

  /** The stored entries among the first `m` of the log. */
  function StoredIn(log: seq<Broadcast>, m: nat): (r: seq<nat>)
    requires m <= |log|
    ensures forall k :: 0 <= k < |r| ==> r[k] < m && log[r[k]].stored
  {
    if m == 0 then []
    else StoredIn(log, m - 1) + if log[m - 1].stored then [m - 1] else []
  }

  /** How many entries are stored in `log[lo..hi]`. */
  function StoredBetween(log: seq<Broadcast>, lo: nat, hi: nat): nat
    requires lo <= hi <= |log|
    decreases hi - lo
  {
    if lo == hi then 0
    else StoredBetween(log, lo, hi - 1) + if log[hi - 1].stored then 1 else 0
  }

  lemma {:induction false} StoredInGrow(log: seq<Broadcast>, b: Broadcast, m: nat)
    requires m <= |log|
    ensures StoredIn(log + [b], m) == StoredIn(log, m)
  {
    if m > 0 { StoredInGrow(log, b, m - 1); }
  }

  lemma StoredInSnoc(log: seq<Broadcast>, b: Broadcast)
    ensures StoredIn(log + [b], |log| + 1) == StoredIn(log, |log|) + if b.stored then [|log|] else []
  {
    StoredInGrow(log, b, |log|);
  }

  lemma {:induction false} StoredInPrefix(log: seq<Broadcast>, i: nat, m: nat)
    requires i <= m <= |log|
    ensures StoredIn(log, i) <= StoredIn(log, m)
    ensures |StoredIn(log, m)| == |StoredIn(log, i)| + StoredBetween(log, i, m)
    decreases m - i
  {
    if i < m { StoredInPrefix(log, i, m - 1); }
  }

  lemma {:induction false} StoredInIncreasing(log: seq<Broadcast>, m: nat)
    requires m <= |log|
    ensures Increasing(StoredIn(log, m))
  {
    if m > 0 { StoredInIncreasing(log, m - 1); }
  }

  /** An entry is among the last `n` stored ones exactly when it is stored and fewer than `n` were stored after it. */
  lemma RingMembership(log: seq<Broadcast>, i: nat, m: nat, n: nat)
    requires m <= |log|
    ensures i in LastN(StoredIn(log, m), n)
       <==> i < m && log[i].stored && StoredBetween(log, i + 1, m) < n
  {
    var all := StoredIn(log, m);
    StoredInIncreasing(log, m);
    if i < m && log[i].stored {
      StoredInPrefix(log, i, i + 1);
      StoredInPrefix(log, i + 1, m);
      var k := |StoredIn(log, i)|;
      assert all[k] == StoredIn(log, i + 1)[k] == i;
      assert forall j :: 0 <= j < |all| && all[j] == i ==> j == k;
      var last := LastN(all, n);
      if k >= |all| - |last| {
        assert last[k - (|all| - |last|)] == i;
      }
    }
  }
}
