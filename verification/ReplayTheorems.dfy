/** The guarantees of the replay protocol, for every interleaving of producers and connections. */
module ReplayTheorems {
  import opened Sequences
  import opened ReplayProtocol
  import opened ReplaySafety
  import opened Wire

  lemma ReachedInv(n: nat, acts: seq<Action>)
    requires Legal(n, INIT, acts)
    ensures Inv(n, Exec(n, INIT, acts))
  {
    EveryRunKeepsInv(n, INIT, acts);
  }

  // ---------- No gap ----------

  predicate InSnapshot(c: Client, i: nat) {
    c.snap.Some? && i in c.snap.value.picks
  }

  /**
   A stored event is in a client's snapshot exactly when it was stored before the snapshot and fewer
   than `n` events were stored in between; it is captured for a live offer exactly when it was
   broadcast while the client was registered. An event stored before the client left is therefore in
   the snapshot, captured, or evicted; and it is covered twice exactly when it was stored between
   registration and snapshot and not evicted.
   */
  lemma NoGap(n: nat, acts: seq<Action>, id: ClientId, i: nat)
    requires Legal(n, INIT, acts)
    requires var s := Exec(n, INIT, acts);
             id in s.clients && s.clients[id].snap.Some? && i < |s.log| && s.log[i].stored
    ensures var s := Exec(n, INIT, acts); var c := s.clients[id]; var at := c.snap.value.at;
            && at <= |s.log|
            && (InSnapshot(c, i) <==> i < at && StoredBetween(s.log, i + 1, at) < n)
            && (id in s.log[i].targets <==> c.joined <= i && (c.left.None? || i < c.left.value))
            && (c.left.None? || i < c.left.value ==>
                  InSnapshot(c, i) || id in s.log[i].targets || (i < at && StoredBetween(s.log, i + 1, at) >= n))
            && (InSnapshot(c, i) && id in s.log[i].targets <==>
                  && c.joined <= i < at && (c.left.None? || i < c.left.value)
                  && StoredBetween(s.log, i + 1, at) < n)
  {
    ReachedInv(n, acts);
    var s := Exec(n, INIT, acts);
    var c := s.clients[id];
    RingMembership(s.log, i, c.snap.value.at, n);
  }

  // ---------- What a snapshot contains ----------

  function StoredEvents(log: seq<Broadcast>): seq<Event> {
    if log == [] then []
    else StoredEvents(log[..|log| - 1]) + if log[|log| - 1].stored then [log[|log| - 1].event] else []
  }

  function EventsAt(log: seq<Broadcast>, ks: seq<nat>): seq<Event>
    requires forall j :: 0 <= j < |ks| ==> ks[j] < |log|
  {
    seq(|ks|, j requires 0 <= j < |ks| => log[ks[j]].event)
  }

  lemma {:induction false} StoredEventsAt(log: seq<Broadcast>, m: nat)
    requires m <= |log|
    ensures EventsAt(log, StoredIn(log, m)) == StoredEvents(log[..m])
  {
    if m > 0 {
      StoredEventsAt(log, m - 1);
      assert log[..m][..m - 1] == log[..m - 1];
      assert EventsAt(log, StoredIn(log, m))
          == EventsAt(log, StoredIn(log, m - 1)) + if log[m - 1].stored then [log[m - 1].event] else [];
    }
  }

  /** A snapshot is the last `n` events stored before it, in order: the view the hub's ring buffer gives. */
  lemma SnapshotIsRingView(n: nat, acts: seq<Action>, id: ClientId)
    requires Legal(n, INIT, acts)
    requires id in Exec(n, INIT, acts).clients && Exec(n, INIT, acts).clients[id].snap.Some?
    ensures var s := Exec(n, INIT, acts); var snap := s.clients[id].snap.value;
            && snap.at <= |s.log|
            && (forall k :: 0 <= k < |snap.picks| ==> snap.picks[k] < |s.log|)
            && EventsAt(s.log, snap.picks) == LastN(StoredEvents(s.log[..snap.at]), n)
  {
    ReachedInv(n, acts);
    var s := Exec(n, INIT, acts);
    RingView(n, s.log, s.clients[id].snap.value.at);
  }

  lemma RingView(n: nat, log: seq<Broadcast>, at: nat)
    requires at <= |log|
    ensures EventsAt(log, LastN<nat>(StoredIn(log, at), n)) == LastN(StoredEvents(log[..at]), n)
  {
    StoredEventsAt(log, at);
    EventsOfLast(log, StoredIn(log, at), n);
  }

  lemma EventsOfLast(log: seq<Broadcast>, ks: seq<nat>, n: nat)
    requires forall j :: 0 <= j < |ks| ==> ks[j] < |log|
    ensures forall j :: 0 <= j < |LastN<nat>(ks, n)| ==> LastN<nat>(ks, n)[j] < |log|
    ensures EventsAt(log, LastN<nat>(ks, n)) == LastN(EventsAt(log, ks), n)
  {
  }

  // ---------- How often an event reaches a client ----------

  predicate Carries(picks: seq<nat>, f: Frame, i: nat) {
    match f
    case Live(j) => j == i
    case Replayed(k) => k < |picks| && picks[k] == i
  }

  /** The number of frames of a history that carry log entry `i`. */
  function Copies(h: seq<Frame>, picks: seq<nat>, i: nat): nat {
    if h == [] then 0
    else Copies(h[..|h| - 1], picks, i) + if Carries(picks, h[|h| - 1], i) then 1 else 0
  }

  function Hits(ks: seq<nat>, picks: seq<nat>, i: nat): nat {
    if ks == [] then 0
    else Hits(ks[..|ks| - 1], picks, i) + if Carries(picks, Replayed(ks[|ks| - 1]), i) then 1 else 0
  }

  lemma OrderPrefix(log: seq<Broadcast>, rest: seq<Frame>, f: Frame)
    requires OrderInv(log, rest + [f])
    ensures OrderInv(log, rest)
    ensures f.Live? ==> f !in rest
  {
    var h := rest + [f];
    assert forall a :: 0 <= a < |rest| ==> h[a] == rest[a];
    assert h[|rest|] == f;
  }

  lemma {:induction false} CopiesSplit(log: seq<Broadcast>, h: seq<Frame>, picks: seq<nat>, i: nat)
    requires OrderInv(log, h)
    ensures Copies(h, picks, i) == (if Live(i) in h then 1 else 0) + Hits(Replays(h), picks, i)
  {
    if h != [] {
      var rest, f := h[..|h| - 1], h[|h| - 1];
      assert h == rest + [f];
      OrderPrefix(log, rest, f);
      CopiesSplit(log, rest, picks, i);
      AppendMember(rest, f, Live(i));
      ReplaysAppend(rest, f);
      HitsAppend(Replays(rest), if f.Replayed? then [f.pos] else [], picks, i);
    }
  }

  lemma HitsAppend(ks: seq<nat>, more: seq<nat>, picks: seq<nat>, i: nat)
    requires |more| <= 1
    ensures Hits(ks + more, picks, i)
         == Hits(ks, picks, i) + if more != [] && Carries(picks, Replayed(more[0]), i) then 1 else 0
  {
    if more == [] {
      assert ks + more == ks;
    } else {
      assert (ks + more)[..|ks|] == ks;
    }
  }

  lemma PrefixMember(picks: seq<nat>, m: nat, i: nat)
    requires Increasing(picks) && m < |picks|
    ensures i in picks[..m + 1] <==> i in picks[..m] || picks[m] == i
    ensures picks[m] !in picks[..m]
  {
  }

  lemma {:induction false} HitsUpto(picks: seq<nat>, m: nat, i: nat)
    requires Increasing(picks) && m <= |picks|
    ensures Hits(Upto(m), picks, i) == if i in picks[..m] then 1 else 0
  {
    if m > 0 {
      HitsUpto(picks, m - 1, i);
      UptoLength(m - 1);
      assert Upto(m)[..m - 1] == Upto(m - 1);
      PrefixMember(picks, m - 1, i);
    }
  }

  lemma {:induction false} UptoLength(m: nat)
    ensures |Upto(m)| == m
  {
    if m > 0 { UptoLength(m - 1); }
  }

  lemma SnapshotIncreasing(n: nat, log: seq<Broadcast>, c: Client)
    requires SnapInv(n, log, c) && c.snap.Some?
    ensures Increasing(c.snap.value.picks)
  {
    StoredInIncreasing(log, c.snap.value.at);
  }

  function Picks(c: Client): seq<nat> {
    if c.snap.Some? then c.snap.value.picks else []
  }

  /**
   In every reachable state log entry `i` has reached a client once for a live offer that found room and
   once for a replayed position, so never more than twice. Once the client has no offer pending and its
   replay is complete, the count is exact in terms of what the ring and the registration covered.
   */
  lemma DeliveryCount(n: nat, acts: seq<Action>, id: ClientId, i: nat)
    requires Legal(n, INIT, acts)
    requires id in Exec(n, INIT, acts).clients && i < |Exec(n, INIT, acts).log|
    ensures var s := Exec(n, INIT, acts); var c := s.clients[id]; var picks := Picks(c);
            && c.pushed <= |picks|
            && Copies(c.sent, picks, i)
               == (if Live(i) in c.sent then 1 else 0) + (if i in picks[..c.pushed] then 1 else 0)
            && Copies(c.sent, picks, i) <= 2
            && (PendingFor(s.inflight, id) == {} && c.pushed == |picks| ==>
                  Copies(c.sent, picks, i)
                  == (if id in s.log[i].targets && i !in c.lost then 1 else 0) + (if InSnapshot(c, i) then 1 else 0))
  {
    ReachedInv(n, acts);
    var s := Exec(n, INIT, acts);
    ClientDeliveryCount(n, s.log, PendingFor(s.inflight, id), id, s.clients[id], i);
  }

  lemma ClientDeliveryCount(n: nat, log: seq<Broadcast>, pending: set<nat>, id: ClientId, c: Client, i: nat)
    requires ClientInv(n, log, pending, id, c) && i < |log|
    ensures c.pushed <= |Picks(c)|
    ensures Copies(c.sent, Picks(c), i)
            == (if Live(i) in c.sent then 1 else 0) + (if i in Picks(c)[..c.pushed] then 1 else 0)
    ensures pending == {} ==> (Live(i) in c.sent <==> id in log[i].targets && i !in c.lost)
    ensures c.pushed == |Picks(c)| ==> (i in Picks(c)[..c.pushed] <==> InSnapshot(c, i))
  {
    CopiesSplit(log, c.sent, Picks(c), i);
    if c.snap.Some? { SnapshotIncreasing(n, log, c); }
    HitsUpto(Picks(c), c.pushed, i);
    if c.pushed == |Picks(c)| { assert Picks(c)[..c.pushed] == Picks(c); }
  }

  // ---------- Order ----------

  /** The live frames of a history that come from producer `p`, as log entries. */
  function LivesOf(log: seq<Broadcast>, h: seq<Frame>, p: ProducerId): (r: seq<nat>)
    requires forall a :: 0 <= a < |h| && h[a].Live? ==> h[a].idx < |log|
    ensures forall k :: 0 <= k < |r| ==> Live(r[k]) in h && log[r[k]].producer == p
  {
    if h == [] then []
    else
      var l := h[|h| - 1];
      LivesOf(log, h[..|h| - 1], p) + if l.Live? && log[l.idx].producer == p then [l.idx] else []
  }

  lemma {:induction false} LivesIncrease(log: seq<Broadcast>, h: seq<Frame>, p: ProducerId)
    requires OrderInv(log, h)
    ensures Increasing(LivesOf(log, h, p))
  {
    if h != [] {
      var rest := h[..|h| - 1];
      assert forall a :: 0 <= a < |rest| ==> rest[a] == h[a];
      LivesIncrease(log, rest, p);
      var lives := LivesOf(log, rest, p);
      forall k | 0 <= k < |lives| && h[|h| - 1].Live? && log[h[|h| - 1].idx].producer == p
        ensures lives[k] < h[|h| - 1].idx
      {
        assert Live(lives[k]) in rest;
        var a :| 0 <= a < |rest| && rest[a] == Live(lives[k]);
      }
    }
  }

  /**
   What entered a client's channel is an interleaving of, per producer, an in-order subsequence of the
   broadcasts that captured the client, and a prefix of the client's snapshot in ring order. Only stored
   events are replayed, and the channel never holds more than 1024 frames.
   */
  lemma PerClientOrder(n: nat, acts: seq<Action>, id: ClientId, p: ProducerId)
    requires Legal(n, INIT, acts) && id in Exec(n, INIT, acts).clients
    ensures var s := Exec(n, INIT, acts); var c := s.clients[id];
            && (forall a :: 0 <= a < |c.sent| && c.sent[a].Live? ==>
                  c.sent[a].idx < |s.log| && id in s.log[c.sent[a].idx].targets)
            && Increasing(LivesOf(s.log, c.sent, p))
            && Replays(c.sent) == Upto(c.pushed)
            && c.pushed <= |Picks(c)|
            && Increasing(Picks(c))
            && (forall k :: 0 <= k < |Picks(c)| ==> Picks(c)[k] < |s.log| && s.log[Picks(c)[k]].stored)
            && |Queue(c)| <= 1024
  {
    ReachedInv(n, acts);
    var s := Exec(n, INIT, acts);
    ClientLives(n, s.log, PendingFor(s.inflight, id), id, s.clients[id], p);
    ClientReplays(n, s.log, PendingFor(s.inflight, id), id, s.clients[id]);
  }

  lemma ClientLives(n: nat, log: seq<Broadcast>, pending: set<nat>, id: ClientId, c: Client, p: ProducerId)
    requires ClientInv(n, log, pending, id, c)
    ensures forall a :: 0 <= a < |c.sent| && c.sent[a].Live? ==>
              c.sent[a].idx < |log| && id in log[c.sent[a].idx].targets
    ensures Increasing(LivesOf(log, c.sent, p))
  {
    forall a | 0 <= a < |c.sent| && c.sent[a].Live?
      ensures c.sent[a].idx < |log| && id in log[c.sent[a].idx].targets
    {
      assert Live(c.sent[a].idx) in c.sent;
    }
    LivesIncrease(log, c.sent, p);
  }

  lemma SnapshotIsStored(n: nat, log: seq<Broadcast>, c: Client)
    requires SnapInv(n, log, c) && c.snap.Some?
    ensures var picks := c.snap.value.picks;
            forall k :: 0 <= k < |picks| ==> picks[k] < |log| && log[picks[k]].stored
  {
    var all, picks := StoredIn(log, c.snap.value.at), c.snap.value.picks;
    forall k | 0 <= k < |picks|
      ensures picks[k] < |log| && log[picks[k]].stored
    {
      LastNMembers<nat>(all, n, picks[k]);
      var j :| 0 <= j < |all| && all[j] == picks[k];
    }
  }

  lemma ClientReplays(n: nat, log: seq<Broadcast>, pending: set<nat>, id: ClientId, c: Client)
    requires ClientInv(n, log, pending, id, c)
    ensures Replays(c.sent) == Upto(c.pushed) && c.pushed <= |Picks(c)| && Increasing(Picks(c))
    ensures forall k :: 0 <= k < |Picks(c)| ==> Picks(c)[k] < |log| && log[Picks(c)[k]].stored
    ensures |Queue(c)| <= QUEUE_CAPACITY
  {
    if c.snap.Some? {
      SnapshotIncreasing(n, log, c);
      SnapshotIsStored(n, log, c);
    }
  }

  // ---------- Conservation ----------

  function TargetTotal(log: seq<Broadcast>): nat {
    if log == [] then 0 else TargetTotal(log[..|log| - 1]) + |log[|log| - 1].targets|
  }

  function TodoSizes(inflight: map<ProducerId, InFlight>): map<ProducerId, nat> {
    map p | p in inflight :: |inflight[p].todo|
  }

  function SentSizes(clients: map<ClientId, Client>): map<ClientId, nat> {
    map id | id in clients :: |clients[id].sent|
  }

  function PushCounts(clients: map<ClientId, Client>): map<ClientId, nat> {
    map id | id in clients :: clients[id].pushed
  }

  ghost function StillToOffer(s: State): nat { Sum(TodoSizes(s.inflight)) }
  ghost function FramesSent(s: State): nat { Sum(SentSizes(s.clients)) }
  ghost function ReplayPushes(s: State): nat { Sum(PushCounts(s.clients)) }

  ghost predicate Balanced(s: State) {
    && s.delivered + s.dropped + StillToOffer(s) == TargetTotal(s.log)
    && FramesSent(s) == s.delivered + ReplayPushes(s)
  }

  lemma InFlightUpdate(m: map<ProducerId, InFlight>, p: ProducerId, f: InFlight)
    ensures Sum(TodoSizes(m[p := f])) == Sum(TodoSizes(m)) - (if p in m then |m[p].todo| else 0) + |f.todo|
  {
    assert TodoSizes(m[p := f]) == TodoSizes(m)[p := |f.todo|];
    SumUpdate(TodoSizes(m), p, |f.todo|);
  }

  lemma ClientUpdate(m: map<ClientId, Client>, id: ClientId, c: Client)
    ensures Sum(SentSizes(m[id := c])) == Sum(SentSizes(m)) - (if id in m then |m[id].sent| else 0) + |c.sent|
    ensures Sum(PushCounts(m[id := c])) == Sum(PushCounts(m)) - (if id in m then m[id].pushed else 0) + c.pushed
  {
    assert SentSizes(m[id := c]) == SentSizes(m)[id := |c.sent|];
    SumUpdate(SentSizes(m), id, |c.sent|);
    assert PushCounts(m[id := c]) == PushCounts(m)[id := c.pushed];
    SumUpdate(PushCounts(m), id, c.pushed);
  }

  lemma SendBalances(n: nat, s: State, p: ProducerId, ev: Event, store: bool)
    requires Balanced(s) && p !in s.inflight
    ensures Balanced(LockedSend(n, s, p, ev, store))
  {
    var s' := LockedSend(n, s, p, ev, store);
    assert s'.log[..|s'.log| - 1] == s.log;
    InFlightUpdate(s.inflight, p, InFlight(|s.log|, Registered(s)));
  }

  lemma OfferBalances(s: State, p: ProducerId, id: ClientId)
    requires Balanced(s) && p in s.inflight && id in s.inflight[p].todo && id in s.clients
    ensures Balanced(OfferOne(s, p, id))
  {
    var f := s.inflight[p];
    InFlightUpdate(s.inflight, p, InFlight(f.idx, f.todo - {id}));
    ClientUpdate(s.clients, id, Offered(s.clients[id], f.idx));
  }

  lemma FinishBalances(s: State, p: ProducerId)
    requires Balanced(s) && p in s.inflight && s.inflight[p].todo == {}
    ensures Balanced(s.(inflight := s.inflight - {p}))
  {
    assert TodoSizes(s.inflight - {p}) == TodoSizes(s.inflight) - {p};
    SumRemove(TodoSizes(s.inflight), p);
  }

  lemma ConnectionBalances(s: State, a: Action)
    requires Balanced(s) && OfConnection(a) && Enabled(s, a)
    ensures Balanced(s.(clients := s.clients[a.c := Connection(s, a)]))
  {
    ClientUpdate(s.clients, a.c, Connection(s, a));
  }

  lemma {:induction false} RunBalances(n: nat, s: State, acts: seq<Action>)
    requires Balanced(s) && Legal(n, s, acts)
    ensures Balanced(Exec(n, s, acts))
    decreases |acts|
  {
    if acts != [] {
      match acts[0] {
        case Begin(p, ev, store) => SendBalances(n, s, p, ev, store);
        case Offer(p, c) => OfferBalances(s, p, c);
        case Finish(p) => FinishBalances(s, p);
        case _ => ConnectionBalances(s, acts[0]);
      }
      RunBalances(n, Apply(n, s, acts[0]), acts[1..]);
    }
  }

  /**
   Offers delivered, offers dropped and offers still to be made add up to the captured client sets, and the
   frames that entered the channels are the delivered offers and the replay pushes.
   */
  lemma Conservation(n: nat, acts: seq<Action>)
    requires Legal(n, INIT, acts)
    ensures Balanced(Exec(n, INIT, acts))
  {
    InitBalanced();
    RunBalances(n, INIT, acts);
  }

  lemma InitBalanced()
    ensures Balanced(INIT)
  {
  }

  // ---------- Offers never wait ----------

  /** The offers a send still has to make, one after the other, and its end. */
  lemma {:induction false} OffersComplete(n: nat, s: State, p: ProducerId) returns (acts: seq<Action>)
    requires p in s.inflight && s.inflight[p].todo <= s.clients.Keys
    ensures forall k :: 0 <= k < |acts| ==> (acts[k].Offer? || acts[k].Finish?) && acts[k].p == p
    ensures |acts| == |s.inflight[p].todo| + 1
    ensures Legal(n, s, acts) && p !in Exec(n, s, acts).inflight
    decreases |s.inflight[p].todo|
  {
    if s.inflight[p].todo == {} {
      acts := [Finish(p)];
      assert Apply(n, s, acts[0]).inflight == s.inflight - {p};
      assert acts[1..] == [];
    } else {
      var id :| id in s.inflight[p].todo;
      var a := Offer(p, id);
      assert Apply(n, s, a) == OfferOne(s, p, id);
      var rest := OffersComplete(n, Apply(n, s, a), p);
      acts := [a] + rest;
      assert acts[1..] == rest;
    }
  }

  /**
   In every reachable state a send that has released the lock can run to its end on its own steps, whatever the
   clients do: no queue has to drain, and clients that have left meanwhile still have their channel.
   */
  lemma SendCompletes(n: nat, acts: seq<Action>, p: ProducerId) returns (more: seq<Action>)
    requires Legal(n, INIT, acts) && p in Exec(n, INIT, acts).inflight
    ensures var s := Exec(n, INIT, acts);
            && (forall k :: 0 <= k < |more| ==> (more[k].Offer? || more[k].Finish?) && more[k].p == p)
            && |more| == |s.inflight[p].todo| + 1
            && Legal(n, s, more) && p !in Exec(n, s, more).inflight
  {
    ReachedInv(n, acts);
    more := OffersComplete(n, Exec(n, INIT, acts), p);
  }
}
