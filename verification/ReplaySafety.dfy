/** What every interleaving of the replay protocol keeps. */
module ReplaySafety {
  import opened Sequences
  import opened ReplayProtocol
  import opened Wire

  /** Entry `i` of the log was broadcast while `c` was registered. */
  predicate Attached(c: Client, i: nat) {
    c.joined <= i && (c.left.None? || i < c.left.value)
  }

  /** The log entries whose offer to client `id` has not been made yet. */
  function PendingFor(inflight: map<ProducerId, InFlight>, id: ClientId): set<nat> {
    set p | p in inflight && id in inflight[p].todo :: inflight[p].idx
  }

  ghost predicate InFlightInv(s: State) {
    && (forall p :: p in s.inflight ==>
          && s.inflight[p].idx < |s.log|
          && s.log[s.inflight[p].idx].producer == p
          && s.inflight[p].todo <= s.log[s.inflight[p].idx].targets
          && forall j :: s.inflight[p].idx < j < |s.log| ==> s.log[j].producer != p)
    && (forall i :: 0 <= i < |s.log| ==> s.log[i].targets <= s.clients.Keys)
  }

  ghost predicate SnapInv(n: nat, log: seq<Broadcast>, c: Client) {
    match c.snap
    case None => c.pushed == 0
    case Some(snap) =>
      && c.joined <= snap.at <= |log|
      && snap.picks == LastN(StoredIn(log, snap.at), n)
      && c.pushed <= |snap.picks|
  }

  ghost predicate WindowInv(log: seq<Broadcast>, id: ClientId, c: Client) {
    && c.joined <= |log|
    && (c.left.Some? ==> c.joined <= c.left.value <= |log|)
    && c.taken <= |c.sent| <= c.taken + QUEUE_CAPACITY
    && forall i :: 0 <= i < |log| ==> (id in log[i].targets <==> Attached(c, i))
  }

  /** Every live frame is an offer that was made, and every offer that was made is accounted for. */
  ghost predicate OfferInv(log: seq<Broadcast>, pending: set<nat>, c: Client) {
    && (forall i: nat :: Live(i) in c.sent ==> i < |log| && Attached(c, i) && i !in pending && i !in c.lost)
    && (forall i :: i in c.lost ==> i < |log| && Attached(c, i) && i !in pending)
    && (forall i :: 0 <= i < |log| && Attached(c, i) ==> Live(i) in c.sent || i in c.lost || i in pending)
  }

  /** Live frames of one producer are in the order of its broadcasts. */
  ghost predicate OrderInv(log: seq<Broadcast>, sent: seq<Frame>) {
    && (forall a :: 0 <= a < |sent| && sent[a].Live? ==> sent[a].idx < |log|)
    && forall a, b :: 0 <= a < b < |sent| && sent[a].Live? && sent[b].Live?
         && log[sent[a].idx].producer == log[sent[b].idx].producer
         ==> sent[a].idx < sent[b].idx
  }

  ghost predicate ClientInv(n: nat, log: seq<Broadcast>, pending: set<nat>, id: ClientId, c: Client) {
    && WindowInv(log, id, c)
    && SnapInv(n, log, c)
    && OfferInv(log, pending, c)
    && OrderInv(log, c.sent)
    && Replays(c.sent) == Upto(c.pushed)
  }

  ghost predicate Inv(n: nat, s: State) {
    && InFlightInv(s)
    && s.ring == LastN(StoredIn(s.log, |s.log|), n)
    && forall id :: id in s.clients ==> ClientInv(n, s.log, PendingFor(s.inflight, id), id, s.clients[id])
  }

  function Upto(n: nat): seq<nat> {
    if n == 0 then [] else Upto(n - 1) + [n - 1]
  }

  /** The replayed frames of a history, as snapshot positions. */
  function Replays(h: seq<Frame>): seq<nat> {
    if h == [] then []
    else Replays(h[..|h| - 1]) + match h[|h| - 1] { case Replayed(k) => [k] case Live(_) => [] }
  }

  lemma ReplaysAppend(h: seq<Frame>, f: Frame)
    ensures Replays(h + [f]) == Replays(h) + if f.Replayed? then [f.pos] else []
  {
  }

  // ---------- One step ----------

  lemma WindowGrows(log: seq<Broadcast>, b: Broadcast, id: ClientId, c: Client)
    requires WindowInv(log, id, c)
    requires id in b.targets <==> c.left.None?
    ensures WindowInv(log + [b], id, c)
  {
  }

  lemma SnapGrows(n: nat, log: seq<Broadcast>, b: Broadcast, c: Client)
    requires SnapInv(n, log, c)
    ensures SnapInv(n, log + [b], c)
  {
    if c.snap.Some? { StoredInGrow(log, b, c.snap.value.at); }
  }

  lemma OfferGrows(log: seq<Broadcast>, b: Broadcast, pending: set<nat>, c: Client)
    requires OfferInv(log, pending, c) && c.joined <= |log| && (c.left.Some? ==> c.left.value <= |log|)
    ensures OfferInv(log + [b], pending + if c.left.None? then {|log|} else {}, c)
  {
  }

  lemma OrderGrows(log: seq<Broadcast>, b: Broadcast, sent: seq<Frame>)
    requires OrderInv(log, sent)
    ensures OrderInv(log + [b], sent)
  {
  }

  /** The log grows by a broadcast whose targets include `id` exactly when the client is registered. */
  lemma LogGrowth(n: nat, log: seq<Broadcast>, b: Broadcast, pending: set<nat>, id: ClientId, c: Client)
    requires ClientInv(n, log, pending, id, c)
    requires id in b.targets <==> c.left.None?
    ensures ClientInv(n, log + [b], pending + if c.left.None? then {|log|} else {}, id, c)
  {
    WindowGrows(log, b, id, c);
    SnapGrows(n, log, b, c);
    OfferGrows(log, b, pending, c);
    OrderGrows(log, b, c.sent);
  }

  lemma AppendMember(sent: seq<Frame>, f: Frame, g: Frame)
    ensures g in sent + [f] <==> g in sent || g == f
  {
  }

  lemma OrderAppend(log: seq<Broadcast>, sent: seq<Frame>, f: Frame)
    requires OrderInv(log, sent)
    requires f.Live? ==> f.idx < |log|
    requires f.Live? ==> forall a :: 0 <= a < |sent| && sent[a].Live? ==>
                           log[sent[a].idx].producer == log[f.idx].producer ==> sent[a].idx < f.idx
    ensures OrderInv(log, sent + [f])
  {
  }

  lemma OfferAccounted(log: seq<Broadcast>, pending: set<nat>, i: nat, c: Client)
    requires OfferInv(log, pending, c) && i in pending && i < |log| && Attached(c, i)
    ensures OfferInv(log, pending - {i}, Offered(c, i))
  {
  }

  /** The offer of entry `i` is made. */
  lemma OfferMade(n: nat, log: seq<Broadcast>, pending: set<nat>, i: nat, id: ClientId, c: Client)
    requires ClientInv(n, log, pending, id, c)
    requires i in pending && i < |log| && Attached(c, i)
    requires forall j :: i < j < |log| ==> log[j].producer != log[i].producer
    ensures ClientInv(n, log, pending - {i}, id, Offered(c, i))
  {
    OfferAccounted(log, pending, i, c);
    if |Queue(c)| < QUEUE_CAPACITY {
      OfferInOrder(log, pending, i, c);
      ReplaysLive(c.sent, i);
    }
  }

  lemma ReplaysLive(h: seq<Frame>, i: nat)
    ensures Replays(h + [Live(i)]) == Replays(h)
  {
  }

  lemma OfferInOrder(log: seq<Broadcast>, pending: set<nat>, i: nat, c: Client)
    requires OfferInv(log, pending, c) && OrderInv(log, c.sent) && i in pending && i < |log|
    requires forall j :: i < j < |log| ==> log[j].producer != log[i].producer
    ensures OrderInv(log, c.sent + [Live(i)])
  {
  }

  lemma ReplayAccounted(log: seq<Broadcast>, pending: set<nat>, c: Client)
    requires OfferInv(log, pending, c)
    ensures OfferInv(log, pending, Pushed(c))
  {
  }

  lemma ReplayInOrder(c: Client)
    requires Replays(c.sent) == Upto(c.pushed)
    ensures Replays(Pushed(c).sent) == Upto(Pushed(c).pushed)
  {
  }

  lemma PushKeepsWindow(log: seq<Broadcast>, id: ClientId, c: Client)
    requires WindowInv(log, id, c) && |Queue(c)| < QUEUE_CAPACITY
    ensures WindowInv(log, id, Pushed(c))
  {
  }

  lemma ReplayPushed(n: nat, log: seq<Broadcast>, pending: set<nat>, id: ClientId, c: Client)
    requires ClientInv(n, log, pending, id, c) && Replaying(c) && |Queue(c)| < QUEUE_CAPACITY
    ensures ClientInv(n, log, pending, id, Pushed(c))
  {
    ReplayInOrder(c);
    PushKeepsWindow(log, id, c);
    ReplayAccounted(log, pending, c);
    OrderAppend(log, c.sent, Replayed(c.pushed));
  }

  lemma BeginChangesPending(n: nat, s: State, p: ProducerId, ev: Event, store: bool, id: ClientId)
    requires p !in s.inflight
    ensures PendingFor(LockedSend(n, s, p, ev, store).inflight, id)
         == PendingFor(s.inflight, id) + if id in Registered(s) then {|s.log|} else {}
  {
    var inflight' := LockedSend(n, s, p, ev, store).inflight;
    assert forall q :: q in s.inflight ==> q in inflight' && inflight'[q] == s.inflight[q];
    if id in Registered(s) { assert id in inflight'[p].todo; }
  }

  lemma OfferChangesPending(s: State, p: ProducerId, c: ClientId, id: ClientId)
    requires InFlightInv(s) && p in s.inflight && c in s.inflight[p].todo && c in s.clients
    ensures PendingFor(OfferOne(s, p, c).inflight, id)
         == PendingFor(s.inflight, id) - if id == c then {s.inflight[p].idx} else {}
  {
    var inflight' := OfferOne(s, p, c).inflight;
    assert forall q :: q in s.inflight && q != p ==> q in inflight' && inflight'[q] == s.inflight[q];
    assert forall q :: q in s.inflight && q != p ==> s.inflight[q].idx != s.inflight[p].idx;
    assert p in inflight';
  }

  lemma FinishKeepsPending(inflight: map<ProducerId, InFlight>, p: ProducerId, id: ClientId)
    requires p in inflight && inflight[p].todo == {}
    ensures PendingFor(inflight - {p}, id) == PendingFor(inflight, id)
  {
    assert forall q :: q in inflight && q != p ==> q in inflight - {p} && (inflight - {p})[q] == inflight[q];
  }

  lemma RegisterStartsClean(n: nat, s: State, id: ClientId)
    requires InFlightInv(s) && id !in s.clients
    ensures ClientInv(n, s.log, PendingFor(s.inflight, id), id, Connection(s, Register(id)))
  {
  }

  lemma SnapshotKeepsSelf(n: nat, s: State, id: ClientId, pending: set<nat>)
    requires Enabled(s, Snapshot(id)) && s.ring == LastN(StoredIn(s.log, |s.log|), n)
    requires ClientInv(n, s.log, pending, id, s.clients[id])
    ensures ClientInv(n, s.log, pending, id, Connection(s, Snapshot(id)))
  {
    assert forall i: nat :: Attached(Connection(s, Snapshot(id)), i) <==> Attached(s.clients[id], i);
  }

  lemma TakeKeepsSelf(n: nat, s: State, id: ClientId, pending: set<nat>)
    requires Enabled(s, Take(id)) && ClientInv(n, s.log, pending, id, s.clients[id])
    ensures ClientInv(n, s.log, pending, id, Connection(s, Take(id)))
  {
    assert forall i: nat :: Attached(Connection(s, Take(id)), i) <==> Attached(s.clients[id], i);
  }

  lemma FlagsKeepSelf(n: nat, log: seq<Broadcast>, id: ClientId, pending: set<nat>, c: Client, done: bool, aborted: bool)
    requires ClientInv(n, log, pending, id, c)
    ensures ClientInv(n, log, pending, id, c.(done := done, aborted := aborted))
  {
    assert forall i: nat :: Attached(c.(done := done, aborted := aborted), i) <==> Attached(c, i);
  }

  lemma AbortKeepsSelf(n: nat, s: State, id: ClientId, pending: set<nat>)
    requires Enabled(s, Abort(id)) && ClientInv(n, s.log, pending, id, s.clients[id])
    ensures ClientInv(n, s.log, pending, id, Connection(s, Abort(id)))
  {
    FlagsKeepSelf(n, s.log, id, pending, s.clients[id], s.clients[id].done, true);
  }

  lemma DoneKeepsSelf(n: nat, s: State, id: ClientId, pending: set<nat>)
    requires Enabled(s, Done(id)) && ClientInv(n, s.log, pending, id, s.clients[id])
    ensures ClientInv(n, s.log, pending, id, Connection(s, Done(id)))
  {
    FlagsKeepSelf(n, s.log, id, pending, s.clients[id], true, s.clients[id].aborted);
  }

  lemma LeaveKeepsSelf(n: nat, s: State, id: ClientId, pending: set<nat>)
    requires Enabled(s, Leave(id)) && ClientInv(n, s.log, pending, id, s.clients[id])
    ensures ClientInv(n, s.log, pending, id, Connection(s, Leave(id)))
  {
    assert forall i: nat :: i < |s.log| ==> (Attached(Connection(s, Leave(id)), i) <==> Attached(s.clients[id], i));
  }

  lemma ConnectionKeepsSelf(n: nat, s: State, a: Action, pending: set<nat>)
    requires OfConnection(a) && !a.Register? && Enabled(s, a)
    requires s.ring == LastN(StoredIn(s.log, |s.log|), n)
    requires ClientInv(n, s.log, pending, a.c, s.clients[a.c])
    ensures ClientInv(n, s.log, pending, a.c, Connection(s, a))
  {
    match a
    case Snapshot(id) => SnapshotKeepsSelf(n, s, id, pending);
    case Push(id) => ReplayPushed(n, s.log, pending, id, s.clients[id]);
    case Abort(id) => AbortKeepsSelf(n, s, id, pending);
    case Take(id) => TakeKeepsSelf(n, s, id, pending);
    case Done(id) => DoneKeepsSelf(n, s, id, pending);
    case Leave(id) => LeaveKeepsSelf(n, s, id, pending);
  }

  lemma StepKeepsInFlight(n: nat, s: State, a: Action)
    requires InFlightInv(s) && Enabled(s, a)
    ensures InFlightInv(Apply(n, s, a))
  {
  }

  lemma LastNRolls<T>(all: seq<T>, x: T, n: nat)
    ensures LastN(LastN(all, n) + [x], n) == LastN(all + [x], n)
  {
  }

  lemma SendKeepsRing(n: nat, s: State, p: ProducerId, ev: Event, store: bool)
    requires s.ring == LastN(StoredIn(s.log, |s.log|), n)
    ensures var s' := LockedSend(n, s, p, ev, store); s'.ring == LastN(StoredIn(s'.log, |s'.log|), n)
  {
    var all := StoredIn(s.log, |s.log|);
    StoredInSnoc(s.log, Broadcast(p, ev, store, Registered(s)));
    if store {
      LastNRolls<nat>(all, |s.log|, n);
    } else {
      assert all + [] == all;
    }
  }

  lemma BeginKeepsClient(n: nat, s: State, p: ProducerId, ev: Event, store: bool, id: ClientId)
    requires p !in s.inflight && id in s.clients
    requires ClientInv(n, s.log, PendingFor(s.inflight, id), id, s.clients[id])
    ensures var s' := LockedSend(n, s, p, ev, store);
            ClientInv(n, s'.log, PendingFor(s'.inflight, id), id, s.clients[id])
  {
    BeginChangesPending(n, s, p, ev, store, id);
    LogGrowth(n, s.log, Broadcast(p, ev, store, Registered(s)), PendingFor(s.inflight, id), id, s.clients[id]);
  }

  lemma OfferKeepsClient(n: nat, s: State, p: ProducerId, c: ClientId, id: ClientId)
    requires InFlightInv(s) && p in s.inflight && c in s.inflight[p].todo && c in s.clients && id in s.clients
    requires ClientInv(n, s.log, PendingFor(s.inflight, id), id, s.clients[id])
    ensures ClientInv(n, s.log, PendingFor(OfferOne(s, p, c).inflight, id), id, OfferOne(s, p, c).clients[id])
  {
    OfferChangesPending(s, p, c, id);
    if id == c {
      assert Attached(s.clients[id], s.inflight[p].idx);
      OfferMade(n, s.log, PendingFor(s.inflight, id), s.inflight[p].idx, id, s.clients[id]);
    }
  }

  lemma StepKeepsClient(n: nat, s: State, a: Action, id: ClientId)
    requires InFlightInv(s) && Enabled(s, a) && id in Apply(n, s, a).clients
    requires s.ring == LastN(StoredIn(s.log, |s.log|), n)
    requires id in s.clients ==> ClientInv(n, s.log, PendingFor(s.inflight, id), id, s.clients[id])
    ensures var s' := Apply(n, s, a); ClientInv(n, s'.log, PendingFor(s'.inflight, id), id, s'.clients[id])
  {
    match a
    case Begin(p, ev, store) => BeginKeepsClient(n, s, p, ev, store, id);
    case Offer(p, c) => OfferKeepsClient(n, s, p, c, id);
    case Finish(p) => FinishKeepsPending(s.inflight, p, id);
    case Register(c) => if id == c { RegisterStartsClean(n, s, id); }
    case _ => if id == a.c { ConnectionKeepsSelf(n, s, a, PendingFor(s.inflight, id)); }
  }

  lemma StepKeepsInv(n: nat, s: State, a: Action)
    requires Inv(n, s) && Enabled(s, a)
    ensures Inv(n, Apply(n, s, a))
  {
    StepKeepsInFlight(n, s, a);
    if a.Begin? { SendKeepsRing(n, s, a.p, a.ev, a.store); }
    forall id | id in Apply(n, s, a).clients
      ensures var s' := Apply(n, s, a); ClientInv(n, s'.log, PendingFor(s'.inflight, id), id, s'.clients[id])
    {
      StepKeepsClient(n, s, a, id);
    }
  }

  /** The invariant holds in every reachable state. */
  lemma {:induction false} EveryRunKeepsInv(n: nat, s: State, acts: seq<Action>)
    requires Inv(n, s) && Legal(n, s, acts)
    ensures Inv(n, Exec(n, s, acts))
    decreases |acts|
  {
    if acts != [] {
      StepKeepsInv(n, s, acts[0]);
      EveryRunKeepsInv(n, Apply(n, s, acts[0]), acts[1..]);
    }
  }
}

