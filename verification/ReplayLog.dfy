/**
 The replay protocol's history in terms of what the goroutines did: the log is the broadcasts begun, a snapshot holds
 the latest of those begun with `store`, and each step of a client does to its queue what its channel operation does.
 */
module ReplayLog {
  import opened Sequences
  import opened ReplayProtocol
  import opened ReplaySafety
  import opened ReplayTheorems
  import opened Wire

  // ---------- Runs in parts ----------

  lemma {:induction false} RunInParts(n: nat, s: State, a: seq<Action>, b: seq<Action>)
    requires Legal(n, s, a + b)
    ensures Legal(n, s, a) && Legal(n, Exec(n, s, a), b) && Exec(n, s, a + b) == Exec(n, Exec(n, s, a), b)
    decreases |a|
  {
    if a == [] {
      assert a + b == b;
    } else {
      assert (a + b)[1..] == a[1..] + b;
      RunInParts(n, Apply(n, s, a[0]), a[1..], b);
    }
  }

  lemma OneAction(n: nat, s: State, a: Action)
    requires Legal(n, s, [a])
    ensures Enabled(s, a) && Exec(n, s, [a]) == Apply(n, s, a)
  {
    assert [a][1..] == [];
  }

  // ---------- The log ----------

  /** The sends begun in a run, in order. */
  function Begins(acts: seq<Action>): seq<Action> {
    if acts == [] then [] else BeginsOne(acts[0]) + Begins(acts[1..])
  }

  function StoredByOne(a: Action): seq<Event> {
    if a.Begin? && a.store then [a.ev] else []
  }

  /** The events a run broadcasts with `store`, in order. */
  function StoredBy(acts: seq<Action>): seq<Event> {
    if acts == [] then [] else StoredByOne(acts[0]) + StoredBy(acts[1..])
  }

  /** The sends a log records. */
  function Sends(log: seq<Broadcast>): seq<Action> {
    seq(|log|, k requires 0 <= k < |log| => Begin(log[k].producer, log[k].event, log[k].stored))
  }

  function BeginsOne(a: Action): seq<Action> {
    if a.Begin? then [a] else []
  }

  lemma StepLogs(n: nat, s: State, a: Action)
    requires Enabled(s, a)
    ensures s.log <= Apply(n, s, a).log
    ensures Sends(Apply(n, s, a).log) == Sends(s.log) + BeginsOne(a)
  {
    if !a.Begin? { assert Sends(s.log) + [] == Sends(s.log); }
  }

  lemma RegroupSends(a: seq<Action>, b: seq<Action>, c: seq<Action>)
    ensures a + b + c == a + (b + c)
  {
  }

  lemma {:induction false} RunLogs(n: nat, s: State, acts: seq<Action>)
    requires Legal(n, s, acts)
    ensures s.log <= Exec(n, s, acts).log
    ensures Sends(Exec(n, s, acts).log) == Sends(s.log) + Begins(acts)
    decreases |acts|
  {
    if acts == [] {
      assert Sends(s.log) + [] == Sends(s.log);
    } else {
      StepLogs(n, s, acts[0]);
      RunLogs(n, Apply(n, s, acts[0]), acts[1..]);
      RegroupSends(Sends(s.log), BeginsOne(acts[0]), Begins(acts[1..]));
    }
  }

  /** After every run the log has one entry per send begun, in order, with its producer, event and store flag. */
  lemma LogIsBegins(n: nat, acts: seq<Action>)
    requires Legal(n, INIT, acts)
    ensures var log := Exec(n, INIT, acts).log; var begins := Begins(acts);
            |log| == |begins| && forall k :: 0 <= k < |log| ==>
              && begins[k].Begin? && log[k].producer == begins[k].p
              && log[k].event == begins[k].ev && log[k].stored == begins[k].store
  {
    RunLogs(n, INIT, acts);
    var log := Exec(n, INIT, acts).log;
    assert [] + Begins(acts) == Begins(acts);
    assert forall k :: 0 <= k < |log| ==> Sends(log)[k] == Begin(log[k].producer, log[k].event, log[k].stored);
  }

  lemma StoredEventsSnoc(log: seq<Broadcast>, b: Broadcast)
    ensures StoredEvents(log + [b]) == StoredEvents(log) + if b.stored then [b.event] else []
  {
    assert (log + [b])[..|log|] == log;
  }

  lemma StepStores(n: nat, s: State, a: Action)
    requires Enabled(s, a)
    ensures StoredEvents(Apply(n, s, a).log) == StoredEvents(s.log) + StoredByOne(a)
  {
    if a.Begin? {
      StoredEventsSnoc(s.log, Broadcast(a.p, a.ev, a.store, Registered(s)));
    } else {
      assert StoredEvents(s.log) + [] == StoredEvents(s.log);
    }
  }

  lemma Regroup(a: seq<Event>, b: seq<Event>, c: seq<Event>)
    ensures a + b + c == a + (b + c)
  {
  }

  lemma {:induction false} RunStores(n: nat, s: State, acts: seq<Action>)
    requires Legal(n, s, acts)
    ensures StoredEvents(Exec(n, s, acts).log) == StoredEvents(s.log) + StoredBy(acts)
    decreases |acts|
  {
    if acts == [] {
      assert StoredEvents(s.log) + [] == StoredEvents(s.log);
    } else {
      StepStores(n, s, acts[0]);
      RunStores(n, Apply(n, s, acts[0]), acts[1..]);
      Regroup(StoredEvents(s.log), StoredByOne(acts[0]), StoredBy(acts[1..]));
    }
  }

  // ---------- What a client's life fixes ----------

  /** What later steps of a client leave alone. */
  ghost predicate SameLife(c: Client, d: Client) {
    d.joined == c.joined && (c.left.Some? ==> d.left == c.left) && (c.snap.Some? ==> d.snap == c.snap)
  }

  lemma StepKeepsLife(n: nat, s: State, a: Action, id: ClientId)
    requires Enabled(s, a) && id in s.clients
    ensures id in Apply(n, s, a).clients && SameLife(s.clients[id], Apply(n, s, a).clients[id])
  {
  }

  lemma {:induction false} RunKeepsLife(n: nat, s: State, acts: seq<Action>, id: ClientId)
    requires Legal(n, s, acts) && id in s.clients
    ensures id in Exec(n, s, acts).clients && SameLife(s.clients[id], Exec(n, s, acts).clients[id])
    decreases |acts|
  {
    if acts != [] {
      StepKeepsLife(n, s, acts[0], id);
      RunKeepsLife(n, Apply(n, s, acts[0]), acts[1..], id);
    }
  }

  /** A run through one action of interest: what the client had right after it. */
  lemma RunThrough(n: nat, before: seq<Action>, a: Action, after: seq<Action>) returns (s: State, t: State)
    requires Legal(n, INIT, before + [a] + after)
    ensures Legal(n, INIT, before) && s == Exec(n, INIT, before) && Enabled(s, a) && t == Apply(n, s, a)
    ensures Legal(n, t, after) && Exec(n, INIT, before + [a] + after) == Exec(n, t, after)
    ensures |s.log| == |Begins(before)|
  {
    RunInParts(n, INIT, before + [a], after);
    RunInParts(n, INIT, before, [a]);
    s := Exec(n, INIT, before);
    OneAction(n, s, a);
    t := Apply(n, s, a);
    LogIsBegins(n, before);
  }

  /** The window in which a client is captured begins and ends with its registration and unregistration. */
  lemma RegisteredFrom(n: nat, before: seq<Action>, id: ClientId, after: seq<Action>)
    requires Legal(n, INIT, before + [Register(id)] + after)
    ensures var s := Exec(n, INIT, before + [Register(id)] + after);
            id in s.clients && s.clients[id].joined == |Begins(before)|
  {
    var s, t := RunThrough(n, before, Register(id), after);
    RunKeepsLife(n, t, after, id);
  }

  lemma RegisteredUntil(n: nat, before: seq<Action>, id: ClientId, after: seq<Action>)
    requires Legal(n, INIT, before + [Leave(id)] + after)
    ensures var s := Exec(n, INIT, before + [Leave(id)] + after);
            id in s.clients && s.clients[id].left == Some(|Begins(before)|)
  {
    var s, t := RunThrough(n, before, Leave(id), after);
    RunKeepsLife(n, t, after, id);
  }

  /** The stored events of the part of the log that was there before the action. */
  lemma StoredBefore(n: nat, before: seq<Action>, a: Action, after: seq<Action>)
    requires Legal(n, INIT, before + [a] + after)
    ensures var log := Exec(n, INIT, before + [a] + after).log;
            |Begins(before)| <= |log| && StoredEvents(log[..|Begins(before)|]) == StoredBy(before)
  {
    var s, t := RunThrough(n, before, a, after);
    StepLogs(n, s, a);
    RunLogs(n, t, after);
    RunStores(n, INIT, before);
    assert [] + StoredBy(before) == StoredBy(before);
    TakesPrefix(s.log, Exec(n, t, after).log);
  }

  lemma TakesPrefix(a: seq<Broadcast>, b: seq<Broadcast>)
    requires a <= b
    ensures b[..|a|] == a
  {
  }

  /**
   In every run a client's snapshot is the last `n` of the events that had been broadcast with `store` before it, in
   order; transient broadcasts are not among them.
   */
  lemma SnapshotReplaysStored(n: nat, before: seq<Action>, id: ClientId, after: seq<Action>)
    requires Legal(n, INIT, before + [Snapshot(id)] + after)
    ensures var s := Exec(n, INIT, before + [Snapshot(id)] + after);
            && id in s.clients && s.clients[id].snap.Some?
            && s.clients[id].snap.value.at == |Begins(before)|
            && var picks := s.clients[id].snap.value.picks;
            && (forall k :: 0 <= k < |picks| ==> picks[k] < |s.log|)
            && EventsAt(s.log, picks) == LastN(StoredBy(before), n)
  {
    var acts := before + [Snapshot(id)] + after;
    var s, t := RunThrough(n, before, Snapshot(id), after);
    RunKeepsLife(n, t, after, id);
    SnapshotIsRingView(n, acts, id);
    StoredBefore(n, before, Snapshot(id), after);
  }

  /** Every frame that enters a channel is a send of the run; one from the replay was begun with `store`. */
  lemma FramesAreSends(n: nat, acts: seq<Action>, id: ClientId)
    requires Legal(n, INIT, acts) && id in Exec(n, INIT, acts).clients
    ensures var c := Exec(n, INIT, acts).clients[id]; var begins := Begins(acts); var picks := Picks(c);
            && (forall a :: 0 <= a < |c.sent| && c.sent[a].Live? ==> c.sent[a].idx < |begins|)
            && (forall a :: 0 <= a < |c.sent| && c.sent[a].Replayed? ==> c.sent[a].pos < |picks|)
            && forall k :: 0 <= k < |picks| ==> picks[k] < |begins| && begins[picks[k]].Begin? && begins[picks[k]].store
  {
    PerClientOrder(n, acts, id, 0);
    LogIsBegins(n, acts);
    var c := Exec(n, INIT, acts).clients[id];
    forall a | 0 <= a < |c.sent| && c.sent[a].Replayed?
      ensures c.sent[a].pos < |Picks(c)|
    {
      ReplayedMember(c.sent, a);
      UptoMember(c.pushed, c.sent[a].pos);
    }
  }

  lemma {:induction false} ReplayedMember(h: seq<Frame>, a: nat)
    requires a < |h| && h[a].Replayed?
    ensures h[a].pos in Replays(h)
  {
    if a < |h| - 1 { ReplayedMember(h[..|h| - 1], a); }
  }

  lemma {:induction false} UptoMember(m: nat, k: nat)
    requires k in Upto(m)
    ensures k < m
  {
    if m > 0 && k != m - 1 { UptoMember(m - 1, k); }
  }

  // ---------- Single channel operations ----------

  lemma ReachedQueue(n: nat, acts: seq<Action>, id: ClientId)
    requires Legal(n, INIT, acts) && id in Exec(n, INIT, acts).clients
    ensures var c := Exec(n, INIT, acts).clients[id]; c.taken <= |c.sent| <= c.taken + 1024
  {
    ReachedInv(n, acts);
    var s := Exec(n, INIT, acts);
    assert WindowInv(s.log, id, s.clients[id]);
  }

  lemma QueueGrows(c: Client, d: Client, f: Frame)
    requires c.taken <= |c.sent| && d.taken == c.taken && d.sent == c.sent + [f]
    ensures Queue(d) == Queue(c) + [f]
  {
  }

  lemma QueueShrinks(c: Client, d: Client)
    requires c.taken < |c.sent| && d.taken == c.taken + 1 && d.sent == c.sent
    ensures Queue(c) != [] && Queue(d) == Queue(c)[1..]
  {
    assert c.sent[c.taken..][1..] == c.sent[c.taken + 1..];
  }

  /** What an offer of entry `i` does to a client. */
  ghost predicate OfferMet(c: Client, d: Client, i: nat) {
    if |Queue(c)| < 1024 then Queue(d) == Queue(c) + [Live(i)] && d.lost == c.lost
    else Queue(d) == Queue(c) && d.lost == c.lost + {i}
  }

  lemma OfferStep(c: Client, i: nat)
    requires c.taken <= |c.sent| <= c.taken + 1024
    ensures |Queue(c)| <= 1024 && OfferMet(c, Offered(c, i), i)
  {
    if |Queue(c)| < 1024 { QueueGrows(c, Offered(c, i), Live(i)); }
  }

  /**
   An offer in any reachable state: with room the frame goes to the end of the queue and is counted delivered;
   otherwise, and only with 1024 frames waiting, the queue stays as it is and the offer is counted dropped.
   */
  lemma OfferExactly(n: nat, acts: seq<Action>, p: ProducerId, id: ClientId)
    requires Legal(n, INIT, acts) && Enabled(Exec(n, INIT, acts), Offer(p, id))
    ensures var s := Exec(n, INIT, acts); var t := Apply(n, s, Offer(p, id));
            var c, d := s.clients[id], t.clients[id];
            && |Queue(c)| <= 1024 && OfferMet(c, d, s.inflight[p].idx)
            && t.delivered == s.delivered + (if |Queue(c)| < 1024 then 1 else 0)
            && t.dropped == s.dropped + (if |Queue(c)| < 1024 then 0 else 1)
            && t.inflight[p].todo == s.inflight[p].todo - {id} && t.clients == s.clients[id := d]
  {
    ReachedQueue(n, acts, id);
    OfferStep(Exec(n, INIT, acts).clients[id], Exec(n, INIT, acts).inflight[p].idx);
  }

  /** The channel is first in, first out: the writer takes its front. */
  lemma TakeIsFifo(n: nat, acts: seq<Action>, id: ClientId)
    requires Legal(n, INIT, acts) && Enabled(Exec(n, INIT, acts), Take(id))
    ensures var s := Exec(n, INIT, acts); var q := Queue(s.clients[id]);
            q != [] && Queue(Apply(n, s, Take(id)).clients[id]) == q[1..]
  {
    ReachedQueue(n, acts, id);
    var s := Exec(n, INIT, acts);
    QueueShrinks(s.clients[id], Connection(s, Take(id)));
  }

  /** A replay push needs room and adds the next snapshot position. */
  lemma PushIsNext(n: nat, acts: seq<Action>, id: ClientId)
    requires Legal(n, INIT, acts) && Enabled(Exec(n, INIT, acts), Push(id))
    ensures var s := Exec(n, INIT, acts); var c := s.clients[id];
            && |Queue(c)| < 1024 && c.pushed < |Picks(c)|
            && Queue(Apply(n, s, Push(id)).clients[id]) == Queue(c) + [Replayed(c.pushed)]
  {
    ReachedQueue(n, acts, id);
    var s := Exec(n, INIT, acts);
    QueueGrows(s.clients[id], Connection(s, Push(id)), Replayed(s.clients[id].pushed));
  }

  /** A replay gives up only after the connection's reader has finished. */
  lemma {:induction false} AbortsWhenDone(n: nat, s: State, acts: seq<Action>, id: ClientId)
    requires Legal(n, s, acts) && forall c :: c in s.clients && s.clients[c].aborted ==> s.clients[c].done
    ensures var t := Exec(n, s, acts); id in t.clients && t.clients[id].aborted ==> t.clients[id].done
    decreases |acts|
  {
    if acts != [] {
      var t := Apply(n, s, acts[0]);
      forall c | c in t.clients && t.clients[c].aborted
        ensures t.clients[c].done
      {
        StepAborts(n, s, acts[0], c);
      }
      AbortsWhenDone(n, t, acts[1..], id);
    }
  }

  lemma StepAborts(n: nat, s: State, a: Action, c: ClientId)
    requires Enabled(s, a) && (c in s.clients && s.clients[c].aborted ==> s.clients[c].done)
    ensures var t := Apply(n, s, a); c in t.clients && t.clients[c].aborted ==> t.clients[c].done
  {
  }
}
