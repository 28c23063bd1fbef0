/**
 The hub of internal/ui/hub.go as the object it is: a ring buffer updated in place, a set of
 clients with bounded channels, and counters. The ghost field `stored` is the history that
 the ring abbreviates.
 */
module Hub {
  import opened Sequences
  import opened Wire
  import RP = ReplayProtocol

  /** A WebSocket connection's channel; `queue` holds the frames not yet received by its writer loop. */
  class Client {
    var queue: seq<Event>

    constructor ()
      ensures queue == []
    {
      queue := [];
    }
  }

  /** What a non-blocking channel send leaves in the queue. */
  function AfterOffer(queue: seq<Event>, ev: Event): seq<Event> {
    if |queue| < RP.QUEUE_CAPACITY then queue + [ev] else queue
  }

  /** The clients of `cs` whose channel has room. */
  function WithRoom(cs: set<Client>): set<Client>
    reads cs
  {
    set c | c in cs && |c.queue| < RP.QUEUE_CAPACITY
  }

  /** The positions of `cs` whose channel has room. */
  function RoomIn(cs: seq<Client>): set<nat>
    reads cs
  {
    set i: nat | i < |cs| && |cs[i].queue| < RP.QUEUE_CAPACITY
  }

  function RoomBelow(roomy: set<nat>, i: nat): set<nat> {
    set j | j in roomy && j < i
  }

  lemma RoomBelowStep(roomy: set<nat>, i: nat)
    ensures |RoomBelow(roomy, i + 1)| == |RoomBelow(roomy, i)| + if i in roomy then 1 else 0
  {
    assert RoomBelow(roomy, i + 1) == RoomBelow(roomy, i) + if i in roomy then {i} else {};
  }

  lemma RoomInSnoc(init: seq<Client>, c: Client)
    ensures |RoomIn(init + [c])| == |RoomIn(init)| + if |c.queue| < RP.QUEUE_CAPACITY then 1 else 0
  {
    assert forall i :: 0 <= i < |init| ==> (init + [c])[i] == init[i];
    var last: nat := |init|;
    assert RoomIn(init + [c]) == RoomIn(init) + if |c.queue| < RP.QUEUE_CAPACITY then {last} else {};
  }

  lemma WithRoomRemove(cs: set<Client>, c: Client)
    requires c in cs
    ensures |WithRoom(cs)| == |WithRoom(cs - {c})| + if |c.queue| < RP.QUEUE_CAPACITY then 1 else 0
  {
    assert WithRoom(cs) == WithRoom(cs - {c}) + if |c.queue| < RP.QUEUE_CAPACITY then {c} else {};
  }

  /** A slice that lists a set of clients once each. */
  ghost predicate Lists(slice: seq<Client>, cs: set<Client>) {
    Distinct(slice) && (set c | c in slice) == cs
  }

  lemma ListsInit(init: seq<Client>, c: Client, cs: set<Client>)
    requires Lists(init + [c], cs)
    ensures c in cs && Lists(init, cs - {c})
  {
    var slice := init + [c];
    assert slice[|init|] == c;
    assert forall i :: 0 <= i < |init| ==> slice[i] == init[i];
    assert forall d :: d in slice <==> d in init || d == c;
  }

  /** Such a slice has as many clients, and as many with room, as the set. */
  lemma {:induction false} RoomOfSlice(slice: seq<Client>, cs: set<Client>)
    requires Lists(slice, cs)
    ensures |RoomIn(slice)| == |WithRoom(cs)| && |slice| == |cs|
    decreases |slice|
  {
    if slice == [] {
      assert cs == {};
    } else {
      var init, c := slice[..|slice| - 1], slice[|slice| - 1];
      assert slice == init + [c];
      ListsInit(init, c, cs);
      RoomOfSlice(init, cs - {c});
      RoomInSnoc(init, c);
      WithRoomRemove(cs, c);
    }
  }

  lemma ModUnique(n: int, size: nat, q: int, r: nat)
    requires size >= 1 && n == q * size + r && r < size
    ensures n % size == r
  {
    var d := q - n / size;
    assert d * size == n % size - r;
    assert d >= 1 ==> d * size >= size;
    assert d <= -1 ==> d * size + size <= 0;
  }

  lemma ModStep(n: nat, size: nat)
    requires size >= 1
    ensures (n % size + 1) % size == (n + 1) % size
    ensures (n + 1) % size == if n % size + 1 == size then 0 else n % size + 1
  {
    var wraps := n % size + 1 == size;
    var r := if wraps then 0 else n % size + 1;
    ModUnique(n + 1, size, if wraps then n / size + 1 else n / size, r);
    ModUnique(n % size + 1, size, if wraps then 1 else 0, r);
  }

  /** The slot of the `k`-th stored event and the slot `d` places further on. */
  lemma SlotShift(k: nat, d: nat, size: nat)
    requires d < size
    ensures (k + d) % size == if k % size + d < size then k % size + d else k % size + d - size
  {
    var q, r := k / size, k % size;
    if r + d < size { ModUnique(k + d, size, q, r + d); } else { ModUnique(k + d, size, q + 1, r + d - size); }
  }

  class Hub {
    var ring: array<Event>
    var ringHead: nat
    const ringSize: nat
    var ringFilled: bool
    var clients: set<Client>
    var bcastCount: nat
    var deliverCount: nat
    var dropCount: nat
    ghost var stored: seq<Event>

    ghost predicate Valid()
      reads this, ring
    {
      && ringSize >= 1
      && ring.Length == ringSize
      && ringHead == |stored| % ringSize
      && (ringFilled <==> |stored| >= ringSize)
      && forall k {:trigger stored[k]} :: 0 <= k < |stored| && |stored| - ringSize <= k ==> ring[k % ringSize] == stored[k]
    }

    constructor (ringSize: nat, blank: Event)
      requires ringSize >= 1
      ensures Valid() && fresh(ring) && this.ringSize == ringSize
      ensures stored == [] && clients == {}
      ensures bcastCount == 0 && deliverCount == 0 && dropCount == 0
    {
      this.ringSize := ringSize;
      ring := new Event[ringSize](_ => blank);
      ringHead, ringFilled := 0, false;
      clients := {};
      bcastCount, deliverCount, dropCount := 0, 0, 0;
      stored := [];
    }

    /** The ring update of the locked part of a send. */
    method Store(ev: Event)
      requires Valid()
      modifies this`ringHead, this`ringFilled, this`stored, ring
      ensures Valid() && stored == old(stored) + [ev]
    {
      ModStep(|stored|, ringSize);
      ghost var n := |stored|;
      ring[ringHead] := ev;
      ringHead := (ringHead + 1) % ringSize;
      if ringHead == 0 {
        ringFilled := true;
      }
      stored := stored + [ev];
      forall k | 0 <= k < n && n + 1 - ringSize <= k
        ensures k % ringSize != n % ringSize
      {
        SlotShift(k, n - k, ringSize);
      }
      assert ringFilled <==> n + 1 >= ringSize by {
        if !old(ringFilled) {
          ModUnique(n, ringSize, 0, n);
        }
      }
    }

    /**
     A send with its fan-out: every registered client with room gets the frame at the end of its queue, the
     others keep theirs, and the counters say how many there were of each.
     */
    method Send(ev: Event, store: bool)
      requires Valid()
      modifies this`ringHead, this`ringFilled, this`stored, this`bcastCount, this`deliverCount, this`dropCount,
               ring, clients
      ensures Valid()
      ensures stored == old(stored) + if store then [ev] else []
      ensures bcastCount == old(bcastCount) + 1
      ensures forall c :: c in clients ==>
                c.queue == if |old(c.queue)| < 1024 then old(c.queue) + [ev] else old(c.queue)
      ensures deliverCount == old(deliverCount) + |old(set c | c in clients && |c.queue| < 1024)|
      ensures deliverCount + dropCount == old(deliverCount + dropCount) + |clients|
    {
      bcastCount := bcastCount + 1;
      if store {
        Store(ev);
      }
      var captured := CopyClients();
      RoomOfSlice(captured, clients);
      FanOut(captured, ev);
    }

    /** The copy of the client set made under the lock; its order is the map's, so any. */
    method CopyClients() returns (out: seq<Client>)
      ensures Lists(out, clients)
    {
      out := [];
      var rest := clients;
      while rest != {}
        invariant rest <= clients && Distinct(out)
        invariant forall c :: c in out <==> c in clients && c !in rest
      {
        var c :| c in rest;
        out := out + [c];
        rest := rest - {c};
      }
    }

    /** The unlocked loop of a send over the clients it captured. */
    method FanOut(targets: seq<Client>, ev: Event)
      requires Distinct(targets)
      modifies this`deliverCount, this`dropCount, targets
      ensures forall c :: c in targets ==>
                c.queue == if |old(c.queue)| < 1024 then old(c.queue) + [ev] else old(c.queue)
      ensures deliverCount == old(deliverCount) + |old(set i: nat | i < |targets| && |targets[i].queue| < 1024)|
      ensures deliverCount + dropCount == old(deliverCount + dropCount) + |targets|
    {
      ghost var roomy := RoomIn(targets);
      for i := 0 to |targets|
        invariant forall j :: 0 <= j < i ==> targets[j].queue == AfterOffer(old(targets[j].queue), ev)
        invariant forall j :: i <= j < |targets| ==> targets[j].queue == old(targets[j].queue)
        invariant deliverCount == old(deliverCount) + |RoomBelow(roomy, i)|
        invariant dropCount + |RoomBelow(roomy, i)| == old(dropCount) + i
      {
        var c := targets[i];
        RoomBelowStep(roomy, i);
        if |c.queue| < RP.QUEUE_CAPACITY {
          c.queue := c.queue + [ev];
          deliverCount := deliverCount + 1;
        } else {
          dropCount := dropCount + 1;
        }
      }
      assert RoomBelow(roomy, |targets|) == roomy;
    }

    /** The replay view: the last `ringSize` stored events, oldest first, copied in two segments once the ring is full. */
    method Snapshot() returns (out: seq<Event>)
      requires Valid()
      ensures out == LastN(stored, ringSize)
    {
      if !ringFilled {
        assert forall k {:trigger stored[k]} :: 0 <= k < |stored| ==> k % ringSize == k by {
          forall k: nat | k < |stored| ensures k % ringSize == k { ModUnique(k, ringSize, 0, k); }
        }
        ModUnique(|stored|, ringSize, 0, |stored|);
        return ring[..ringHead];
      }
      out := ring[ringHead..] + ring[..ringHead];
      var base := |stored| - ringSize;
      assert base % ringSize == ringHead by { SlotBack(|stored|, ringSize); }
      forall d | 0 <= d < ringSize
        ensures out[d] == stored[base + d]
      {
        SlotShift(base, d, ringSize);
      }
    }

    method Register(c: Client)
      requires Valid()
      modifies this`clients
      ensures Valid() && clients == old(clients) + {c}
    {
      clients := clients + {c};
    }

    method Unregister(c: Client)
      requires Valid()
      modifies this`clients
      ensures Valid() && clients == old(clients) - {c}
    {
      clients := clients - {c};
    }
  }

  lemma SlotBack(n: nat, size: nat)
    requires size >= 1 && n >= size
    ensures (n - size) % size == n % size
  {
    ModUnique(n - size, size, n / size - 1, n % size);
  }
}
