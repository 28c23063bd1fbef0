/**
 What the read loop of internal/tap/tap_linux.go delivers to its filter, on values: the
 effect of a run of reads does not depend on where they cut the stream.
 */
module FanotifyStream {
  import opened Sequences
  import opened Fanotify

  /** What the loop has done: events handed to the filter, bytes carried over, and events decoded but then skipped. */
  datatype Delivery = Delivery(events: seq<Event>, left: seq<Byte>, skipped: seq<Event>)

  const START := Delivery([], [], [])

  function Deliver1(d: Delivery, chunk: seq<Byte>): Delivery {
    match Parse(d.left + chunk)
    case Parsed(events, rest) => Delivery(d.events + events, rest, d.skipped)
    case BadLength(events, _) => Delivery(d.events, [], d.skipped + events)
  }

  function Deliver(d: Delivery, chunks: seq<seq<Byte>>): Delivery
    decreases |chunks|
  {
    if chunks == [] then d else Deliver(Deliver1(d, chunks[0]), chunks[1..])
  }

  lemma {:induction false} DeliverAppend(d: Delivery, a: seq<seq<Byte>>, b: seq<seq<Byte>>)
    ensures Deliver(d, a + b) == Deliver(Deliver(d, a), b)
    decreases |a|
  {
    if a == [] {
      assert a + b == b;
    } else {
      assert (a + b)[1..] == a[1..] + b;
      DeliverAppend(Deliver1(d, a[0]), a[1..], b);
    }
  }

  lemma DeliverOne(d: Delivery, chunk: seq<Byte>)
    ensures Deliver(d, [chunk]) == Deliver1(d, chunk)
  {
  }

  lemma FlattenOne(f: seq<Byte>)
    ensures Flatten([f]) == f
  {
  }

  /** However reads cut a stream without malformed records, events and carried-over bytes are those of one decode. */
  lemma {:induction false} ChunkIndependence(chunks: seq<seq<Byte>>)
    requires Parse(Flatten(chunks)).Parsed?
    ensures Deliver(START, chunks) == Delivery(Parse(Flatten(chunks)).events, Parse(Flatten(chunks)).rest, [])
    decreases |chunks|
  {
    if chunks != [] {
      var init, c := chunks[..|chunks| - 1], chunks[|chunks| - 1];
      assert chunks == init + [c];
      FlattenAppend(init, [c]);
      FlattenOne(c);
      PrefixParses(Flatten(init), c);
      ChunkIndependence(init);
      ParseAppend(Flatten(init), c);
      DeliverAppend(START, init, [c]);
      DeliverOne(Deliver(START, init), c);
    }
  }

  /** The cut into single bytes. */
  function Singles(s: seq<Byte>): (cs: seq<seq<Byte>>)
    ensures |cs| == |s| && Flatten(cs) == s
    ensures forall i :: 0 <= i < |cs| ==> |cs[i]| == 1
  {
    if s == [] then [] else [[s[0]]] + Singles(s[1..])
  }

  /** `e` done after `d`. */
  function Then(d: Delivery, e: Delivery): Delivery {
    Delivery(d.events + e.events, e.left, d.skipped + e.skipped)
  }

  lemma ThenAssociates(d: Delivery, e: Delivery, f: Delivery)
    ensures Then(d, Then(e, f)) == Then(Then(d, e), f)
  {
  }

  lemma Deliver1From(d: Delivery, chunk: seq<Byte>)
    ensures Deliver1(d, chunk) == Then(d, Deliver1(Delivery([], d.left, []), chunk))
  {
  }

  /** Only the carried-over bytes matter to later chunks. */
  lemma {:induction false} DeliverFrom(d: Delivery, chunks: seq<seq<Byte>>)
    ensures Deliver(d, chunks) == Then(d, Deliver(Delivery([], d.left, []), chunks))
    decreases |chunks|
  {
    var d0 := Delivery([], d.left, []);
    if chunks == [] {
      assert d.skipped + [] == d.skipped && d.events + [] == d.events;
    } else {
      var d1, e1 := Deliver1(d, chunks[0]), Deliver1(d0, chunks[0]);
      Deliver1From(d, chunks[0]);
      DeliverFrom(d1, chunks[1..]);
      DeliverFrom(e1, chunks[1..]);
      ThenAssociates(d, e1, Deliver(Delivery([], d1.left, []), chunks[1..]));
    }
  }

  lemma DeliverRecords(chunks: seq<seq<Byte>>, frames: seq<seq<Byte>>)
    requires AllRecords(frames) && Flatten(chunks) == Flatten(frames)
    ensures Deliver(START, chunks) == Delivery(DecodeAll(frames), [], [])
  {
    ParseOfRecords(frames, []);
    assert Flatten(frames) + [] == Flatten(frames);
    ChunkIndependence(chunks);
  }

  lemma ParseRecordThenBad(f: seq<Byte>, bad: seq<Byte>)
    requires IsRecord(f) && Malformed(bad)
    ensures Parse(f + bad).BadLength? && Parse(f + bad).events == [Decode(f)]
  {
    FlattenOne(f);
    ParseOfRecords([f], bad);
  }

  lemma PartOfRecord(chunks: seq<seq<Byte>>, frames: seq<seq<Byte>>, f: seq<Byte>, n: nat)
    requires AllRecords(frames) && IsRecord(f) && n < |f| && Flatten(chunks) == Flatten(frames) + f[..n]
    ensures Deliver(START, chunks) == Delivery(DecodeAll(frames), f[..n], [])
  {
    assert f == f[..n] + f[n..];
    assert Incomplete(f[..n]) by { if n >= METADATA_SIZE { HeadIsLocal(f[..n], f[n..]); } }
    ParseOfRecords(frames, f[..n]);
    ChunkIndependence(chunks);
  }

  /**
   However the stream before was cut: one read that completes record `f` and brings a malformed header loses the
   record.
   */
  lemma LastRecordLost(before: seq<seq<Byte>>, frames: seq<seq<Byte>>, f: seq<Byte>, n: nat, bad: seq<Byte>)
    requires AllRecords(frames) && IsRecord(f) && n < |f| && Malformed(bad)
    requires Flatten(before) == Flatten(frames) + f[..n]
    ensures Deliver(START, before + [f[n..] + bad]) == Delivery(DecodeAll(frames), [], [Decode(f)])
  {
    PartOfRecord(before, frames, f, n);
    DeliverAppend(START, before, [f[n..] + bad]);
    DeliverOne(Deliver(START, before), f[n..] + bad);
    CompletedThenBad(Deliver(START, before), f, n, bad);
  }

  lemma CompletedThenBad(d: Delivery, f: seq<Byte>, n: nat, bad: seq<Byte>)
    requires IsRecord(f) && n < |f| && Malformed(bad) && d.left == f[..n]
    ensures Deliver1(d, f[n..] + bad) == Delivery(d.events, [], d.skipped + [Decode(f)])
  {
    assert f[..n] + (f[n..] + bad) == f + bad;
    ParseRecordThenBad(f, bad);
  }

  /** However the stream before was cut: a read boundary before the malformed header keeps every record. */
  lemma RecordsKept(before: seq<seq<Byte>>, frames: seq<seq<Byte>>, bad: seq<Byte>)
    requires AllRecords(frames) && Malformed(bad) && Flatten(before) == Flatten(frames)
    ensures Deliver(START, before + [bad]) == Delivery(DecodeAll(frames), [], [])
  {
    DeliverRecords(before, frames);
    DeliverAppend(START, before, [bad]);
    DeliverOne(Deliver(START, before), bad);
    assert START.left + bad == bad;
  }

  lemma CutFlattens(x: seq<seq<Byte>>, y: seq<Byte>, z: seq<seq<Byte>>)
    ensures Flatten(x + [y] + z) == Flatten(x) + y + Flatten(z)
  {
    FlattenAppend(x + [y], z);
    FlattenAppend(x, [y]);
    assert Flatten([y]) == y + Flatten([y][1..]) == y;
  }

  /** Reading `good`, then up to the end of a malformed header in `last`, then byte by byte. */
  function Cut(good: seq<Byte>, last: seq<Byte>, more: seq<Byte>): (cs: seq<seq<Byte>>)
    requires |last| <= 25
    ensures forall i :: 0 <= i < |cs| ==> |cs[i]| <= 25
  {
    Singles(good) + [last] + Singles(more)
  }

  /** If the header is dropped with nothing carried over, what follows adds the same to either cut. */
  lemma CutDelivers(good: seq<Byte>, last: seq<Byte>, more: seq<Byte>)
    requires |last| <= 25 && Deliver(START, Singles(good) + [last]).left == []
    ensures |Deliver(START, Cut(good, last, more)).events|
         == |Deliver(START, Singles(good) + [last]).events| + |Deliver(START, Singles(more)).events|
  {
    var d := Deliver(START, Singles(good) + [last]);
    DeliverAppend(START, Singles(good) + [last], Singles(more));
    DeliverFrom(d, Singles(more));
  }

  /**
   Every stream in which a malformed record follows a good one has two cuts, both into reads of at most 25 bytes,
   that deliver different events.
   */
  lemma MalformedDependsOnCuts(s: seq<Byte>) returns (a: seq<seq<Byte>>, b: seq<seq<Byte>>)
    requires Parse(s).BadLength? && Parse(s).events != []
    ensures Flatten(a) == s && Flatten(b) == s
    ensures forall i :: 0 <= i < |a| ==> |a[i]| <= 25
    ensures forall i :: 0 <= i < |b| ==> |b[i]| <= 25
    ensures Deliver(START, a).events != Deliver(START, b).events
  {
    var init, f, bad, more := LastRecordAndHeader(s);
    var good, n := Flatten(init + [f]), |f| - 1;
    var part := Flatten(init) + f[..n];
    a, b := Cut(good, bad, more), Cut(part, f[n..] + bad, more);
    CutFlattens(Singles(good), bad, Singles(more));
    CutFlattens(Singles(part), f[n..] + bad, Singles(more));
    SameBytes(init, f, n, bad, more);
    RecordsKept(Singles(good), init + [f], bad);
    LastRecordLost(Singles(part), init, f, n, bad);
    CutDelivers(good, bad, more);
    CutDelivers(part, f[n..] + bad, more);
    assert |DecodeAll(init + [f])| == |DecodeAll(init)| + 1;
  }

  lemma SameBytes(init: seq<seq<Byte>>, f: seq<Byte>, n: nat, bad: seq<Byte>, more: seq<Byte>)
    requires n <= |f|
    ensures Flatten(init + [f]) + bad + more == Flatten(init) + f + bad + more
    ensures Flatten(init) + f[..n] + (f[n..] + bad) + more == Flatten(init) + f + bad + more
  {
    FlattenAppend(init, [f]);
    FlattenOne(f);
    assert f == f[..n] + f[n..];
  }

  lemma LastRecordAndHeader(s: seq<Byte>)
    returns (init: seq<seq<Byte>>, f: seq<Byte>, bad: seq<Byte>, more: seq<Byte>)
    requires Parse(s).BadLength? && Parse(s).events != []
    ensures AllRecords(init) && IsRecord(f) && Malformed(bad) && |bad| == METADATA_SIZE
    ensures s == Flatten(init) + f + bad + more
  {
    var frames, tail := RecordsOfParse(s);
    init, f := frames[..|frames| - 1], frames[|frames| - 1];
    bad, more := tail[..METADATA_SIZE], tail[METADATA_SIZE..];
    assert tail == bad + more;
    HeadIsLocal(bad, more);
    assert frames == init + [f];
    FlattenAppend(init, [f]);
    FlattenOne(f);
  }

  // ---------- Exactly when cuts do not matter ----------

  /** However the stream is cut, the same events are delivered. */
  ghost predicate Independent(s: seq<Byte>) {
    forall a: seq<seq<Byte>>, b: seq<seq<Byte>> ::
      Flatten(a) == s && Flatten(b) == s ==> Deliver(START, a).events == Deliver(START, b).events
  }

  /** A complete record starts at offset `j`. */
  predicate RecordAt(s: seq<Byte>, j: nat) {
    j + METADATA_SIZE <= |s| && METADATA_SIZE <= EventLen(s[j..]) <= |s| - j
  }

  /** The stream is malformed from its first header on, and no complete record starts after that header. */
  ghost predicate Barren(s: seq<Byte>) {
    Malformed(s) && forall j :: METADATA_SIZE <= j < |s| ==> !RecordAt(s, j)
  }

  /** In a part of such a stream that starts after the first header nothing is decoded. */
  lemma NothingDecoded(s: seq<Byte>, p: nat, q: nat)
    requires Barren(s) && METADATA_SIZE <= p <= q <= |s|
    ensures Parse(s[p..q]).events == []
    ensures Parse(s[p..q]).Parsed? ==> Parse(s[p..q]).rest == s[p..q]
  {
    if q - p >= METADATA_SIZE {
      assert s[p..][..4] == s[p..q][..4];
      assert !RecordAt(s, p);
    }
  }

  /** What is carried over is a part that starts at the beginning, before the header is complete, or after it. */
  ghost predicate Carries(s: seq<Byte>, left: seq<Byte>, q: nat)
    requires q <= |s|
  {
    |left| <= q && left == s[q - |left|..q] && if |left| == q then q < METADATA_SIZE else q - |left| >= METADATA_SIZE
  }

  lemma BarrenStep(s: seq<Byte>, d: Delivery, q: nat, chunk: seq<Byte>)
    requires Barren(s) && q + |chunk| <= |s| && chunk == s[q..q + |chunk|]
    requires d.events == [] && Carries(s, d.left, q)
    ensures Deliver1(d, chunk).events == [] && Carries(s, Deliver1(d, chunk).left, q + |chunk|)
  {
    var p, r := q - |d.left|, q + |chunk|;
    assert d.left + chunk == s[p..r];
    if p == 0 {
      if r >= METADATA_SIZE { HeadIsLocal(s[..r], s[r..]); assert s == s[..r] + s[r..]; }
    } else {
      NothingDecoded(s, p, r);
    }
  }

  lemma PrefixParts(s: seq<Byte>, x: seq<Byte>, c: seq<Byte>)
    requires x + c <= s
    ensures x <= s && |x| + |c| <= |s| && c == s[|x|..|x| + |c|]
  {
    assert x == (x + c)[..|x|] == s[..|x|];
    assert c == (x + c)[|x|..] == s[..|x| + |c|][|x|..];
  }

  lemma SnocChunk(init: seq<seq<Byte>>, c: seq<Byte>)
    ensures Flatten(init + [c]) == Flatten(init) + c
    ensures Deliver(START, init + [c]) == Deliver1(Deliver(START, init), c)
  {
    FlattenAppend(init, [c]);
    FlattenOne(c);
    DeliverAppend(START, init, [c]);
    DeliverOne(Deliver(START, init), c);
  }

  /** After `chunks` nothing has been delivered, and what is carried over is such a part. */
  ghost predicate DeliversNothing(s: seq<Byte>, chunks: seq<seq<Byte>>) {
    && |Flatten(chunks)| <= |s|
    && Deliver(START, chunks).events == []
    && Carries(s, Deliver(START, chunks).left, |Flatten(chunks)|)
  }

  lemma BarrenSnoc(s: seq<Byte>, init: seq<seq<Byte>>, c: seq<Byte>)
    requires Barren(s) && Flatten(init) + c <= s && DeliversNothing(s, init)
    ensures DeliversNothing(s, init + [c])
  {
    SnocChunk(init, c);
    PrefixParts(s, Flatten(init), c);
    BarrenStep(s, Deliver(START, init), |Flatten(init)|, c);
  }

  lemma {:induction false} BarrenDelivers(s: seq<Byte>, chunks: seq<seq<Byte>>)
    requires Barren(s) && Flatten(chunks) <= s
    ensures DeliversNothing(s, chunks)
    decreases |chunks|
  {
    if chunks != [] {
      var init, c := chunks[..|chunks| - 1], chunks[|chunks| - 1];
      assert chunks == init + [c];
      SnocChunk(init, c);
      PrefixParts(s, Flatten(init), c);
      BarrenDelivers(s, init);
      BarrenSnoc(s, init, c);
    }
  }

  /** Later reads only add events. */
  lemma DeliverGrows(d: Delivery, chunks: seq<seq<Byte>>)
    ensures d.events <= Deliver(d, chunks).events
  {
    DeliverFrom(d, chunks);
  }

  /** A read that is one malformed header and whatever follows it leaves no trace. */
  lemma HeaderDropped(d: Delivery, chunk: seq<Byte>)
    requires d.left == [] && Malformed(chunk)
    ensures Deliver(d, [chunk]) == d
  {
    DeliverOne(d, chunk);
    assert [] + chunk == chunk && d.skipped + [] == d.skipped;
  }

  lemma RecordDelivered(d: Delivery, f: seq<Byte>)
    requires d.left == [] && IsRecord(f)
    ensures Deliver(d, [f]).events == d.events + [Decode(f)]
  {
    DeliverOne(d, f);
    assert [] + f == f;
    ParseOfRecords([f], []);
    FlattenOne(f);
    assert f + [] == f;
  }

  /** Reading up to a record after the malformed first header delivers the record. */
  lemma RecordReached(x: seq<Byte>, f: seq<Byte>, y: seq<Byte>)
    requires Malformed(x) && IsRecord(f)
    ensures Deliver(START, [x] + [f] + [y]).events != []
  {
    DeliverAppend(START, [x] + [f], [y]);
    DeliverAppend(START, [x], [f]);
    HeaderDropped(START, x);
    RecordDelivered(START, f);
    DeliverGrows(Deliver(START, [x] + [f]), [y]);
  }

  /** If a complete record starts after the malformed first header, two cuts deliver different events. */
  lemma RecordAfterHeader(s: seq<Byte>, j: nat)
    requires Malformed(s) && METADATA_SIZE <= j < |s| && RecordAt(s, j)
    ensures !Independent(s)
  {
    var n := EventLen(s[j..]);
    var x, f, y := s[..j], s[j..j + n], s[j + n..];
    assert s == x + f + y;
    assert s[j..] == f + y && s == x + s[j..];
    HeadIsLocal(x, s[j..]);
    HeadIsLocal(f, y);
    RecordReached(x, f, y);
    HeaderDropped(START, s);
    CutFlattens([x], f, [y]);
    FlattenOne(x);
    FlattenOne(y);
    FlattenOne(s);
    assert Flatten([s]) == s && Flatten([x] + [f] + [y]) == s;
  }

  lemma HeadDecides(s: seq<Byte>)
    ensures Malformed(s) <==> Parse(s).BadLength? && Parse(s).events == []
  {
  }

  /**
   Cuts do not matter exactly for the streams without malformed records and for those that are malformed from their
   first header on and have no complete record after it.
   */
  lemma IndependentExactly(s: seq<Byte>)
    ensures Independent(s) <==> Parse(s).Parsed? || Barren(s)
  {
    HeadDecides(s);
    if Parse(s).Parsed? || Barren(s) {
      forall a: seq<seq<Byte>>, b: seq<seq<Byte>> | Flatten(a) == s && Flatten(b) == s
        ensures Deliver(START, a).events == Deliver(START, b).events
      {
        if Parse(s).Parsed? {
          ChunkIndependence(a);
          ChunkIndependence(b);
        } else {
          BarrenDelivers(s, a);
          BarrenDelivers(s, b);
        }
      }
    } else if Parse(s).events != [] {
      var a, b := MalformedDependsOnCuts(s);
    } else {
      var j :| METADATA_SIZE <= j < |s| && RecordAt(s, j);
      RecordAfterHeader(s, j);
    }
  }
}
