/** What both taps decide about an event and count: the verdicts of the filter and the counters of internal/tap/tap.go. */
module TapBooks {
  import Wire

  /** Why an event is or is not forwarded; one without a path (Linux) or without an event (macOS) is unresolved. */
  datatype Verdict = Unresolved | Outside | Excluded | Kept(out: Wire.Event)

  /** The forwarded events, in order. */
  function Forwarded(vs: seq<Verdict>): seq<Wire.Event> {
    if vs == [] then []
    else Forwarded(vs[..|vs| - 1]) + match vs[|vs| - 1] { case Kept(out) => [out] case _ => [] }
  }

  function Count(vs: seq<Verdict>, v: Verdict): nat {
    if vs == [] then 0 else Count(vs[..|vs| - 1], v) + if vs[|vs| - 1] == v then 1 else 0
  }

  /** The positions of the kept verdicts. */
  function KeptAt(vs: seq<Verdict>): (at: seq<int>)
    ensures forall k :: 0 <= k < |at| ==> 0 <= at[k] < |vs|
  {
    if vs == [] then [] else KeptAt(vs[..|vs| - 1]) + if vs[|vs| - 1].Kept? then [|vs| - 1] else []
  }

  /** What is forwarded are the records of the kept verdicts, */
  lemma {:induction false} ForwardedAreKept(vs: seq<Verdict>)
    ensures |KeptAt(vs)| == |Forwarded(vs)|
    ensures forall k :: 0 <= k < |KeptAt(vs)| ==> vs[KeptAt(vs)[k]] == Kept(Forwarded(vs)[k])
  {
    if vs != [] {
      ForwardedAreKept(vs[..|vs| - 1]);
      assert forall i :: 0 <= i < |vs| - 1 ==> vs[..|vs| - 1][i] == vs[i];
    }
  }

  /** in order, */
  lemma {:induction false} KeptInOrder(vs: seq<Verdict>)
    ensures forall j, k :: 0 <= j < k < |KeptAt(vs)| ==> KeptAt(vs)[j] < KeptAt(vs)[k]
  {
    if vs != [] { KeptInOrder(vs[..|vs| - 1]); }
  }

  /** and all of them. */
  lemma {:induction false} AllKept(vs: seq<Verdict>, i: nat) returns (k: nat)
    requires i < |vs| && vs[i].Kept?
    ensures k < |KeptAt(vs)| && KeptAt(vs)[k] == i
  {
    if i < |vs| - 1 {
      k := AllKept(vs[..|vs| - 1], i);
    } else {
      k := |KeptAt(vs)| - 1;
    }
  }

  datatype Tally = Tally(lines: nat, parsed: nat, dropped: nat, excluded: nat, kept: nat)

  function Add(t: Tally, v: Verdict): Tally {
    match v
    case Unresolved => t.(lines := t.lines + 1)
    case Outside => t.(lines := t.lines + 1, parsed := t.parsed + 1, dropped := t.dropped + 1)
    case Excluded => t.(lines := t.lines + 1, parsed := t.parsed + 1, excluded := t.excluded + 1)
    case Kept(_) => t.(lines := t.lines + 1, parsed := t.parsed + 1, kept := t.kept + 1)
  }

  /** The counters after a run of verdicts. */
  function TallyOf(vs: seq<Verdict>): Tally {
    if vs == [] then Tally(0, 0, 0, 0, 0) else Add(TallyOf(vs[..|vs| - 1]), vs[|vs| - 1])
  }

  /** Each counter counts the verdicts it is named for, and none is counted twice or missed. */
  lemma {:induction false} TallyCounts(vs: seq<Verdict>)
    ensures var t := TallyOf(vs);
            && t.lines == |vs|
            && t.parsed == |vs| - Count(vs, Unresolved)
            && t.dropped == Count(vs, Outside)
            && t.excluded == Count(vs, Excluded)
            && t.kept == |Forwarded(vs)|
            && t.parsed == t.kept + t.dropped + t.excluded
  {
    if vs != [] { TallyCounts(vs[..|vs| - 1]); }
  }

  lemma TallySnoc(vs: seq<Verdict>, v: Verdict)
    ensures TallyOf(vs + [v]) == Add(TallyOf(vs), v)
    ensures Forwarded(vs + [v]) == Forwarded(vs) + if v.Kept? then [v.out] else []
  {
  }
}
