/**
 The fanotify record decoder of internal/tap/fanotify_linux.go. A record is the
 `struct fanotify_event_metadata` of fanotify(7): event_len (4 bytes, little-endian), version,
 reserved, metadata_len, mask (8 bytes at offset 8), fd (signed, at 16), pid (signed, at 20),
 followed by event_len - 24 bytes that the decoder skips.
 */
module Fanotify {
  import opened Sequences

  type Byte = b: int | 0 <= b < 256

  const METADATA_SIZE := 24

  datatype Event = Event(pid: int, mask: nat, fd: int)

  /** The outcome of one call: the decoded events and the bytes to keep, or the events decoded before a bad length. */
  datatype Parsed =
    | Parsed(events: seq<Event>, rest: seq<Byte>)
    | BadLength(events: seq<Event>, eventLen: nat)

  function LittleEndian(b: seq<Byte>): nat {
    if b == [] then 0 else b[0] + 256 * LittleEndian(b[1..])
  }

  /** Go's conversion of a uint32 to int32. */
  function Int32(u: nat): int
    requires u < 0x1_0000_0000
  {
    if u < 0x8000_0000 then u else u - 0x1_0000_0000
  }

  function Pow256(n: nat): nat {
    if n == 0 then 1 else 256 * Pow256(n - 1)
  }

  lemma {:induction false} LittleEndianBound(b: seq<Byte>)
    ensures LittleEndian(b) < Pow256(|b|)
  {
    if b != [] { LittleEndianBound(b[1..]); }
  }

  function Uint32(b: seq<Byte>): (u: nat)
    requires |b| == 4
    ensures u < 0x1_0000_0000
  {
    LittleEndianBound(b);
    assert Pow256(4) == 0x1_0000_0000;
    LittleEndian(b)
  }

  /** The declared length of the record that starts `b`. */
  function EventLen(b: seq<Byte>): nat
    requires |b| >= METADATA_SIZE
  {
    Uint32(b[0..4])
  }

  function Decode(b: seq<Byte>): Event
    requires |b| >= METADATA_SIZE
  {
    Event(Int32(Uint32(b[20..24])), LittleEndian(b[8..16]), Int32(Uint32(b[16..20])))
  }

  function Prepend(events: seq<Event>, p: Parsed): Parsed {
    p.(events := events + p.events)
  }

  lemma PrependTwice(a: seq<Event>, b: seq<Event>, p: Parsed)
    ensures Prepend(a, Prepend(b, p)) == Prepend(a + b, p)
  {
  }

  function Parse(buf: seq<Byte>): Parsed
    decreases |buf|
  {
    if |buf| < METADATA_SIZE then Parsed([], buf)
    else if EventLen(buf) < METADATA_SIZE then BadLength([], EventLen(buf))
    else if EventLen(buf) > |buf| then Parsed([], buf)
    else Prepend([Decode(buf)], Parse(buf[EventLen(buf)..]))
  }

  /** The decoding loop. `err` is the offending length when the source returns an error. */
  method ParseEvents(buf: seq<Byte>) returns (out: seq<Event>, rest: seq<Byte>, err: Option<nat>)
    ensures err.None? ==> Parse(buf) == Parsed(out, rest) && |rest| <= |buf| && rest == buf[|buf| - |rest|..]
    ensures err.Some? ==> Parse(buf) == BadLength(out, err.value) && rest == []
  {
    out, rest, err := [], buf, None;
    while |rest| >= METADATA_SIZE
      invariant |rest| <= |buf| && rest == buf[|buf| - |rest|..]
      invariant Parse(buf) == Prepend(out, Parse(rest))
    {
      var eventLen := EventLen(rest);
      if eventLen < METADATA_SIZE {
        return out, [], Some(eventLen);
      }
      if eventLen > |rest| {
        break;
      }
      PrependTwice(out, [Decode(rest)], Parse(rest[eventLen..]));
      out := out + [Decode(rest)];
      rest := rest[eventLen..];
    }
  }

  // ---------- The format, stated without the decoder ----------

  /** `f` is exactly one complete record. */
  predicate IsRecord(f: seq<Byte>) {
    |f| >= METADATA_SIZE && EventLen(f) == |f|
  }

  /** `b` is a record cut short, or nothing. */
  predicate Incomplete(b: seq<Byte>) {
    |b| < METADATA_SIZE || EventLen(b) > |b|
  }

  predicate Malformed(b: seq<Byte>) {
    |b| >= METADATA_SIZE && EventLen(b) < METADATA_SIZE
  }

  ghost predicate AllRecords(frames: seq<seq<Byte>>) {
    forall i :: 0 <= i < |frames| ==> IsRecord(frames[i])
  }

  ghost function DecodeAll(frames: seq<seq<Byte>>): seq<Event>
    requires AllRecords(frames)
  {
    seq(|frames|, i requires 0 <= i < |frames| => Decode(frames[i]))
  }

  /** A record at the head of a buffer is read from its own bytes, whatever follows. */
  lemma HeadIsLocal(f: seq<Byte>, tail: seq<Byte>)
    requires |f| >= METADATA_SIZE
    ensures EventLen(f + tail) == EventLen(f) && Decode(f + tail) == Decode(f)
  {
    var b := f + tail;
    assert b[0..4] == f[0..4] && b[8..16] == f[8..16] && b[16..20] == f[16..20] && b[20..24] == f[20..24];
  }

  /**
   Any stream that is a run of records followed by a partial record decodes to those records and keeps that
   partial record; if a malformed header follows the run instead, the decoder reports it.
   */
  lemma {:induction false} ParseOfRecords(frames: seq<seq<Byte>>, tail: seq<Byte>)
    requires AllRecords(frames)
    ensures Incomplete(tail) ==> Parse(Flatten(frames) + tail) == Parsed(DecodeAll(frames), tail)
    ensures Malformed(tail) ==> Parse(Flatten(frames) + tail) == BadLength(DecodeAll(frames), EventLen(tail))
  {
    var buf := Flatten(frames) + tail;
    if frames == [] {
      assert buf == tail;
    } else {
      var f, more := frames[0], frames[1..];
      var next := Flatten(more) + tail;
      assert buf == f + next;
      HeadIsLocal(f, next);
      ParseOfRecords(more, tail);
      assert buf[|f|..] == next;
      assert DecodeAll(frames) == [Decode(f)] + DecodeAll(more);
    }
  }

  /** Conversely every buffer is such a run, so the decoder's answer is the only one the format allows. */
  lemma {:induction false} RecordsOfParse(buf: seq<Byte>) returns (frames: seq<seq<Byte>>, tail: seq<Byte>)
    ensures AllRecords(frames)
    ensures buf == Flatten(frames) + tail
    ensures Parse(buf).events == DecodeAll(frames)
    ensures Parse(buf).Parsed? ==> Incomplete(tail) && Parse(buf).rest == tail
    ensures Parse(buf).BadLength? ==> Malformed(tail)
    decreases |buf|
  {
    if |buf| < METADATA_SIZE || EventLen(buf) < METADATA_SIZE || EventLen(buf) > |buf| {
      frames, tail := [], buf;
    } else {
      var f, more := buf[..EventLen(buf)], buf[EventLen(buf)..];
      assert buf == f + more;
      HeadIsLocal(f, more);
      var fs, t := RecordsOfParse(more);
      frames, tail := [f] + fs, t;
      OneMoreRecord(f, fs, t);
    }
  }

  lemma OneMoreRecord(f: seq<Byte>, fs: seq<seq<Byte>>, t: seq<Byte>)
    requires IsRecord(f) && AllRecords(fs)
    ensures AllRecords([f] + fs) && DecodeAll([f] + fs) == [Decode(f)] + DecodeAll(fs)
    ensures Flatten([f] + fs) + t == f + (Flatten(fs) + t)
  {
    assert ([f] + fs)[1..] == fs;
  }

  // ---------- Encoding ----------

  /** `n` bytes of `v`, least significant first. */
  function Bytes(v: nat, n: nat): (b: seq<Byte>)
    ensures |b| == n
  {
    if n == 0 then [] else [v % 256] + Bytes(v / 256, n - 1)
  }

  lemma {:induction false} BytesRoundTrip(v: nat, n: nat)
    requires v < Pow256(n)
    ensures LittleEndian(Bytes(v, n)) == v
  {
    if n > 0 {
      assert v / 256 < Pow256(n - 1);
      BytesRoundTrip(v / 256, n - 1);
      assert Bytes(v, n)[1..] == Bytes(v / 256, n - 1);
    }
  }

  function Uint32Of(i: int): nat
    requires -0x8000_0000 <= i < 0x8000_0000
  {
    if i >= 0 then i else i + 0x1_0000_0000
  }

  /** What the kernel writes for an event, with `extra` information bytes after the metadata. */
  function Encode(e: Event, vers: Byte, extra: seq<Byte>): seq<Byte>
    requires -0x8000_0000 <= e.fd < 0x8000_0000 && -0x8000_0000 <= e.pid < 0x8000_0000
  {
    Bytes(METADATA_SIZE + |extra|, 4) + [vers, 0] + Bytes(METADATA_SIZE, 2)
      + Bytes(e.mask, 8) + Bytes(Uint32Of(e.fd), 4) + Bytes(Uint32Of(e.pid), 4) + extra
  }

  /** Every event the kernel can express survives the trip, sign of fd and pid included. */
  lemma EncodeDecode(e: Event, vers: Byte, extra: seq<Byte>)
    requires -0x8000_0000 <= e.fd < 0x8000_0000 && -0x8000_0000 <= e.pid < 0x8000_0000
    requires e.mask < 0x1_0000_0000_0000_0000 && METADATA_SIZE + |extra| < 0x1_0000_0000
    ensures IsRecord(Encode(e, vers, extra)) && Decode(Encode(e, vers, extra)) == e
  {
    var b := Encode(e, vers, extra);
    assert Pow256(4) == 0x1_0000_0000;
    assert Pow256(8) == 0x1_0000_0000_0000_0000 by { assert Pow256(8) == 256 * 256 * 256 * 256 * Pow256(4); }
    BytesRoundTrip(METADATA_SIZE + |extra|, 4);
    BytesRoundTrip(e.mask, 8);
    BytesRoundTrip(Uint32Of(e.fd), 4);
    BytesRoundTrip(Uint32Of(e.pid), 4);
    assert b[0..4] == Bytes(METADATA_SIZE + |extra|, 4);
    assert b[8..16] == Bytes(e.mask, 8);
    assert b[16..20] == Bytes(Uint32Of(e.fd), 4);
    assert b[20..24] == Bytes(Uint32Of(e.pid), 4);
  }

  // ---------- Splitting a stream ----------

  /** Parsing a stream in two parts, carrying the rest of the first into the second, is parsing it whole. */
  lemma {:induction false} ParseAppend(a: seq<Byte>, b: seq<Byte>)
    requires Parse(a).Parsed?
    ensures Parse(a + b) == Prepend(Parse(a).events, Parse(Parse(a).rest + b))
    decreases |a|
  {
    if |a| < METADATA_SIZE || EventLen(a) > |a| {
      assert Prepend([], Parse(a + b)) == Parse(a + b);
    } else {
      var n := EventLen(a);
      HeadIsLocal(a, b);
      assert (a + b)[n..] == a[n..] + b;
      ParseAppend(a[n..], b);
      PrependTwice([Decode(a)], Parse(a[n..]).events, Parse(Parse(a[n..]).rest + b));
    }
  }

  /** A prefix of a stream without malformed records has none either. */
  lemma {:induction false} PrefixParses(a: seq<Byte>, b: seq<Byte>)
    requires Parse(a + b).Parsed?
    ensures Parse(a).Parsed?
    decreases |a|
  {
    if |a| >= METADATA_SIZE {
      HeadIsLocal(a, b);
      if EventLen(a) <= |a| {
        var n := EventLen(a);
        assert (a + b)[n..] == a[n..] + b;
        PrefixParses(a[n..], b);
      }
    }
  }
}
