/**
 The merge of agentflash's own hooks into a Claude settings file (main.go). Settings are JSON
 trees; encoding and decoding JSON text are parameters.
 */
module HookMerge {
  import opened Sequences

  datatype Json =
    | Null
    | Bool(b: bool)
    | Num(n: real)
    | Str(s: string)
    | Arr(items: seq<Json>)
    | Obj(fields: map<string, Json>)

  datatype HookCmd = HookCmd(typ: string, command: string, timeout: int)
  datatype HookEntry = HookEntry(matcher: string, hooks: seq<HookCmd>)

  type Hooks = map<string, seq<HookEntry>>

  // ---------- Our own entries ----------

  const CURL := "curl -fsS -X POST "
  const HEADER_NAME := " -H 'Content-Type"
  const HEADER_VALUE := " application/json' --data-binary @-"

  function Url(addr: string): string {
    "http://" + addr + "/api/claude/event"
  }

  function Command(addr: string): string {
    CURL + Url(addr) + HEADER_NAME + ":" + HEADER_VALUE
  }

  function BuildHooks(cmd: string): Hooks {
    var all := [HookEntry(".*", [HookCmd("command", cmd, 5)])];
    var plain := [HookEntry("", [HookCmd("command", cmd, 5)])];
    map["PreToolUse" := all, "PostToolUse" := all, "UserPromptSubmit" := plain, "SessionStart" := plain,
        "Stop" := plain, "Notification" := plain, "SubagentStop" := plain]
  }

  /** The JSON of a hook command; a zero timeout is left out. */
  function EncodeCmd(c: HookCmd): Json {
    var base := map["type" := Str(c.typ), "command" := Str(c.command)];
    Obj(if c.timeout == 0 then base else base["timeout" := Num(c.timeout as real)])
  }

  /** The JSON of an entry; an empty matcher is left out. */
  function EncodeEntry(e: HookEntry): Json {
    var base := map["hooks" := Arr(seq(|e.hooks|, i requires 0 <= i < |e.hooks| => EncodeCmd(e.hooks[i])))];
    Obj(if e.matcher == "" then base else base["matcher" := Str(e.matcher)])
  }

  function EncodeAll(es: seq<HookEntry>): seq<Json> {
    seq(|es|, i requires 0 <= i < |es| => EncodeEntry(es[i]))
  }

  // ---------- Which entries are ours ----------

  predicate At(s: string, sub: string, i: nat) {
    i + |sub| <= |s| && s[i..i + |sub|] == sub
  }

  predicate Contains(s: string, sub: string) {
    exists i :: 0 <= i <= |s| && At(s, sub, i)
  }

  function CommandOf(h: Json): string {
    if h.Obj? && "command" in h.fields && h.fields["command"].Str? then h.fields["command"].s else ""
  }

  /** The hooks array of an entry, empty when the entry has another shape. */
  function HooksIn(entry: Json): seq<Json> {
    if entry.Obj? && "hooks" in entry.fields && entry.fields["hooks"].Arr? then entry.fields["hooks"].items else []
  }

  predicate HookPostsTo(h: Json, url: string) {
    h.Obj? && Contains(CommandOf(h), url)
  }

  predicate References(entry: Json, url: string) {
    exists i :: 0 <= i < |HooksIn(entry)| && HookPostsTo(HooksIn(entry)[i], url)
  }

  method EntryReferencesURL(entry: Json, url: string) returns (found: bool)
    ensures found <==> References(entry, url)
  {
    if !entry.Obj? || "hooks" !in entry.fields || !entry.fields["hooks"].Arr? {
      return false;
    }
    var hooks := entry.fields["hooks"].items;
    for i := 0 to |hooks|
      invariant forall j :: 0 <= j < i ==> !HookPostsTo(hooks[j], url)
    {
      if !hooks[i].Obj? {
        continue;
      }
      if Contains(CommandOf(hooks[i]), url) {
        assert HookPostsTo(HooksIn(entry)[i], url);
        return true;
      }
    }
    return false;
  }

  // ---------- The merge on values ----------

  function Refers(url: string): Json -> bool {
    entry => References(entry, url)
  }

  /** The entries that do not reference `url`. */
  function Kept(items: seq<Json>, url: string): seq<Json> {
    Drop(items, Refers(url))
  }

  /** The array under an event; anything else counts as empty. */
  function ItemsAt(hooks: map<string, Json>, evt: string): seq<Json> {
    if evt in hooks && hooks[evt].Arr? then hooks[evt].items else []
  }

  function HooksOf(settings: map<string, Json>): map<string, Json> {
    if "hooks" in settings && settings["hooks"].Obj? then settings["hooks"].fields else map[]
  }

  /** The hooks after the events in `done` have been merged. */
  function MergeSome(hooks: map<string, Json>, ours: Hooks, url: string, done: set<string>): map<string, Json>
    requires done <= ours.Keys
  {
    map evt | evt in hooks.Keys + done ::
      if evt in done then Arr(Kept(ItemsAt(hooks, evt), url) + EncodeAll(ours[evt])) else hooks[evt]
  }

  function MergeHooks(hooks: map<string, Json>, ours: Hooks, url: string): map<string, Json> {
    MergeSome(hooks, ours, url, ours.Keys)
  }

  function Merge(settings: map<string, Json>, ours: Hooks, url: string): map<string, Json> {
    settings["hooks" := Obj(MergeHooks(HooksOf(settings), ours, url))]
  }

  // ---------- The file ----------

  datatype File = Missing | Unreadable | Content(data: string)

  /** Decoding text into a settings object. */
  datatype Decoded = Object(fields: map<string, Json>) | NullValue | Invalid

  datatype Codec = Codec(decode: string -> Decoded, encode: map<string, Json> -> string)

  /** Whether creating the directory and writing the file fail. */
  datatype Disk = Disk(mkdirFails: bool, writeFails: bool)

  datatype Outcome = MkdirError | ParseError | ReadError | Unchanged | WriteError | Wrote(data: string)

  /** What is in the file after a call. */
  function FileAfter(file: File, r: Outcome): File {
    if r.Wrote? then Content(r.data) else file
  }

  /** The settings a file holds, if it can be merged into. */
  function SettingsIn(file: File, codec: Codec): Option<map<string, Json>> {
    match file
    case Missing => Some(map[])
    case Unreadable => None
    case Content(data) =>
      if data == "" then Some(map[])
      else match codec.decode(data) {
        case Object(fields) => Some(fields)
        case NullValue => Some(map[])
        case Invalid => None
      }
  }

  lemma MergeNext(hooks: map<string, Json>, ours: Hooks, url: string, done: set<string>, evt: string)
    requires done <= ours.Keys && evt in ours && evt !in done
    ensures ItemsAt(MergeSome(hooks, ours, url, done), evt) == ItemsAt(hooks, evt)
    ensures MergeSome(hooks, ours, url, done + {evt})
         == MergeSome(hooks, ours, url, done)[evt := Arr(Kept(ItemsAt(hooks, evt), url) + EncodeAll(ours[evt]))]
  {
  }

  lemma TakeOut(all: set<string>, todo: set<string>, evt: string)
    requires evt in todo && todo <= all
    ensures all - (todo - {evt}) == (all - todo) + {evt}
  {
  }

  /** The loop over the events, in any order. */
  method MergeInto(hooks: map<string, Json>, ours: Hooks, url: string) returns (merged: map<string, Json>)
    ensures merged == MergeHooks(hooks, ours, url)
  {
    merged := hooks;
    var todo := ours.Keys;
    assert MergeSome(hooks, ours, url, {}) == hooks;
    while todo != {}
      invariant todo <= ours.Keys
      invariant merged == MergeSome(hooks, ours, url, ours.Keys - todo)
    {
      var evt :| evt in todo;
      MergeNext(hooks, ours, url, ours.Keys - todo, evt);
      TakeOut(ours.Keys, todo, evt);
      todo := todo - {evt};
      var items := MergeEvent(ItemsAt(merged, evt), ours[evt], url);
      merged := merged[evt := Arr(items)];
    }
    assert ours.Keys - todo == ours.Keys;
  }

  /** One event: prior entries of ours are dropped, then ours are appended. */
  method MergeEvent(existing: seq<Json>, entries: seq<HookEntry>, url: string) returns (kept: seq<Json>)
    ensures kept == Kept(existing, url) + EncodeAll(entries)
  {
    kept := [];
    for i := 0 to |existing|
      invariant kept == Kept(existing[..i], url)
    {
      assert existing[..i + 1][..i] == existing[..i];
      var own := EntryReferencesURL(existing[i], url);
      if own {
        continue;
      }
      kept := kept + [existing[i]];
    }
    assert existing[..|existing|] == existing;
    for i := 0 to |entries|
      invariant kept == Kept(existing, url) + EncodeAll(entries)[..i]
    {
      kept := kept + [EncodeEntry(entries[i])];
    }
    assert EncodeAll(entries)[..|entries|] == EncodeAll(entries);
  }

  /** The outcome of a call that gets as far as writing `out`. */
  ghost predicate Writes(file: File, out: string, disk: Disk, r: Outcome) {
    if file == Content(out) then r == Unchanged else if disk.writeFails then r == WriteError else r == Wrote(out)
  }

  /**
   The merge of our hooks into a settings file. Content that is no settings object is refused and left alone; a
   missing file, an empty one and JSON null count as empty settings.
   */
  method ApplyHooks(file: File, ours: Hooks, url: string, codec: Codec, disk: Disk) returns (r: Outcome)
    ensures disk.mkdirFails ==> r == MkdirError
    ensures !disk.mkdirFails && file == Unreadable ==> r == ReadError
    ensures !disk.mkdirFails && file.Content? && file.data != "" && codec.decode(file.data) == Invalid ==> r == ParseError
    ensures !disk.mkdirFails && (file == Missing || file == Content("")) ==>
              Writes(file, codec.encode(Merge(map[], ours, url)) + "\n", disk, r)
    ensures !disk.mkdirFails && file.Content? && file.data != "" && codec.decode(file.data) == NullValue ==>
              Writes(file, codec.encode(Merge(map[], ours, url)) + "\n", disk, r)
    ensures !disk.mkdirFails && file.Content? && file.data != "" && codec.decode(file.data).Object? ==>
              Writes(file, codec.encode(Merge(codec.decode(file.data).fields, ours, url)) + "\n", disk, r)
    ensures !r.Wrote? ==> FileAfter(file, r) == file
    ensures r.Wrote? ==> FileAfter(file, r) == Content(r.data)
  {
    if disk.mkdirFails {
      return MkdirError;
    }
    var settings: map<string, Json> := map[];
    if file.Unreadable? {
      return ReadError;
    }
    if file.Content? && file.data != "" {
      var d := codec.decode(file.data);
      if d.Invalid? {
        return ParseError;
      }
      if d.Object? { settings := d.fields; }
    }
    var hooksAny := HooksOf(settings);
    hooksAny := MergeInto(hooksAny, ours, url);
    settings := settings["hooks" := Obj(hooksAny)];
    var out := codec.encode(settings) + "\n";
    if file.Content? && file.data != "" && file.data == out {
      return Unchanged;
    }
    if disk.writeFails {
      return WriteError;
    }
    return Wrote(out);
  }

  // ---------- What a merge holds, and what ours are ----------

  /** The array under event `evt` of a settings object; nothing, or anything of another shape, counts as empty. */
  ghost predicate Holds(settings: map<string, Json>, evt: string, items: seq<Json>) {
    if "hooks" in settings && settings["hooks"].Obj? && evt in settings["hooks"].fields && settings["hooks"].fields[evt].Arr?
    then items == settings["hooks"].fields[evt].items
    else items == []
  }

  /** A merge, in full: our events hold what they held without the entries that reference the URL, then ours. */
  lemma MergeExactly(settings: map<string, Json>, ours: Hooks, url: string, evt: string, items: seq<Json>)
    requires evt in ours && Holds(settings, evt, items)
    ensures var m := Merge(settings, ours, url);
            && "hooks" in m && m["hooks"].Obj? && evt in m["hooks"].fields
            && m["hooks"].fields[evt] == Arr(Drop(items, e => References(e, url)) + EncodeAll(ours[evt]))
  {
    assert items == ItemsAt(HooksOf(settings), evt);
    DropSame(items, Refers(url), e => References(e, url));
  }

  lemma {:induction false} DropSame(items: seq<Json>, p: Json -> bool, q: Json -> bool)
    requires forall i :: 0 <= i < |items| ==> p(items[i]) == q(items[i])
    ensures Drop(items, p) == Drop(items, q)
  {
    if items != [] {
      var init := items[..|items| - 1];
      assert forall i :: 0 <= i < |init| ==> init[i] == items[i];
      DropSame(init, p, q);
    }
  }

  /** The value posts to `url`: an object with a command string that has the URL somewhere. */
  ghost predicate Posts(h: Json, url: string) {
    && h.Obj? && "command" in h.fields && h.fields["command"].Str?
    && var cmd := h.fields["command"].s;
       exists k :: 0 <= k <= |cmd| && url <= cmd[k..]
  }

  /** An entry references a URL exactly when it is an object whose hooks array has a value that posts to it. */
  lemma ReferencesExactly(entry: Json, url: string)
    requires url != ""
    ensures References(entry, url) <==>
              && entry.Obj? && "hooks" in entry.fields && entry.fields["hooks"].Arr?
              && exists i :: 0 <= i < |entry.fields["hooks"].items| && Posts(entry.fields["hooks"].items[i], url)
  {
    var items := HooksIn(entry);
    forall i | 0 <= i < |items|
      ensures HookPostsTo(items[i], url) <==> Posts(items[i], url)
    {
      PostsExactly(items[i], url);
    }
  }

  lemma PostsExactly(h: Json, url: string)
    requires url != ""
    ensures HookPostsTo(h, url) <==> Posts(h, url)
  {
    var cmd := CommandOf(h);
    if HookPostsTo(h, url) {
      var k :| 0 <= k <= |cmd| && At(cmd, url, k);
      assert cmd[k..][..|url|] == cmd[k..k + |url|];
    }
    if Posts(h, url) {
      var k :| 0 <= k <= |cmd| && url <= cmd[k..];
      assert cmd[k..][..|url|] == cmd[k..k + |url|];
      assert At(cmd, url, k);
    }
  }

  /** The JSON of our one entry for an event: one command with a timeout of five seconds, and a matcher for tools. */
  function OwnEntry(cmd: string, forTools: bool): Json {
    var hook := Obj(map["type" := Str("command"), "command" := Str(cmd), "timeout" := Num(5.0)]);
    if forTools then Obj(map["matcher" := Str(".*"), "hooks" := Arr([hook])]) else Obj(map["hooks" := Arr([hook])])
  }

  /** Our entries: seven events, and the two about tools match every tool. */
  lemma BuiltExactly(cmd: string)
    ensures BuildHooks(cmd).Keys == {"PreToolUse", "PostToolUse"}
                                    + {"UserPromptSubmit", "SessionStart", "Stop", "Notification", "SubagentStop"}
    ensures forall evt :: evt in BuildHooks(cmd) ==>
              EncodeAll(BuildHooks(cmd)[evt]) == [OwnEntry(cmd, evt == "PreToolUse" || evt == "PostToolUse")]
  {
    EncodedExactly(cmd, ".*");
    EncodedExactly(cmd, "");
  }

  lemma EncodedExactly(cmd: string, matcher: string)
    requires matcher == ".*" || matcher == ""
    ensures EncodeAll([HookEntry(matcher, [HookCmd("command", cmd, 5)])]) == [OwnEntry(cmd, matcher == ".*")]
  {
    var hook := HookCmd("command", cmd, 5);
    var entry := HookEntry(matcher, [hook]);
    assert EncodeCmd(hook) == Obj(map["type" := Str("command"), "command" := Str(cmd), "timeout" := Num(5.0)]);
    assert seq(|entry.hooks|, i requires 0 <= i < |entry.hooks| => EncodeCmd(entry.hooks[i])) == [EncodeCmd(hook)];
    assert EncodeAll([entry]) == [EncodeEntry(entry)];
    assert EncodeEntry(entry) == OwnEntry(cmd, matcher == ".*");
  }

  /** The command line that is written for an address. */
  lemma CommandExactly(addr: string)
    ensures Url(addr) == "http://" + addr + "/api/claude/event"
    ensures Command(addr) == "curl -fsS -X POST " + ("http://" + addr + "/api/claude/event")
                             + " -H 'Content-Type" + ":" + " application/json' --data-binary @-"
  {
  }

  // ---------- Algebra ----------

  /** Every entry of `ours` references `url`. */
  predicate SelfReferencing(ours: Hooks, url: string) {
    forall evt :: evt in ours ==> forall i :: 0 <= i < |ours[evt]| ==> References(EncodeEntry(ours[evt][i]), url)
  }

  /** Kept entries are those that do not reference the URL, in their old order. */
  lemma KeptInOrder(items: seq<Json>, url: string) returns (at: seq<int>)
    ensures Increasing(at) && |at| == |Kept(items, url)|
    ensures forall k :: 0 <= k < |at| ==> 0 <= at[k] < |items| && Kept(items, url)[k] == items[at[k]]
    ensures forall i :: 0 <= i < |items| ==> (i in at <==> !References(items[i], url))
  {
    at := KeptAt(items, Refers(url));
    KeptAtIncreases(items, Refers(url));
    KeptAtFinds(items, Refers(url));
    forall i | 0 <= i < |items|
      ensures i in at <==> !References(items[i], url)
    {
      KeptAtCovers(items, Refers(url), i);
    }
  }

  lemma OwnEntriesDrop(ours: Hooks, url: string, evt: string)
    requires evt in ours
    ensures Kept(EncodeAll(ours[evt]), url) == []
       <==> forall i :: 0 <= i < |ours[evt]| ==> References(EncodeEntry(ours[evt][i]), url)
  {
    var own := EncodeAll(ours[evt]);
    DropAll(own, Refers(url));
    assert forall i :: 0 <= i < |own| ==> own[i] == EncodeEntry(ours[evt][i]);
  }

  /** Merging depends only on the kept entries of our events and on the other events. */
  lemma SameMerge(h1: map<string, Json>, h2: map<string, Json>, ours: Hooks, url: string)
    requires h1.Keys + ours.Keys == h2.Keys + ours.Keys
    requires forall evt :: evt in ours ==> Kept(ItemsAt(h1, evt), url) == Kept(ItemsAt(h2, evt), url)
    requires forall evt :: evt in h1 && evt !in ours ==> evt in h2 && h1[evt] == h2[evt]
    ensures MergeHooks(h1, ours, url) == MergeHooks(h2, ours, url)
  {
  }

  lemma MergedItems(hooks: map<string, Json>, ours: Hooks, url: string, evt: string)
    requires evt in ours
    ensures ItemsAt(MergeHooks(hooks, ours, url), evt) == Kept(ItemsAt(hooks, evt), url) + EncodeAll(ours[evt])
  {
  }

  lemma MergeHooksTwice(hooks: map<string, Json>, ours: Hooks, url: string)
    requires SelfReferencing(ours, url)
    ensures MergeHooks(MergeHooks(hooks, ours, url), ours, url) == MergeHooks(hooks, ours, url)
  {
    var once := MergeHooks(hooks, ours, url);
    forall evt | evt in ours
      ensures Kept(ItemsAt(once, evt), url) == Kept(ItemsAt(hooks, evt), url)
    {
      MergedItems(hooks, ours, url, evt);
      DropAppend(Kept(ItemsAt(hooks, evt), url), EncodeAll(ours[evt]), Refers(url));
      DropCommutes(ItemsAt(hooks, evt), Refers(url), Refers(url));
      OwnEntriesDrop(ours, url, evt);
    }
    SameMerge(once, hooks, ours, url);
  }

  lemma RepeatGrows(hooks: map<string, Json>, ours: Hooks, url: string, evt: string)
    requires evt in ours && Kept(EncodeAll(ours[evt]), url) != []
    ensures MergeHooks(MergeHooks(hooks, ours, url), ours, url) != MergeHooks(hooks, ours, url)
  {
    var once := MergeHooks(hooks, ours, url);
    var items, own := ItemsAt(hooks, evt), EncodeAll(ours[evt]);
    MergedItems(hooks, ours, url, evt);
    MergedItems(once, ours, url, evt);
    DropAppend(Kept(items, url), own, Refers(url));
    DropCommutes(items, Refers(url), Refers(url));
    assert |ItemsAt(MergeHooks(once, ours, url), evt)| > |ItemsAt(once, evt)|;
  }

  lemma HooksOfMerge(settings: map<string, Json>, ours: Hooks, url: string)
    ensures HooksOf(Merge(settings, ours, url)) == MergeHooks(HooksOf(settings), ours, url)
  {
  }

  lemma MergeAfterMerge(settings: map<string, Json>, h: map<string, Json>, ours: Hooks, url: string)
    ensures Merge(settings["hooks" := Obj(h)], ours, url) == settings["hooks" := Obj(MergeHooks(h, ours, url))]
  {
  }

  /** Merging again changes nothing exactly when every one of our entries contains our URL. */
  lemma MergeIsIdempotent(settings: map<string, Json>, ours: Hooks, url: string)
    ensures Merge(Merge(settings, ours, url), ours, url) == Merge(settings, ours, url) <==> SelfReferencing(ours, url)
  {
    var h := HooksOf(settings);
    var once := MergeHooks(h, ours, url);
    MergeAfterMerge(settings, once, ours, url);
    if SelfReferencing(ours, url) {
      MergeHooksTwice(h, ours, url);
    } else {
      var evt :| evt in ours && !forall i :: 0 <= i < |ours[evt]| ==> References(EncodeEntry(ours[evt][i]), url);
      OwnEntriesDrop(ours, url, evt);
      RepeatGrows(h, ours, url, evt);
      HooksOfMerge(settings, ours, url);
      HooksOfMerge(Merge(settings, ours, url), ours, url);
    }
  }

  lemma DropsMeet(items: seq<Json>, p: Json -> bool, q: Json -> bool)
    ensures Drop(Drop(Drop(items, p), q), p) == Drop(Drop(items, q), p)
  {
    DropCommutes(items, p, q);
    DropCommutes(Drop(items, p), p, q);
  }

  lemma OwnVanish(own: seq<Json>, p: Json -> bool, q: Json -> bool)
    requires Drop(own, p) == []
    ensures Drop(Drop(own, q), p) == []
  {
    DropCommutes(own, p, q);
  }

  lemma ItemsAbsorb(items: seq<Json>, own: seq<Json>, p: Json -> bool, other: seq<Json>, q: Json -> bool)
    requires Drop(own, p) == []
    ensures Drop(Drop(Drop(items, p) + own, q) + other, p) == Drop(Drop(items, q) + other, p)
  {
    var first := Drop(items, p);
    var x, y := Drop(first, q), Drop(own, q);
    DropAppend(first, own, q);
    DropAppend(x + y, other, p);
    DropAppend(x, y, p);
    OwnVanish(own, p, q);
    DropsMeet(items, p, q);
    DropAppend(Drop(items, q), other, p);
    assert Drop(x, p) + [] == Drop(x, p);
  }

  lemma AbsorbAt(h: map<string, Json>, oursA: Hooks, a: string, oursB: Hooks, b: string, evt: string)
    requires SelfReferencing(oursA, a) && evt in oursA && evt in oursB
    ensures Kept(ItemsAt(MergeHooks(MergeHooks(h, oursA, a), oursB, b), evt), a)
         == Kept(ItemsAt(MergeHooks(h, oursB, b), evt), a)
  {
    MergedItems(h, oursA, a, evt);
    MergedItems(MergeHooks(h, oursA, a), oursB, b, evt);
    MergedItems(h, oursB, b, evt);
    OwnEntriesDrop(oursA, a, evt);
    ItemsAbsorb(ItemsAt(h, evt), EncodeAll(oursA[evt]), Refers(a), EncodeAll(oursB[evt]), Refers(b));
  }

  lemma HooksAbsorb(h: map<string, Json>, oursA: Hooks, a: string, oursB: Hooks, b: string)
    requires SelfReferencing(oursA, a) && oursA.Keys == oursB.Keys
    ensures MergeHooks(MergeHooks(MergeHooks(h, oursA, a), oursB, b), oursA, a)
         == MergeHooks(MergeHooks(h, oursB, b), oursA, a)
  {
    forall evt | evt in oursA
      ensures Kept(ItemsAt(MergeHooks(MergeHooks(h, oursA, a), oursB, b), evt), a)
           == Kept(ItemsAt(MergeHooks(h, oursB, b), evt), a)
    {
      AbsorbAt(h, oursA, a, oursB, b, evt);
    }
    SameMerge(MergeHooks(MergeHooks(h, oursA, a), oursB, b), MergeHooks(h, oursB, b), oursA, a);
  }

  /** After another installation has merged, merging ours makes an earlier merge of ours invisible. */
  lemma LaterMergeAbsorbs(settings: map<string, Json>, oursA: Hooks, a: string, oursB: Hooks, b: string)
    requires SelfReferencing(oursA, a) && oursA.Keys == oursB.Keys
    ensures Merge(Merge(Merge(settings, oursA, a), oursB, b), oursA, a) == Merge(Merge(settings, oursB, b), oursA, a)
  {
    var h := HooksOf(settings);
    var ha, hb := MergeHooks(h, oursA, a), MergeHooks(h, oursB, b);
    HooksAbsorb(h, oursA, a, oursB, b);
    MergeAfterMerge(settings, ha, oursB, b);
    MergeAfterMerge(settings, MergeHooks(ha, oursB, b), oursA, a);
    MergeAfterMerge(settings, hb, oursA, a);
  }

  /** When B's entries do not mention A's URL, merging A after B leaves B's entries in place, in front of A's. */
  lemma BothInstallationsSurvive(hooks: map<string, Json>, oursA: Hooks, a: string, oursB: Hooks, b: string, evt: string)
    requires evt in oursA && evt in oursB
    requires forall i :: 0 <= i < |oursB[evt]| ==> !References(EncodeEntry(oursB[evt][i]), a)
    ensures ItemsAt(MergeHooks(MergeHooks(hooks, oursB, b), oursA, a), evt)
         == Kept(Kept(ItemsAt(hooks, evt), b), a) + EncodeAll(oursB[evt]) + EncodeAll(oursA[evt])
  {
    var own := EncodeAll(oursB[evt]);
    MergedItems(hooks, oursB, b, evt);
    MergedItems(MergeHooks(hooks, oursB, b), oursA, a, evt);
    DropAppend(Kept(ItemsAt(hooks, evt), b), own, Refers(a));
    DropNone(own, Refers(a));
  }

  lemma {:induction false} DropNone(items: seq<Json>, drop: Json -> bool)
    requires forall i :: 0 <= i < |items| ==> !drop(items[i])
    ensures Drop(items, drop) == items
  {
    if items != [] { DropNone(items[..|items| - 1], drop); }
  }

  /** Everything outside "hooks", and every event that is not ours, is left alone. */
  lemma OthersUntouched(settings: map<string, Json>, ours: Hooks, url: string)
    ensures var m := Merge(settings, ours, url);
            && m.Keys == settings.Keys + {"hooks"}
            && (forall k :: k in settings && k != "hooks" ==> m[k] == settings[k])
            && (forall evt :: evt in HooksOf(settings) && evt !in ours ==>
                  evt in HooksOf(m) && HooksOf(m)[evt] == HooksOf(settings)[evt])
            && HooksOf(m).Keys == HooksOf(settings).Keys + ours.Keys
  {
  }

  // ---------- Our own command ----------

  lemma EntryReferencesIffCommand(matcher: string, cmd: string, url: string)
    ensures References(EncodeEntry(HookEntry(matcher, [HookCmd("command", cmd, 5)])), url) <==> Contains(cmd, url)
  {
    var e := HookEntry(matcher, [HookCmd("command", cmd, 5)]);
    var hs := HooksIn(EncodeEntry(e));
    assert |hs| == 1 && hs[0] == EncodeCmd(e.hooks[0]);
    assert CommandOf(hs[0]) == cmd;
    assert HookPostsTo(hs[0], url) <==> Contains(cmd, url);
  }

  /** The hooks we build reference exactly the URLs that our command contains. */
  lemma BuiltHooksReference(cmd: string, url: string)
    ensures SelfReferencing(BuildHooks(cmd), url) <==> Contains(cmd, url)
  {
    EntryReferencesIffCommand(".*", cmd, url);
    EntryReferencesIffCommand("", cmd, url);
    var ours := BuildHooks(cmd);
    assert "Stop" in ours && |ours["Stop"]| == 1;
    assert SelfReferencing(ours, url) ==> References(EncodeEntry(ours["Stop"][0]), url);
  }

  ghost predicate SchemeAt(s: string, j: nat) {
    j + 2 < |s| && s[j] == ':' && s[j + 1] == '/' && s[j + 2] == '/'
  }

  /** A command line of this shape holds "://" in one place only. */
  lemma SchemeOnce(x: string, addr: string, y: string, z: string, j: nat)
    requires ':' !in x && ':' !in y && ':' !in z && '/' !in addr
    requires |y| >= 2 && y[1] != '/' && z != "" && z[0] != '/'
    ensures SchemeAt(x + "://" + addr + y + ":" + z, j) ==> j == |x|
  {
  }

  const SCHEME := "http"
  const ENDPOINT := "/api/claude/event"

  lemma NoColons()
    ensures ':' !in CURL + SCHEME && ':' !in ENDPOINT + HEADER_NAME && ':' !in HEADER_VALUE
  {
    assert ':' !in CURL && ':' !in SCHEME && ':' !in ENDPOINT && ':' !in HEADER_NAME;
  }

  lemma UrlParts(addr: string)
    ensures Url(addr) == SCHEME + "://" + addr + ENDPOINT
    ensures Command(addr) == (CURL + SCHEME) + "://" + addr + (ENDPOINT + HEADER_NAME) + ":" + HEADER_VALUE
  {
    assert "http://" == SCHEME + "://";
  }

  /** Two strings that agree up to a slash after slash-free parts have the same part. */
  lemma SameUpToSlash(a: string, u: string, b: string, v: string)
    requires '/' !in a && '/' !in b && u != "" && u[0] == '/' && v != "" && v[0] == '/'
    requires a + u <= b + v
    ensures a == b
  {
    var s, t := a + u, b + v;
    assert forall k :: 0 <= k < |s| ==> s[k] == t[k];
    assert s[|a|] == '/' && t[|b|] == '/';
    assert forall k :: 0 <= k < |a| ==> s[k] == a[k] && a[k] in a;
    assert forall k :: 0 <= k < |b| ==> t[k] == b[k] && b[k] in b;
    assert a == s[..|a|] && b == t[..|b|];
  }

  /** A URL found in a command line of our shape is found at the address, so it is for the same address. */
  lemma UrlAligned(c: string, scheme: string, endpoint: string, h: string, z: string, a: string, b: string, i: nat)
    requires ':' !in c + scheme && ':' !in endpoint + h && ':' !in z && '/' !in a && '/' !in b
    requires |endpoint| >= 2 && endpoint[0] == '/' && endpoint[1] != '/' && z != "" && z[0] != '/'
    requires At((c + scheme) + "://" + b + (endpoint + h) + ":" + z, scheme + "://" + a + endpoint, i)
    ensures a == b
  {
    var cmd, url := (c + scheme) + "://" + b + (endpoint + h) + ":" + z, scheme + "://" + a + endpoint;
    var n, m := |scheme|, |scheme| + 3;
    assert forall k :: 0 <= k < |url| ==> cmd[i + k] == url[k];
    assert url[n] == ':' && url[n + 1] == '/' && url[n + 2] == '/';
    assert SchemeAt(cmd, i + n);
    SchemeOnce(c + scheme, b, endpoint + h, z, i + n);
    var v := endpoint + h + ":" + z;
    assert cmd[i + m..] == b + v;
    assert url[m..] == a + endpoint;
    assert cmd[i..i + |url|][m..] == cmd[i + m..][..|url| - m];
    SameUpToSlash(a, endpoint, b, v);
  }

  /** For addresses without a slash, our command for one address contains the URL of another only if they are the same. */
  lemma CommandsAreTold(a: string, b: string)
    requires '/' !in a && '/' !in b
    ensures Contains(Command(b), Url(a)) <==> a == b
  {
    var cmd, url := Command(b), Url(a);
    if a == b {
      assert cmd[|CURL|..|CURL| + |url|] == url;
      assert At(cmd, url, |CURL|);
    } else if Contains(cmd, url) {
      var i :| 0 <= i <= |cmd| && At(cmd, url, i);
      UrlFound(a, b, i);
    }
  }

  lemma UrlFound(a: string, b: string, i: nat)
    requires '/' !in a && '/' !in b && At(Command(b), Url(a), i)
    ensures a == b
  {
    UrlParts(a);
    UrlParts(b);
    NoColons();
    UrlAligned(CURL, SCHEME, ENDPOINT, HEADER_NAME, HEADER_VALUE, a, b, i);
  }

  // ---------- Applying twice ----------

  /** What has been written decodes to what was encoded. */
  predicate RoundTrips(codec: Codec, m: map<string, Json>) {
    codec.decode(codec.encode(m) + "\n") == Object(m)
  }

  /**
   Applying our hooks again, after a call that did not fail, leaves the file alone; nothing is written, so a disk that
   refuses writes does not matter.
   */
  method ApplyTwice(file: File, addr: string, codec: Codec, disk: Disk, later: Disk)
    returns (first: Outcome, second: Outcome)
    ensures first.Wrote? || first.Unchanged? ==> SettingsIn(file, codec).Some?
    ensures (first.Wrote? || first.Unchanged?) && !later.mkdirFails
            && RoundTrips(codec, Merge(SettingsIn(file, codec).value, BuildHooks(Command(addr)), Url(addr)))
            ==> second == Unchanged
    ensures later == disk && !first.Wrote? ==> second == first
  {
    var ours, url := BuildHooks(Command(addr)), Url(addr);
    first := ApplyHooks(file, ours, url, codec, disk);
    second := ApplyHooks(FileAfter(file, first), ours, url, codec, later);
    if first.Wrote? || first.Unchanged? {
      var settings := SettingsIn(file, codec).value;
      assert FileAfter(file, first) == Content(codec.encode(Merge(settings, ours, url)) + "\n");
      assert Contains(Command(addr), url) by {
        assert Command(addr)[|CURL|..|CURL| + |url|] == url;
        assert At(Command(addr), url, |CURL|);
      }
      BuiltHooksReference(Command(addr), url);
      MergeIsIdempotent(settings, ours, url);
      assert RoundTrips(codec, Merge(settings, ours, url)) ==>
          SettingsIn(FileAfter(file, first), codec) == Some(Merge(settings, ours, url));
    }
  }
}
