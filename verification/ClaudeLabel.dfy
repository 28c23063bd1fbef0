/**
 The Claude activity label of web/app.js: a state machine driven by hook events and one idle
 timer. Browser timers are pending callbacks with a due time; one may run at any moment from
 its due time on.
 */
module ClaudeLabel {

  const CLAUDE_IDLE_MS := 5000

  datatype Label = Idle | Working | Thinking | Waiting

  datatype Phase = UserPrompt | Pre | Post | SessionStart | Stop | SubagentStop | Notification | Other

  /**
   The part of the page state that the label depends on, with the browser's pending idle callbacks. `idleTimer`
   keeps the last handle it was given (0 before the first), also when that timer has fired or been cleared.
   */
  datatype Panel = Panel(status: Label, activeTools: nat, idleTimer: nat, timers: map<nat, int>, nextId: nat)

  const FRESH := Panel(Idle, 0, 0, map[], 1)

  function SetTimeout(p: Panel, due: int): Panel {
    p.(timers := p.timers[p.nextId := due], idleTimer := p.nextId, nextId := p.nextId + 1)
  }

  function ClearIdle(p: Panel): Panel {
    if p.idleTimer != 0 then p.(timers := p.timers - {p.idleTimer}) else p
  }

  function Ping(p: Panel, now: int): Panel {
    SetTimeout(ClearIdle(p.(status := Working)), now + CLAUDE_IDLE_MS)
  }

  function Handle(p: Panel, now: int, phase: Phase): Panel {
    match phase
    case UserPrompt => Ping(p, now)
    case Pre => Ping(p.(activeTools := p.activeTools + 1), now)
    case Post => Ping(p.(activeTools := if p.activeTools > 0 then p.activeTools - 1 else 0), now)
    case SessionStart => ClearIdle(p.(activeTools := 0)).(status := Idle)
    case Stop => ClearIdle(p).(status := Waiting)
    case _ => p
  }

  /** The callback of timer `id`, which the browser has taken off its list. */
  function Fire(p: Panel, now: int, id: nat): Panel {
    var q := p.(timers := p.timers - {id});
    if q.activeTools > 0 then SetTimeout(q, now + CLAUDE_IDLE_MS) else q.(status := Thinking)
  }

  // ---------- Runs ----------

  datatype Step = Hook(at: int, phase: Phase) | Timer(at: int, id: nat)

  /** The state after a run of hook events and timer callbacks. */
  function After(run: seq<Step>): Panel {
    if run == [] then FRESH
    else
      var p := After(run[..|run| - 1]);
      match run[|run| - 1]
      case Hook(at, phase) => Handle(p, at, phase)
      case Timer(at, id) => Fire(p, at, id)
  }

  /** Time does not run backwards, and a callback runs only if it is pending and due. It may run late. */
  predicate Legal(run: seq<Step>) {
    run == [] ||
    (var init, s := run[..|run| - 1], run[|run| - 1];
     && Legal(init)
     && (init != [] ==> init[|init| - 1].at <= s.at)
     && (s.Timer? ==> s.id in After(init).timers && After(init).timers[s.id] <= s.at))
  }

  // ---------- The history that the label reflects ----------

  function Hooks(run: seq<Step>): seq<Step> {
    if run == [] then []
    else Hooks(run[..|run| - 1]) + if run[|run| - 1].Hook? then [run[|run| - 1]] else []
  }

  predicate Decisive(s: Step) {
    s.Hook? && s.phase in {UserPrompt, Pre, Post, SessionStart, Stop}
  }

  /** Pre events less post events since the last session start. */
  function Net(run: seq<Step>): int {
    if run == [] then 0
    else
      var n := Net(run[..|run| - 1]);
      match run[|run| - 1]
      case Hook(_, Pre) => n + 1
      case Hook(_, Post) => n - 1
      case Hook(_, SessionStart) => 0
      case _ => n
  }

  /** The lowest value of `Net` since the last session start, at which it is zero. */
  function Lowest(run: seq<Step>): int {
    if run == [] then 0
    else if run[|run| - 1].Hook? && run[|run| - 1].phase.SessionStart? then 0
    else
      var low := Lowest(run[..|run| - 1]);
      if Net(run) < low then Net(run) else low
  }

  /** What the label should be at time `now`, as a function of the hook events alone. */
  function Due(run: seq<Step>, now: int): Label {
    if run == [] then Idle
    else
      var s := run[|run| - 1];
      if !Decisive(s) then Due(run[..|run| - 1], now)
      else if s.phase.SessionStart? then Idle
      else if s.phase.Stop? then Waiting
      else if Net(run) > Lowest(run) || now - s.at < CLAUDE_IDLE_MS then Working
      else Thinking
  }

  // ---------- What every run keeps ----------

  /** A timer is pending exactly while the label says "working", and it is the one `idleTimer` names. */
  ghost predicate TimerInv(p: Panel) {
    && p.nextId >= 1 && p.idleTimer < p.nextId
    && (if p.status.Working? then p.idleTimer != 0 && p.timers.Keys == {p.idleTimer} else p.timers == map[])
  }

  lemma HandleKeepsTimer(p: Panel, now: int, phase: Phase)
    requires TimerInv(p)
    ensures TimerInv(Handle(p, now, phase))
  {
  }

  lemma FireKeepsTimer(p: Panel, now: int, id: nat)
    requires TimerInv(p) && id in p.timers
    ensures TimerInv(Fire(p, now, id)) && p.status.Working? && id == p.idleTimer
  {
  }

  lemma {:induction false} OneTimerWhileWorking(run: seq<Step>)
    requires Legal(run)
    ensures TimerInv(After(run))
    ensures After(run).timers != map[] <==> After(run).status == Working
    ensures |After(run).timers| <= 1
  {
    if run != [] {
      var p := After(run[..|run| - 1]);
      OneTimerWhileWorking(run[..|run| - 1]);
      match run[|run| - 1]
      case Hook(at, phase) => HandleKeepsTimer(p, at, phase);
      case Timer(at, id) => FireKeepsTimer(p, at, id);
    }
    AtMostOneTimer(After(run));
  }

  lemma AtMostOneTimer(p: Panel)
    requires TimerInv(p)
    ensures p.timers != map[] <==> p.status == Working
    ensures |p.timers| <= 1
  {
  }

  /** The in-flight counter is the walk of pre and post events reflected at zero since the last session start. */
  lemma {:induction false} ReflectedWalk(run: seq<Step>)
    requires Legal(run)
    ensures After(run).activeTools == Net(run) - Lowest(run)
    ensures Lowest(run) <= 0
    ensures Lowest(run) == 0 ==> After(run).activeTools == Net(run)
  {
    if run != [] { ReflectedWalk(run[..|run| - 1]); }
  }

  datatype Last = Nothing | Last(at: int, phase: Phase)

  /** The last decisive event of a run, if any. */
  function LastDecisive(run: seq<Step>): Last {
    if run == [] then Nothing
    else
      var s := run[|run| - 1];
      if Decisive(s) then Last(s.at, s.phase) else LastDecisive(run[..|run| - 1])
  }

  predicate IsPing(last: Last) {
    last.Last? && last.phase in {UserPrompt, Pre, Post}
  }

  /** How label, pending timer and last decisive event belong together. */
  ghost predicate LabelInv(last: Last, now: int, p: Panel) {
    match p.status
    case Idle => last.Nothing? || last.phase.SessionStart?
    case Waiting => last.Last? && last.phase.Stop?
    case Working =>
      && IsPing(last)
      && p.idleTimer in p.timers
      && (p.timers[p.idleTimer] == last.at + CLAUDE_IDLE_MS || p.activeTools > 0)
    case Thinking => IsPing(last) && p.activeTools == 0 && now >= last.at + CLAUDE_IDLE_MS
  }

  lemma {:induction false} LabelFollowsHistory(run: seq<Step>)
    requires Legal(run) && run != []
    ensures LabelInv(LastDecisive(run), run[|run| - 1].at, After(run))
  {
    var init, s := run[..|run| - 1], run[|run| - 1];
    var p := After(init);
    OneTimerWhileWorking(init);
    if init != [] { LabelFollowsHistory(init); }
    match s
    case Hook(at, phase) => HandleKeepsLabel(LastDecisive(init), at, phase, p);
    case Timer(at, id) => FireKeepsTimer(p, at, id);
  }

  lemma HandleKeepsLabel(last: Last, now: int, phase: Phase, p: Panel)
    requires TimerInv(p) && LabelInv(last, now, p)
    ensures LabelInv(if Decisive(Hook(now, phase)) then Last(now, phase) else last, now, Handle(p, now, phase))
  {
  }

  lemma {:induction false} DueByLastDecisive(run: seq<Step>, now: int)
    requires Legal(run)
    ensures var last := LastDecisive(run);
            Due(run, now) ==
            if last.Nothing? || last.phase.SessionStart? then Idle
            else if last.phase.Stop? then Waiting
            else if Net(run) > Lowest(run) || now - last.at < 5000 then Working
            else Thinking
  {
    if run != [] { DueByLastDecisive(run[..|run| - 1], now); }
  }

  /**
   Over every run of hook events and callbacks, late ones included, the label at any later time is the one the
   history asks for, unless the idle timer is overdue; while it is overdue the label still says "working".
   */
  lemma LabelIsFunctionOfHistory(run: seq<Step>, now: int)
    requires Legal(run) && (run != [] ==> run[|run| - 1].at <= now)
    ensures var p := After(run);
            if exists id :: id in p.timers && p.timers[id] <= now then p.status == Working
            else p.status == Due(run, now)
  {
    if run != [] { LabelFollowsHistory(run); }
    OneTimerWhileWorking(run);
    ReflectedWalk(run);
    DueByLastDecisive(run, now);
  }

  /**
   The same by the last event that matters: idle before any and after a session start, waiting after a stop, and
   otherwise working while a tool is open or the event is less than five seconds old, then thinking.
   */
  lemma LabelByLastEvent(run: seq<Step>, now: int)
    requires Legal(run) && (run != [] ==> run[|run| - 1].at <= now)
    requires forall id :: id in After(run).timers ==> now < After(run).timers[id]
    ensures After(run).status == match LastDecisive(run)
                                 case Nothing => Idle
                                 case Last(_, SessionStart) => Idle
                                 case Last(_, Stop) => Waiting
                                 case Last(at, _) =>
                                   if After(run).activeTools > 0 || now - at < 5000 then Working else Thinking
  {
    LabelIsFunctionOfHistory(run, now);
    DueByLastDecisive(run, now);
    ReflectedWalk(run);
  }

  /** "Thinking" is never shown early, however late timers run. */
  lemma ThinkingIsNeverEarly(run: seq<Step>, now: int)
    requires Legal(run) && (run != [] ==> run[|run| - 1].at <= now)
    ensures After(run).status == Thinking ==> Due(run, now) == Thinking
  {
    LabelIsFunctionOfHistory(run, now);
    OneTimerWhileWorking(run);
  }

  /** Two histories that agree so far agree after the same step. */
  lemma SameStep(a: seq<Step>, b: seq<Step>, s: Step, now: int)
    requires Net(a) == Net(b) && Lowest(a) == Lowest(b) && Due(a, now) == Due(b, now)
    ensures Net(a + [s]) == Net(b + [s]) && Lowest(a + [s]) == Lowest(b + [s])
    ensures Due(a + [s], now) == Due(b + [s], now)
  {
    assert (a + [s])[..|a|] == a && (b + [s])[..|b|] == b;
  }

  lemma TimerStep(a: seq<Step>, s: Step, now: int)
    requires s.Timer?
    ensures Net(a + [s]) == Net(a) && Lowest(a + [s]) == Lowest(a) && Due(a + [s], now) == Due(a, now)
  {
    assert (a + [s])[..|a|] == a;
    assert Lowest(a) <= Net(a);
  }

  /** The label that history asks for does not depend on when callbacks ran. */
  lemma {:induction false} DueIgnoresTimers(run: seq<Step>, now: int)
    ensures Net(Hooks(run)) == Net(run) && Lowest(Hooks(run)) == Lowest(run)
    ensures Due(Hooks(run), now) == Due(run, now)
  {
    if run != [] {
      var init, s := run[..|run| - 1], run[|run| - 1];
      assert run == init + [s];
      DueIgnoresTimers(init, now);
      if s.Hook? {
        SameStep(init, Hooks(init), s, now);
      } else {
        TimerStep(init, s, now);
        assert Hooks(run) == Hooks(init);
      }
    }
  }

  // ---------- The page ----------

  /** The fields of the page and its event handlers. */
  class Page {
    var status: Label
    var activeTools: nat
    var idleTimer: nat
    var timers: map<nat, int>
    var nextId: nat

    ghost function State(): Panel
      reads this
    {
      Panel(status, activeTools, idleTimer, timers, nextId)
    }

    constructor ()
      ensures State() == FRESH
    {
      status, activeTools, idleTimer, timers, nextId := Idle, 0, 0, map[], 1;
    }

    method StartIdleTimer(now: int)
      modifies this
      ensures State() == SetTimeout(old(State()), now + CLAUDE_IDLE_MS)
      ensures timers == old(timers)[old(nextId) := now + 5000] && idleTimer == old(nextId) && nextId == old(nextId) + 1
      ensures status == old(status) && activeTools == old(activeTools)
    {
      timers := timers[nextId := now + CLAUDE_IDLE_MS];
      idleTimer, nextId := nextId, nextId + 1;
    }

    method ClearIdleTimer()
      modifies this
      ensures State() == ClearIdle(old(State()))
      ensures timers == if idleTimer != 0 then old(timers) - {idleTimer} else old(timers)
      ensures status == old(status) && activeTools == old(activeTools)
      ensures idleTimer == old(idleTimer) && nextId == old(nextId)
    {
      if idleTimer != 0 {
        timers := timers - {idleTimer};
      }
    }

    method PingClaudeActive(now: int)
      modifies this
      ensures State() == Ping(old(State()), now)
      ensures status == Working && activeTools == old(activeTools) && idleTimer == old(nextId)
      ensures timers == (if old(idleTimer) != 0 then old(timers) - {old(idleTimer)} else old(timers))[idleTimer := now + 5000]
    {
      status := Working;
      ClearIdleTimer();
      StartIdleTimer(now);
    }

    method CheckIdleOrReschedule(now: int, id: nat)
      modifies this
      ensures State() == Fire(old(State()), now, id)
      ensures activeTools == old(activeTools)
      ensures activeTools == 0 ==> status == Thinking && timers == old(timers) - {id}
      ensures activeTools > 0 ==> status == old(status) && timers == (old(timers) - {id})[idleTimer := now + 5000]
    {
      timers := timers - {id};
      if activeTools > 0 {
        StartIdleTimer(now);
        return;
      }
      status := Thinking;
    }

    method HandleClaudeEvent(now: int, phase: Phase)
      modifies this
      ensures State() == Handle(old(State()), now, phase)
      ensures status == match phase
                        case UserPrompt => Working
                        case Pre => Working
                        case Post => Working
                        case SessionStart => Idle
                        case Stop => Waiting
                        case _ => old(status)
      ensures activeTools == match phase
                             case Pre => old(activeTools) + 1
                             case Post => if old(activeTools) == 0 then 0 else old(activeTools) - 1
                             case SessionStart => 0
                             case _ => old(activeTools)
      ensures var kept := if old(idleTimer) != 0 then old(timers) - {old(idleTimer)} else old(timers);
              timers == match phase
                        case UserPrompt => kept[idleTimer := now + 5000]
                        case Pre => kept[idleTimer := now + 5000]
                        case Post => kept[idleTimer := now + 5000]
                        case SessionStart => kept
                        case Stop => kept
                        case _ => old(timers)
    {
      match phase {
        case UserPrompt => PingClaudeActive(now);
        case Pre =>
          activeTools := activeTools + 1;
          PingClaudeActive(now);
        case Post =>
          activeTools := if activeTools > 0 then activeTools - 1 else 0;
          PingClaudeActive(now);
        case SessionStart =>
          activeTools := 0;
          ClearIdleTimer();
          status := Idle;
        case Stop =>
          ClearIdleTimer();
          status := Waiting;
        case _ =>
      }
    }
  }
}
