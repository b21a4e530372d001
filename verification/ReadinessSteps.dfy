/**
 The readiness tracker under concurrency.  A step is one atomic load, store, add or swap,
 one mutex operation or one log line, by one of any number of threads; the blocklist is
 published by separate steps.  Reading the lookup is a step of its own, before `observe`.
 Clock readings are positive (instants after 1970).
 */
module ReadinessSteps {
  import opened Wrappers
  import opened Readiness

  /** Who calls `observe`: the /check and /healthz handlers, the heartbeat loop, and start-up. */
  datatype Caller = Check | Healthz | HeartbeatTick | StartUp

  /** The operation a thread performs next. */
  datatype Pc =
    | ReadLookup
    | LoadEver
    | StoreEver
    | LoadFlag
    | Lock
    | Recheck
    // emitUnusable, holding the mutex
    | OpenSince
    | OpenTotal
    | OpenStart(total: nat)
    | OpenReset
    | OpenEver
    | OpenLine(ever: bool)
    // emitRecovered, holding the mutex
    | CloseSince
    | CloseTotal
    | CloseStart(total: nat)
    | CloseClear(window: Option<Window>)
    | CloseLine(window: Option<Window>)
    // after either line
    | StoreFlag
    | Unlock
    | Returned
    // what the caller does after `observe` returned false
    | AddTotal
    | AddSince
    | BeatEver
    | BeatDuration(ever: bool)
    | BeatTotal(ever: bool)
    | BeatSwap(ever: bool, total: nat)
    | BeatLine(ever: bool, counts: Option<Counts>)
    | ProbeDuration
    | ProbeEver
    | Done

  datatype Thread = Thread(caller: Caller, seen: Lookup, pc: Pc)

  /** `discarded` adds up what opening a window drops from the since-heartbeat counter. */
  datatype State = State(
    tracker: Tracker,
    source: Lookup,
    owner: Option<nat>,
    threads: seq<Thread>,
    discarded: nat)

  datatype Action = Publish(l: Lookup) | Spawn(caller: Caller) | Step(i: nat, now: int)

  function Init(l: Lookup): State {
    State(FRESH, l, None, [], 0)
  }

  predicate Enabled(s: State, a: Action) {
    match a
    case Publish(_) => true
    case Spawn(_) => true
    case Step(i, now) =>
      && i < |s.threads| && now > 0
      && s.threads[i].pc != Done
      && (s.threads[i].pc == Lock ==> s.owner == None)
  }

  function Goto(s: State, i: nat, pc: Pc): State
    requires i < |s.threads|
  {
    s.(threads := s.threads[i := s.threads[i].(pc := pc)])
  }

  function SetTracker(s: State, t: Tracker): State {
    s.(tracker := t)
  }

  function Apply(failOpen: bool, s: State, a: Action): State
    requires Enabled(s, a)
  {
    match a
    case Publish(l) => s.(source := l)
    case Spawn(caller) => s.(threads := s.threads + [Thread(caller, None, ReadLookup)])
    case Step(i, now) => Advance(failOpen, s, i, now)
  }

  function Advance(failOpen: bool, s: State, i: nat, now: int): State
    requires i < |s.threads| && s.threads[i].pc != Done
  {
    var pc := s.threads[i].pc;
    if InObserve(pc) then AdvanceObserve(s, i)
    else if Opening(pc) then AdvanceOpen(s, i, now)
    else if Closing(pc) then AdvanceClose(failOpen, s, i)
    else AdvanceCaller(failOpen, s, i)
  }

  predicate InObserve(pc: Pc) {
    pc.ReadLookup? || pc.LoadEver? || pc.StoreEver? || pc.LoadFlag? || pc.Lock? || pc.Recheck? || pc.StoreFlag? || pc.Unlock?
  }

  predicate Opening(pc: Pc) {
    pc.OpenSince? || pc.OpenTotal? || pc.OpenStart? || pc.OpenReset? || pc.OpenEver? || pc.OpenLine?
  }

  predicate Closing(pc: Pc) {
    pc.CloseSince? || pc.CloseTotal? || pc.CloseStart? || pc.CloseClear? || pc.CloseLine?
  }

  predicate Critical(pc: Pc) {
    Opening(pc) || Closing(pc) || pc.Recheck? || pc.StoreFlag? || pc.Unlock?
  }

  /** `observe` itself; each thread works with the one lookup it read. */
  function AdvanceObserve(s: State, i: nat): State
    requires i < |s.threads| && InObserve(s.threads[i].pc)
  {
    var th, t := s.threads[i], s.tracker;
    var u := Usable(th.seen);
    match th.pc
    case ReadLookup => s.(threads := s.threads[i := th.(seen := s.source, pc := LoadEver)])
    case LoadEver => Goto(s, i, if u && !t.everReady then StoreEver else LoadFlag)
    case StoreEver => Goto(SetTracker(s, t.(everReady := true)), i, LoadFlag)
    case LoadFlag => Goto(s, i, if t.usable == u then Returned else Lock)
    case Lock => Goto(s.(owner := Some(i)), i, Recheck)
    case Recheck => Goto(s, i, if t.usable == u then Unlock else if u then CloseSince else OpenSince)
    case StoreFlag => Goto(SetTracker(s, t.(usable := u)), i, Unlock)
    case Unlock => Goto(s.(owner := None), i, Returned)
  }

  function AdvanceOpen(s: State, i: nat, now: int): State
    requires i < |s.threads| && Opening(s.threads[i].pc)
  {
    var t := s.tracker;
    match s.threads[i].pc
    case OpenSince => Goto(SetTracker(s, t.(unusableSince := now)), i, OpenTotal)
    case OpenTotal => Goto(s, i, OpenStart(t.total))
    case OpenStart(total) => Goto(SetTracker(s, t.(windowStart := total)), i, OpenReset)
    case OpenReset =>
      Goto(s.(tracker := t.(sinceHeartbeat := 0), discarded := s.discarded + t.sinceHeartbeat), i, OpenEver)
    case OpenEver => Goto(s, i, OpenLine(t.everReady))
    case OpenLine(ever) => Goto(SetTracker(s, t.(log := t.log + [WentUnusable(ever)])), i, StoreFlag)
  }

  function AdvanceClose(failOpen: bool, s: State, i: nat): State
    requires i < |s.threads| && Closing(s.threads[i].pc)
  {
    var t := s.tracker;
    match s.threads[i].pc
    case CloseSince => Goto(s, i, if failOpen then CloseTotal else CloseClear(None))
    case CloseTotal => Goto(s, i, CloseStart(t.total))
    case CloseStart(total) => Goto(s, i, CloseClear(Some(Window(t.windowStart, total))))
    case CloseClear(w) => Goto(SetTracker(s, t.(unusableSince := 0)), i, CloseLine(w))
    case CloseLine(w) => Goto(SetTracker(s, t.(log := t.log + [Recovered(s.threads[i].seen, w)])), i, StoreFlag)
  }

  function AdvanceCaller(failOpen: bool, s: State, i: nat): State
    requires i < |s.threads|
  {
    var th, t := s.threads[i], s.tracker;
    match th.pc
    case Returned =>
      Goto(s, i,
           if Usable(th.seen) then Done
           else match th.caller
                case Check => if failOpen then AddTotal else Done
                case Healthz => ProbeDuration
                case HeartbeatTick => BeatEver
                case StartUp => Done)
    case AddTotal => Goto(SetTracker(s, t.(total := t.total + 1)), i, AddSince)
    case AddSince => Goto(SetTracker(s, t.(sinceHeartbeat := t.sinceHeartbeat + 1)), i, Done)
    case BeatEver => Goto(s, i, BeatDuration(t.everReady))
    case BeatDuration(ever) => Goto(s, i, if failOpen then BeatTotal(ever) else BeatLine(ever, None))
    case BeatTotal(ever) => Goto(s, i, BeatSwap(ever, t.total))
    case BeatSwap(ever, total) =>
      Goto(SetTracker(s, t.(sinceHeartbeat := 0)), i, BeatLine(ever, Some(Counts(total, t.sinceHeartbeat))))
    case BeatLine(ever, counts) => Goto(SetTracker(s, t.(log := t.log + [StillUnusable(ever, counts)])), i, Done)
    case ProbeDuration => Goto(s, i, ProbeEver)
    case ProbeEver => Goto(s, i, Done)
    case _ => s
  }

  // ---------------------------------------------------------------------------
  // Runs

  ghost predicate Legal(failOpen: bool, s: State, acts: seq<Action>)
    decreases |acts|
  {
    acts == [] || (Enabled(s, acts[0]) && Legal(failOpen, Apply(failOpen, s, acts[0]), acts[1..]))
  }

  function Final(failOpen: bool, s: State, acts: seq<Action>): State
    requires Legal(failOpen, s, acts)
    decreases |acts|
  {
    if acts == [] then s else Final(failOpen, Apply(failOpen, s, acts[0]), acts[1..])
  }

  lemma {:induction false} RunConcat(failOpen: bool, s: State, a: seq<Action>, b: seq<Action>)
    requires Legal(failOpen, s, a) && Legal(failOpen, Final(failOpen, s, a), b)
    ensures Legal(failOpen, s, a + b)
    ensures Final(failOpen, s, a + b) == Final(failOpen, Final(failOpen, s, a), b)
    decreases |a|
  {
    if a == [] {
      assert a + b == b;
    } else {
      assert (a + b)[1..] == a[1..] + b;
      RunConcat(failOpen, Apply(failOpen, s, a[0]), a[1..], b);
    }
  }

  // ---------------------------------------------------------------------------
  // The invariant

  /** The mutex: exactly its owner is inside the critical section. */
  ghost predicate Exclusive(s: State) {
    && (s.owner.Some? ==> s.owner.value < |s.threads|)
    && forall i | 0 <= i < |s.threads| :: Critical(s.threads[i].pc) <==> s.owner == Some(i)
  }

  /** Whether a thread has passed the latch. */
  predicate PastLatch(pc: Pc) {
    !pc.ReadLookup? && !pc.LoadEver? && !pc.StoreEver?
  }

  ghost predicate LatchHolds(s: State) {
    forall i | 0 <= i < |s.threads| :: PastLatch(s.threads[i].pc) && Usable(s.threads[i].seen) ==> s.tracker.everReady
  }

  predicate HasRecovery(log: seq<Line>) {
    exists k :: 0 <= k < |log| && log[k].Recovered?
  }

  /** What flag, timestamp and last line say, by what the mutex holder does next. */
  ghost predicate FlagAgrees(t: Tracker, th: Option<Thread>) {
    var d := Direction(t.log);
    if th == None || th.value.pc.Recheck? || th.value.pc.Unlock? then
      t.usable == d && (t.unusableSince != 0 <==> !t.usable)
    else if Opening(th.value.pc) then
      && t.usable && d && !Usable(th.value.seen)
      && (t.unusableSince != 0 <==> !th.value.pc.OpenSince?)
    else if Closing(th.value.pc) then
      && !t.usable && !d && Usable(th.value.seen)
      && (t.unusableSince != 0 <==> !th.value.pc.CloseLine?)
    else
      && th.value.pc.StoreFlag?
      && t.usable != d && d == Usable(th.value.seen)
      && (t.unusableSince != 0 <==> !d)
  }

  function Holder(s: State): Option<Thread>
    requires s.owner.Some? ==> s.owner.value < |s.threads|
  {
    if s.owner == None then None else Some(s.threads[s.owner.value])
  }

  ghost predicate Inv(s: State) {
    && Exclusive(s)
    && LatchHolds(s)
    && (HasRecovery(s.tracker.log) ==> s.tracker.everReady)
    && Alternates(s.tracker.log)
    && FlagAgrees(s.tracker, Holder(s))
  }

  /** One step changes its own thread only, and takes or frees the mutex exactly at `Lock` and `Unlock`. */
  lemma StepShape(failOpen: bool, s: State, i: nat, now: int)
    requires Enabled(s, Step(i, now))
    ensures var s' := Advance(failOpen, s, i, now);
      && |s'.threads| == |s.threads|
      && s'.threads == s.threads[i := s'.threads[i]]
      && s'.threads[i].caller == s.threads[i].caller
      && s'.source == s.source
      && (!s.threads[i].pc.ReadLookup? ==> s'.threads[i].seen == s.threads[i].seen)
      && (if s.threads[i].pc == Lock then s'.owner == Some(i) && s'.threads[i].pc == Recheck
          else if s.threads[i].pc == Unlock then s'.owner == None && s'.threads[i].pc == Returned
          else s'.owner == s.owner && Critical(s'.threads[i].pc) == Critical(s.threads[i].pc))
  {}

  lemma KeepsExclusive(failOpen: bool, s: State, a: Action)
    requires Exclusive(s) && Enabled(s, a)
    ensures Exclusive(Apply(failOpen, s, a))
  {
    if a.Step? {
      StepShape(failOpen, s, a.i, a.now);
      ExclusiveAfter(s, Apply(failOpen, s, a), a.i);
    }
  }

  lemma ExclusiveAfter(s: State, s': State, i: nat)
    requires Exclusive(s) && i < |s.threads| == |s'.threads|
    requires s'.threads == s.threads[i := s'.threads[i]]
    requires if s.threads[i].pc == Lock then s.owner == None && s'.owner == Some(i) && Critical(s'.threads[i].pc)
             else if s.threads[i].pc == Unlock then s'.owner == None && !Critical(s'.threads[i].pc)
             else s'.owner == s.owner && Critical(s'.threads[i].pc) == Critical(s.threads[i].pc)
    ensures Exclusive(s')
  {}


  lemma KeepsLatch(failOpen: bool, s: State, a: Action)
    requires LatchHolds(s) && Enabled(s, a)
    ensures LatchHolds(Apply(failOpen, s, a))
    ensures s.tracker.everReady ==> Apply(failOpen, s, a).tracker.everReady
  {}

  /** What a step does to the log: nothing, or one line of the kind its program counter names. */
  function LineOf(th: Thread): Option<Line> {
    match th.pc
    case OpenLine(ever) => Some(WentUnusable(ever))
    case CloseLine(w) => Some(Recovered(th.seen, w))
    case BeatLine(ever, counts) => Some(StillUnusable(ever, counts))
    case _ => None
  }

  function Emitted(s: State, a: Action): seq<Line>
    requires Enabled(s, a)
  {
    if a.Step? && LineOf(s.threads[a.i]).Some? then [LineOf(s.threads[a.i]).value] else []
  }

  lemma LogGrows(failOpen: bool, s: State, a: Action)
    requires Enabled(s, a)
    ensures Apply(failOpen, s, a).tracker.log == s.tracker.log + Emitted(s, a)
  {}

  lemma LogSnoc(log: seq<Line>, line: Line)
    ensures Direction(log + [line]) == if line.StillUnusable? then Direction(log) else line.Recovered?
    ensures Transitions(log + [line]) == Transitions(log) + if line.StillUnusable? then [] else [line.Recovered?]
    ensures Alternates(log + [line]) <==>
              Alternates(log) && (line.WentUnusable? ==> Direction(log)) && (line.Recovered? ==> !Direction(log))
    ensures HasRecovery(log + [line]) <==> HasRecovery(log) || line.Recovered?
  {}

  /** How a step changes the flag, the timestamp and the thread that may hold the mutex. */
  lemma KeepsFlag(failOpen: bool, s: State, i: nat, now: int)
    requires Inv(s) && Enabled(s, Step(i, now))
    ensures var s' := Advance(failOpen, s, i, now);
      Exclusive(s') && FlagAgrees(s'.tracker, Holder(s')) && Alternates(s'.tracker.log)
  {
    KeepsExclusive(failOpen, s, Step(i, now));
    StepShape(failOpen, s, i, now);
    LogGrows(failOpen, s, Step(i, now));
    FlagOfStep(failOpen, s, i, now);
    FlagAfter(s, Advance(failOpen, s, i, now), i);
  }

  /** What the next state's flag, timestamp and log owe to a step of the mutex holder, or to another thread's. */
  ghost predicate FlagNext(s: State, s': State, i: nat)
    requires i < |s.threads| == |s'.threads|
  {
    if Critical(s.threads[i].pc) then
      FlagAgrees(s'.tracker, if s.threads[i].pc.Unlock? then None else Some(s'.threads[i]))
    else
      s'.tracker.usable == s.tracker.usable && s'.tracker.unusableSince == s.tracker.unusableSince
  }

  lemma FlagOfStep(failOpen: bool, s: State, i: nat, now: int)
    requires Inv(s) && Enabled(s, Step(i, now))
    ensures |Advance(failOpen, s, i, now).threads| == |s.threads|
    ensures FlagNext(s, Advance(failOpen, s, i, now), i)
  {
    if Critical(s.threads[i].pc) {
      AnnouncedByLine(s, i);
      FlagInside(failOpen, s, i, now);
    } else {
      FlagOutside(failOpen, s, i, now);
    }
  }

  lemma FlagAfter(s: State, s': State, i: nat)
    requires Inv(s) && Exclusive(s') && i < |s.threads| == |s'.threads|
    requires s'.threads == s.threads[i := s'.threads[i]]
    requires s'.owner == if s.threads[i].pc == Lock then Some(i) else if s.threads[i].pc == Unlock then None else s.owner
    requires s.threads[i].pc == Lock ==> s.owner == None && s'.threads[i].pc == Recheck
    requires s'.tracker.log == s.tracker.log + if LineOf(s.threads[i]).Some? then [LineOf(s.threads[i]).value] else []
    requires FlagNext(s, s', i)
    ensures FlagAgrees(s'.tracker, Holder(s')) && Alternates(s'.tracker.log)
  {
    var th := s.threads[i];
    LineKeepsAlternation(s.tracker, th, s'.tracker.log);
    if Critical(th.pc) {
      assert Holder(s) == Some(th);
    } else if th.pc != Lock {
      assert Holder(s') == Holder(s);
    }
  }

  /** A thread outside the mutex announces nothing, and one inside announces the opposite of the last line. */
  lemma LineKeepsAlternation(t: Tracker, th: Thread, log': seq<Line>)
    requires Alternates(t.log) && (Critical(th.pc) ==> FlagAgrees(t, Some(th)))
    requires log' == t.log + if LineOf(th).Some? then [LineOf(th).value] else []
    ensures Alternates(log') && (!Critical(th.pc) ==> Direction(log') == Direction(t.log))
  {
    if LineOf(th).Some? {
      LogSnoc(t.log, LineOf(th).value);
    } else {
      assert log' == t.log;
    }
  }

  lemma AnnouncedByLine(s: State, i: nat)
    requires i < |s.threads|
    ensures LineOf(s.threads[i]).Some? && !LineOf(s.threads[i]).value.StillUnusable? ==>
              Direction(s.tracker.log + [LineOf(s.threads[i]).value]) == LineOf(s.threads[i]).value.Recovered?
  {
    if LineOf(s.threads[i]).Some? {
      LogSnoc(s.tracker.log, LineOf(s.threads[i]).value);
    }
  }

  lemma FlagInside(failOpen: bool, s: State, i: nat, now: int)
    requires Inv(s) && Enabled(s, Step(i, now)) && Critical(s.threads[i].pc) && s.owner == Some(i)
    requires LineOf(s.threads[i]).Some? && !LineOf(s.threads[i]).value.StillUnusable? ==>
               Direction(s.tracker.log + [LineOf(s.threads[i]).value]) == LineOf(s.threads[i]).value.Recovered?
    ensures |Advance(failOpen, s, i, now).threads| == |s.threads|
    ensures FlagNext(s, Advance(failOpen, s, i, now), i)
  {
    assert Holder(s) == Some(s.threads[i]);
    if Opening(s.threads[i].pc) {
      FlagWhileOpening(failOpen, s, i, now);
    } else if Closing(s.threads[i].pc) {
      FlagWhileClosing(failOpen, s, i, now);
    }
  }

  lemma FlagWhileOpening(failOpen: bool, s: State, i: nat, now: int)
    requires i < |s.threads| && now > 0 && Opening(s.threads[i].pc) && FlagAgrees(s.tracker, Some(s.threads[i]))
    requires LineOf(s.threads[i]).Some? ==> !Direction(s.tracker.log + [LineOf(s.threads[i]).value])
    ensures |Advance(failOpen, s, i, now).threads| == |s.threads|
    ensures FlagAgrees(Advance(failOpen, s, i, now).tracker, Some(Advance(failOpen, s, i, now).threads[i]))
  {}

  lemma FlagWhileClosing(failOpen: bool, s: State, i: nat, now: int)
    requires i < |s.threads| && Closing(s.threads[i].pc) && FlagAgrees(s.tracker, Some(s.threads[i]))
    requires LineOf(s.threads[i]).Some? ==> Direction(s.tracker.log + [LineOf(s.threads[i]).value])
    ensures |Advance(failOpen, s, i, now).threads| == |s.threads|
    ensures FlagAgrees(Advance(failOpen, s, i, now).tracker, Some(Advance(failOpen, s, i, now).threads[i]))
  {}

  lemma FlagOutside(failOpen: bool, s: State, i: nat, now: int)
    requires Enabled(s, Step(i, now)) && !Critical(s.threads[i].pc)
    ensures |Advance(failOpen, s, i, now).threads| == |s.threads|
    ensures FlagNext(s, Advance(failOpen, s, i, now), i)
  {}

  lemma KeepsInv(failOpen: bool, s: State, a: Action)
    requires Inv(s) && Enabled(s, a)
    ensures Inv(Apply(failOpen, s, a))
  {
    KeepsExclusive(failOpen, s, a);
    KeepsLatch(failOpen, s, a);
    LogGrows(failOpen, s, a);
    if a.Step? {
      KeepsFlag(failOpen, s, a.i, a.now);
      if LineOf(s.threads[a.i]).Some? {
        LogSnoc(s.tracker.log, LineOf(s.threads[a.i]).value);
      }
    }
  }

  /** Every state of every interleaving, from any number of threads, satisfies the invariant. */
  lemma {:induction false} RunKeepsInv(failOpen: bool, s: State, acts: seq<Action>)
    requires Inv(s) && Legal(failOpen, s, acts)
    ensures Inv(Final(failOpen, s, acts))
    ensures s.tracker.everReady ==> Final(failOpen, s, acts).tracker.everReady
    decreases |acts|
  {
    if acts == [] {
    } else {
      KeepsInv(failOpen, s, acts[0]);
      KeepsLatch(failOpen, s, acts[0]);
      RunKeepsInv(failOpen, Apply(failOpen, s, acts[0]), acts[1..]);
    }
  }
}
