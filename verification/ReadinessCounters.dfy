/**
 The fail-open counters over every interleaving: no allowed request is lost or counted
 twice between the running total, the heartbeat lines and the recovery lines.
 */
module ReadinessCounters {
  import opened Wrappers
  import opened Readiness
  import opened ReadinessSteps

  /** Allows a thread has in hand: between the two adds of one allow, or swapped out for a line not yet written. */
  function InHand(th: Thread): nat {
    match th.pc
    case AddSince => 1
    case BeatLine(_, Some(c)) => c.sinceLast
    case _ => 0
  }

  function SumInHand(ths: seq<Thread>): nat {
    if ths == [] then 0 else SumInHand(ths[..|ths| - 1]) + InHand(ths[|ths| - 1])
  }

  lemma {:induction false} SumUpdate(ths: seq<Thread>, i: nat, th: Thread)
    requires i < |ths|
    ensures SumInHand(ths[i := th]) + InHand(ths[i]) == SumInHand(ths) + InHand(th)
  {
    var n := |ths| - 1;
    if i == n {
      assert ths[i := th][..n] == ths[..n];
    } else {
      assert ths[i := th][..n] == ths[..n][i := th];
      SumUpdate(ths[..n], i, th);
    }
  }

  /** The since-last counts the heartbeat lines report. */
  function ReportedByHeartbeats(log: seq<Line>): nat {
    if log == [] then 0
    else
      var n := |log| - 1;
      ReportedByHeartbeats(log[..n]) +
      match log[n]
      case StillUnusable(_, Some(c)) => c.sinceLast
      case _ => 0
  }

  /** The windows the recovery lines report. */
  function Windows(log: seq<Line>): seq<Window> {
    if log == [] then []
    else
      var n := |log| - 1;
      Windows(log[..n]) +
      match log[n]
      case Recovered(_, Some(w)) => [w]
      case _ => []
  }

  /** The total at which the last reported window ended. */
  function WindowEnd(log: seq<Line>): nat {
    var ws := Windows(log);
    if ws == [] then 0 else ws[|ws| - 1].to
  }

  /** Windows are intervals of the running total, one after the other. */
  ghost predicate InOrder(ws: seq<Window>) {
    && (forall k | 0 <= k < |ws| :: ws[k].from <= ws[k].to)
    && (forall j, k | 0 <= j < k < |ws| :: ws[j].to <= ws[k].from)
  }

  /** The allow that brought the total to `n` belongs to the window. */
  predicate Within(n: nat, w: Window) {
    w.from < n <= w.to
  }

  function Reported(ws: seq<Window>): int {
    if ws == [] then 0 else Reported(ws[..|ws| - 1]) + ws[|ws| - 1].to - ws[|ws| - 1].from
  }

  lemma {:induction false} ReportedAtMostEnd(ws: seq<Window>)
    requires InOrder(ws)
    ensures Reported(ws) <= if ws == [] then 0 else ws[|ws| - 1].to
  {
    if |ws| <= 1 {
      assert |ws| == 1 ==> ws[..0] == [];
    } else {
      ReportedAtMostEnd(ws[..|ws| - 1]);
    }
  }

  /** No allow belongs to two windows. */
  lemma WindowsAreApart(ws: seq<Window>)
    requires InOrder(ws)
    ensures forall n: nat, j, k | 0 <= j < |ws| && 0 <= k < |ws| && Within(n, ws[j]) && Within(n, ws[k]) :: j == k
  {}

  ghost predicate Conserved(s: State) {
    s.tracker.total ==
    ReportedByHeartbeats(s.tracker.log) + s.tracker.sinceHeartbeat + s.discarded + SumInHand(s.threads)
  }

  /**
   Where the last reported window's end `e`, the snapshot and the mutex holder's copies
   lie, `d` being the direction of the last transition line.
   */
  ghost predicate Bracketed(e: nat, d: bool, t: Tracker, th: Option<Thread>) {
    && e <= t.total && t.windowStart <= t.total
    && (if th == None || th.value.pc.Recheck? || th.value.pc.Unlock? || th.value.pc.StoreFlag? then
          d || e <= t.windowStart
        else match th.value.pc
             case OpenStart(x) => e <= x <= t.total
             case OpenReset => e <= t.windowStart
             case OpenEver => e <= t.windowStart
             case OpenLine(_) => e <= t.windowStart
             case CloseSince => e <= t.windowStart
             case CloseTotal => e <= t.windowStart
             case CloseStart(x) => e <= t.windowStart <= x <= t.total
             case CloseClear(Some(w)) => e <= w.from <= w.to <= t.total
             case CloseLine(Some(w)) => e <= w.from <= w.to <= t.total
             case _ => true)
  }

  ghost predicate WindowsAgree(s: State)
    requires Exclusive(s)
  {
    && InOrder(Windows(s.tracker.log))
    && Bracketed(WindowEnd(s.tracker.log), Direction(s.tracker.log), s.tracker, Holder(s))
  }

  lemma CountersSnoc(log: seq<Line>, line: Line)
    ensures ReportedByHeartbeats(log + [line]) ==
              ReportedByHeartbeats(log) + match line { case StillUnusable(_, Some(c)) => c.sinceLast case _ => 0 }
    ensures Windows(log + [line]) == Windows(log) + match line { case Recovered(_, Some(w)) => [w] case _ => [] }
  {}

  /** Total allows = reported since-last counts + current since-last + discarded + in hand. */
  lemma KeepsConserved(failOpen: bool, s: State, a: Action)
    requires Conserved(s) && Enabled(s, a)
    ensures Conserved(Apply(failOpen, s, a))
  {
    match a
    case Publish(_) =>
    case Spawn(c) =>
      var s' := Apply(failOpen, s, a);
      assert s'.threads[..|s.threads|] == s.threads;
    case Step(i, now) =>
      StepShape(failOpen, s, i, now);
      LogGrows(failOpen, s, a);
      BalanceOfStep(failOpen, s, i, now);
      ConservedAfter(s, Advance(failOpen, s, i, now), i);
  }

  lemma ConservedAfter(s: State, s': State, i: nat)
    requires Conserved(s) && i < |s.threads| == |s'.threads|
    requires s'.threads == s.threads[i := s'.threads[i]]
    requires s'.tracker.log == s.tracker.log + if LineOf(s.threads[i]).Some? then [LineOf(s.threads[i]).value] else []
    requires Balanced(s, s', s.threads[i], s'.threads[i])
    ensures Conserved(s')
  {
    SumUpdate(s.threads, i, s'.threads[i]);
    if LineOf(s.threads[i]).Some? {
      CountersSnoc(s.tracker.log, LineOf(s.threads[i]).value);
    } else {
      assert s'.tracker.log == s.tracker.log;
    }
  }

  /** The since-last count a line reports. */
  function Told(line: Option<Line>): nat {
    match line
    case Some(StillUnusable(_, Some(c))) => c.sinceLast
    case _ => 0
  }

  /** What a step adds to the total it adds to the lines, the counter, the discarded amount and its hands. */
  ghost predicate Balanced(s: State, s': State, th: Thread, th': Thread) {
    s'.tracker.total - s.tracker.total ==
    Told(LineOf(th)) + (s'.tracker.sinceHeartbeat - s.tracker.sinceHeartbeat) + (s'.discarded - s.discarded)
    + (InHand(th') - InHand(th))
  }

  lemma BalanceOfStep(failOpen: bool, s: State, i: nat, now: int)
    requires Enabled(s, Step(i, now))
    ensures i < |Advance(failOpen, s, i, now).threads|
    ensures Balanced(s, Advance(failOpen, s, i, now), s.threads[i], Advance(failOpen, s, i, now).threads[i])
  {
    var pc := s.threads[i].pc;
    if InObserve(pc) {
      BalanceOfObserve(s, i);
    } else if Opening(pc) {
      BalanceOfOpen(s, i, now);
    } else if Closing(pc) {
      BalanceOfClose(failOpen, s, i);
    } else {
      BalanceOfCaller(failOpen, s, i);
    }
  }

  lemma BalanceOfObserve(s: State, i: nat)
    requires i < |s.threads| && InObserve(s.threads[i].pc)
    ensures |AdvanceObserve(s, i).threads| == |s.threads|
    ensures Balanced(s, AdvanceObserve(s, i), s.threads[i], AdvanceObserve(s, i).threads[i])
  {}

  lemma BalanceOfOpen(s: State, i: nat, now: int)
    requires i < |s.threads| && Opening(s.threads[i].pc)
    ensures |AdvanceOpen(s, i, now).threads| == |s.threads|
    ensures Balanced(s, AdvanceOpen(s, i, now), s.threads[i], AdvanceOpen(s, i, now).threads[i])
  {}

  lemma BalanceOfClose(failOpen: bool, s: State, i: nat)
    requires i < |s.threads| && Closing(s.threads[i].pc)
    ensures |AdvanceClose(failOpen, s, i).threads| == |s.threads|
    ensures Balanced(s, AdvanceClose(failOpen, s, i), s.threads[i], AdvanceClose(failOpen, s, i).threads[i])
  {}

  lemma BalanceOfCaller(failOpen: bool, s: State, i: nat)
    requires i < |s.threads|
    requires var pc := s.threads[i].pc; !InObserve(pc) && !Opening(pc) && !Closing(pc)
    ensures |AdvanceCaller(failOpen, s, i).threads| == |s.threads|
    ensures Balanced(s, AdvanceCaller(failOpen, s, i), s.threads[i], AdvanceCaller(failOpen, s, i).threads[i])
  {}

  /** The end of the last window after a line. */
  function EndAfter(e: nat, line: Option<Line>): nat {
    match line
    case Some(Recovered(_, Some(w))) => w.to
    case _ => e
  }

  function DirectionAfter(d: bool, line: Option<Line>): bool {
    if line == None || line.value.StillUnusable? then d else line.value.Recovered?
  }

  lemma KeepsWindows(failOpen: bool, s: State, i: nat, now: int)
    requires Inv(s) && WindowsAgree(s) && Enabled(s, Step(i, now))
    ensures var s' := Advance(failOpen, s, i, now);
      Exclusive(s') && WindowsAgree(s')
  {
    KeepsExclusive(failOpen, s, Step(i, now));
    StepShape(failOpen, s, i, now);
    LogGrows(failOpen, s, Step(i, now));
    BracketAfter(failOpen, s, i, now);
    WindowsAfter(s, Advance(failOpen, s, i, now), i);
  }

  /** The bracket of the new state, read with the old holder when another thread holds the mutex. */
  ghost predicate BracketedNext(s: State, s': State, i: nat)
    requires i < |s.threads| == |s'.threads| && (s.owner.Some? ==> s.owner.value < |s.threads|)
  {
    var line := LineOf(s.threads[i]);
    var e := EndAfter(WindowEnd(s.tracker.log), line);
    var d := DirectionAfter(Direction(s.tracker.log), line);
    Bracketed(e, d, s'.tracker,
              if s.owner != Some(i) then Holder(s) else if s.threads[i].pc.Unlock? then None else Some(s'.threads[i]))
  }

  lemma BracketAfter(failOpen: bool, s: State, i: nat, now: int)
    requires Inv(s) && WindowsAgree(s) && Enabled(s, Step(i, now))
    ensures |Advance(failOpen, s, i, now).threads| == |s.threads|
    ensures BracketedNext(s, Advance(failOpen, s, i, now), i)
    ensures LineOf(s.threads[i]).Some? ==>
              match LineOf(s.threads[i]).value
              case Recovered(_, Some(w)) => WindowEnd(s.tracker.log) <= w.from <= w.to
              case _ => true
  {
    if Critical(s.threads[i].pc) {
      BracketInside(failOpen, s, i, now);
    } else {
      WindowsOutside(failOpen, s, i, now);
    }
  }

  lemma BracketInside(failOpen: bool, s: State, i: nat, now: int)
    requires Inv(s) && WindowsAgree(s) && Enabled(s, Step(i, now)) && Critical(s.threads[i].pc)
    ensures |Advance(failOpen, s, i, now).threads| == |s.threads|
    ensures BracketedNext(s, Advance(failOpen, s, i, now), i)
  {
    var th := s.threads[i];
    var e := WindowEnd(s.tracker.log);
    assert Holder(s) == Some(th);
    if Opening(th.pc) {
      BracketOpening(failOpen, s, i, now, e);
    } else if Closing(th.pc) {
      BracketClosing(failOpen, s, i, now, e);
    } else {
      BracketElsewhere(failOpen, s, i, now, e);
    }
  }

  lemma WindowsAfter(s: State, s': State, i: nat)
    requires Exclusive(s) && WindowsAgree(s) && Exclusive(s')
    requires i < |s.threads| == |s'.threads| && s'.threads == s.threads[i := s'.threads[i]]
    requires s'.owner == if s.threads[i].pc == Lock then Some(i) else if s.threads[i].pc == Unlock then None else s.owner
    requires s.threads[i].pc == Lock ==> s.owner == None && s'.threads[i].pc == Recheck
    requires s'.tracker.log == s.tracker.log + if LineOf(s.threads[i]).Some? then [LineOf(s.threads[i]).value] else []
    requires BracketedNext(s, s', i)
    requires LineOf(s.threads[i]).Some? ==>
               match LineOf(s.threads[i]).value
               case Recovered(_, Some(w)) => WindowEnd(s.tracker.log) <= w.from <= w.to
               case _ => true
    ensures WindowsAgree(s')
  {
    WindowsOfLine(s.tracker.log, LineOf(s.threads[i]), s'.tracker.log);
    if s.owner == Some(i) {
      assert Critical(s.threads[i].pc);
    } else if s.threads[i].pc != Lock {
      assert Holder(s') == Holder(s);
    }
  }

  /** What one more line, or none, does to the windows. */
  lemma WindowsOfLine(log: seq<Line>, line: Option<Line>, log': seq<Line>)
    requires InOrder(Windows(log)) && log' == log + if line.Some? then [line.value] else []
    requires line.Some? ==>
               match line.value
               case Recovered(_, Some(w)) => WindowEnd(log) <= w.from <= w.to
               case _ => true
    ensures InOrder(Windows(log')) && WindowEnd(log') == EndAfter(WindowEnd(log), line)
    ensures Direction(log') == DirectionAfter(Direction(log), line)
  {
    var ws, ws' := Windows(log), Windows(log');
    if line.Some? {
      LogSnoc(log, line.value);
      CountersSnoc(log, line.value);
      match line.value {
        case Recovered(_, Some(w)) => InOrderSnoc(ws, w);
        case _ => assert ws' == ws;
      }
    } else {
      assert log' == log;
    }
  }

  lemma InOrderSnoc(ws: seq<Window>, w: Window)
    requires InOrder(ws) && w.from <= w.to && (ws != [] ==> ws[|ws| - 1].to <= w.from)
    ensures InOrder(ws + [w])
  {}

  lemma BracketOpening(failOpen: bool, s: State, i: nat, now: int, e: nat)
    requires Enabled(s, Step(i, now)) && Opening(s.threads[i].pc)
    requires Bracketed(e, true, s.tracker, Some(s.threads[i]))
    ensures var s' := Advance(failOpen, s, i, now);
      Bracketed(e, DirectionAfter(true, LineOf(s.threads[i])), s'.tracker, Some(s'.threads[i]))
  {}

  lemma BracketClosing(failOpen: bool, s: State, i: nat, now: int, e: nat)
    requires Enabled(s, Step(i, now)) && Closing(s.threads[i].pc)
    requires Bracketed(e, false, s.tracker, Some(s.threads[i]))
    ensures var s' := Advance(failOpen, s, i, now);
      Bracketed(EndAfter(e, LineOf(s.threads[i])), DirectionAfter(false, LineOf(s.threads[i])), s'.tracker, Some(s'.threads[i]))
  {}

  lemma BracketElsewhere(failOpen: bool, s: State, i: nat, now: int, e: nat)
    requires Inv(s) && Enabled(s, Step(i, now)) && s.owner == Some(i)
    requires var pc := s.threads[i].pc; pc.Recheck? || pc.StoreFlag? || pc.Unlock?
    requires Bracketed(e, Direction(s.tracker.log), s.tracker, Some(s.threads[i]))
    ensures var s' := Advance(failOpen, s, i, now);
      Bracketed(e, Direction(s.tracker.log), s'.tracker, if s.threads[i].pc.Unlock? then None else Some(s'.threads[i]))
  {}

  lemma WindowsOutside(failOpen: bool, s: State, i: nat, now: int)
    requires Enabled(s, Step(i, now)) && !Critical(s.threads[i].pc)
    ensures |Advance(failOpen, s, i, now).threads| == |s.threads|
    ensures var t' := Advance(failOpen, s, i, now).tracker;
      t'.windowStart == s.tracker.windowStart && t'.total >= s.tracker.total
  {}

  lemma {:induction false} RunKeepsCounters(failOpen: bool, s: State, acts: seq<Action>)
    requires Inv(s) && Conserved(s) && WindowsAgree(s) && Legal(failOpen, s, acts)
    ensures var s' := Final(failOpen, s, acts);
      Inv(s') && Conserved(s') && WindowsAgree(s')
    decreases |acts|
  {
    if acts == [] {
    } else {
      var s1 := Apply(failOpen, s, acts[0]);
      KeepsInv(failOpen, s, acts[0]);
      KeepsConserved(failOpen, s, acts[0]);
      if acts[0].Step? {
        KeepsWindows(failOpen, s, acts[0].i, acts[0].now);
      }
      RunKeepsCounters(failOpen, s1, acts[1..]);
    }
  }

  /** What the lines and counters of a state account for. */
  ghost predicate Accounted(s: State) {
    var t := s.tracker;
    var ws := Windows(t.log);
    && t.total == ReportedByHeartbeats(t.log) + t.sinceHeartbeat + s.discarded + SumInHand(s.threads)
    && t.windowStart <= t.total
    && (forall k | 0 <= k < |ws| :: ws[k].from <= ws[k].to)
    && (forall n: nat, j, k | 0 <= j < |ws| && 0 <= k < |ws| && Within(n, ws[j]) && Within(n, ws[k]) :: j == k)
    && Reported(ws) <= t.total
  }

  lemma AccountsOf(s: State)
    requires Conserved(s) && Exclusive(s) && WindowsAgree(s)
    ensures Accounted(s)
  {
    ReportedAtMostEnd(Windows(s.tracker.log));
    WindowsAreApart(Windows(s.tracker.log));
  }

  /**
   The counters in every interleaving: nothing is lost or reported twice by heartbeats;
   the unsigned difference of a recovery line never underflows; every allow, numbered by
   the total it produced, lies in at most one reported window; and the reported window
   counts sum to at most the total.
   */
  lemma CountersInEveryInterleaving(failOpen: bool, l: Lookup, acts: seq<Action>)
    requires Legal(failOpen, Init(l), acts)
    ensures Accounted(Final(failOpen, Init(l), acts))
  {
    RunKeepsCounters(failOpen, Init(l), acts);
    AccountsOf(Final(failOpen, Init(l), acts));
  }
}
