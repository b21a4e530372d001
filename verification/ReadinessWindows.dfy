/**
 What a recovery line reports, in every interleaving: the requests counted between two
 reads of the total, one by the thread that opened the window and one by the thread that
 closed it, with the opening line between them.
 */
module ReadinessWindows {
  import opened Wrappers
  import opened Readiness
  import opened ReadinessSteps
  import opened ReadinessTheorems

  /** `states[k + 1]` follows from `states[k]` by the k-th action, from a fresh process on. */
  ghost predicate IsTrace(failOpen: bool, states: seq<State>, acts: seq<Action>) {
    && |states| == |acts| + 1 && states[0] == Init(states[0].source)
    && forall k | 0 <= k < |acts| :: Enabled(states[k], acts[k]) && states[k + 1] == Apply(failOpen, states[k], acts[k])
  }

  lemma {:induction false} TraceKeepsInv(failOpen: bool, states: seq<State>, acts: seq<Action>, n: nat)
    requires IsTrace(failOpen, states, acts) && n <= |acts|
    ensures Inv(states[n])
  {
    if n > 0 {
      TraceKeepsInv(failOpen, states, acts, n - 1);
      KeepsInv(failOpen, states[n - 1], acts[n - 1]);
    }
  }

  /** The k-th step is by thread `i`, at `pc`. */
  predicate By(states: seq<State>, acts: seq<Action>, k: nat, i: nat, pc: Pc) {
    k < |acts| && k < |states| && acts[k].Step? && acts[k].i == i && i < |states[k].threads| && states[k].threads[i].pc == pc
  }

  /** The k-th step writes an "unusable" line, by thread `i`. */
  predicate OpensBy(states: seq<State>, acts: seq<Action>, k: nat, i: nat) {
    k < |acts| && k < |states| && acts[k].Step? && acts[k].i == i && i < |states[k].threads| && states[k].threads[i].pc.OpenLine?
  }

  /** The k-th step writes no transition line. */
  predicate Silent(states: seq<State>, acts: seq<Action>, k: nat)
    requires k < |acts| && k < |states|
  {
    acts[k].Step? && acts[k].i < |states[k].threads| ==> !Transition(LineOf(states[k].threads[acts[k].i]))
  }

  ghost predicate Quiet(states: seq<State>, acts: seq<Action>, from: nat, to: nat)
    requires to <= |acts| && to <= |states|
  {
    forall k | from <= k < to :: Silent(states, acts, k)
  }

  /** The step `read` of thread `opener` that read the total for the last window, its line at `line`, and the closing read. */
  datatype Marks = Marks(opener: nat, read: nat, line: nat, close: nat)

  /** The window as the marks have it. */
  predicate Opened(states: seq<State>, acts: seq<Action>, mk: Marks, start: nat) {
    && By(states, acts, mk.read, mk.opener, OpenTotal) && start == states[mk.read].tracker.total
  }

  /** What the fields and the mutex holder's registers owe to the marks after `n` steps. */
  ghost predicate Marked(states: seq<State>, acts: seq<Action>, n: nat, mk: Marks)
    requires n <= |acts| < |states|
  {
    var s := states[n];
    && (!Direction(s.tracker.log) ==> WindowMarked(states, acts, n, mk, s.tracker.windowStart))
    && (s.owner.Some? && s.owner.value < |s.threads| ==> HolderMarked(states, acts, n, mk, s.owner.value))
  }

  ghost predicate HolderMarked(states: seq<State>, acts: seq<Action>, n: nat, mk: Marks, i: nat)
    requires n <= |acts| < |states| && i < |states[n].threads|
  {
    var t := states[n].tracker;
    match states[n].threads[i].pc
    case OpenStart(total) => mk.read < n && mk.opener == i && Opened(states, acts, mk, total)
    case OpenReset => mk.read < n && mk.opener == i && Opened(states, acts, mk, t.windowStart)
    case OpenEver => mk.read < n && mk.opener == i && Opened(states, acts, mk, t.windowStart)
    case OpenLine(_) => mk.read < n && mk.opener == i && Opened(states, acts, mk, t.windowStart)
    case CloseStart(total) => Closed(states, acts, n, mk, i, total)
    case CloseClear(Some(w)) => Closed(states, acts, n, mk, i, w.to) && w.from == t.windowStart
    case CloseLine(Some(w)) => Closed(states, acts, n, mk, i, w.to) && w.from == t.windowStart
    case _ => true
  }

  predicate Closed(states: seq<State>, acts: seq<Action>, n: nat, mk: Marks, i: nat, total: nat) {
    mk.line < mk.close < n && By(states, acts, mk.close, i, CloseTotal) && total == states[mk.close].tracker.total
  }

  /** How one step moves the marks. */
  function Moved(s: State, a: Action, n: nat, mk: Marks): Marks {
    if a.Step? && a.i < |s.threads| then
      match s.threads[a.i].pc
      case OpenTotal => mk.(opener := a.i, read := n)
      case OpenLine(_) => mk.(line := n)
      case CloseTotal => mk.(close := n)
      case _ => mk
    else mk
  }

  /** What a step does to its own thread's registers and to the window's start. */
  ghost predicate Registers(th: Thread, t: Tracker, th': Thread, t': Tracker) {
    && t'.windowStart == (if th.pc.OpenStart? then th.pc.total else t.windowStart)
    && (th'.pc.OpenStart? ==> th.pc == OpenTotal && th'.pc.total == t.total)
    && (th'.pc.OpenReset? ==> th.pc.OpenStart?)
    && (th'.pc.OpenEver? ==> th.pc.OpenReset?)
    && (th'.pc.OpenLine? ==> th.pc.OpenEver?)
    && (th'.pc.CloseStart? ==> th.pc == CloseTotal && th'.pc.total == t.total)
    && (th'.pc.CloseClear? && th'.pc.window.Some? ==>
          th.pc.CloseStart? && th'.pc.window.value.to == th.pc.total && th'.pc.window.value.from == t.windowStart)
    && (th'.pc.CloseLine? ==> th.pc == CloseClear(th'.pc.window))
  }

  lemma StepRegisters(failOpen: bool, s: State, i: nat, now: int)
    requires Enabled(s, Step(i, now))
    ensures i < |Advance(failOpen, s, i, now).threads|
    ensures Registers(s.threads[i], s.tracker, Advance(failOpen, s, i, now).threads[i], Advance(failOpen, s, i, now).tracker)
  {
    if InObserve(s.threads[i].pc) {
      ObserveRegisters(s, i);
    } else if Opening(s.threads[i].pc) {
      OpenRegisters(s, i, now);
    } else if Closing(s.threads[i].pc) {
      CloseRegisters(failOpen, s, i);
    } else {
      CallerRegisters(failOpen, s, i);
    }
  }

  lemma ObserveRegisters(s: State, i: nat)
    requires i < |s.threads| && InObserve(s.threads[i].pc)
    ensures i < |AdvanceObserve(s, i).threads|
    ensures Registers(s.threads[i], s.tracker, AdvanceObserve(s, i).threads[i], AdvanceObserve(s, i).tracker)
  {}

  lemma OpenRegisters(s: State, i: nat, now: int)
    requires i < |s.threads| && Opening(s.threads[i].pc)
    ensures i < |AdvanceOpen(s, i, now).threads|
    ensures Registers(s.threads[i], s.tracker, AdvanceOpen(s, i, now).threads[i], AdvanceOpen(s, i, now).tracker)
  {}

  lemma CloseRegisters(failOpen: bool, s: State, i: nat)
    requires i < |s.threads| && Closing(s.threads[i].pc)
    ensures i < |AdvanceClose(failOpen, s, i).threads|
    ensures Registers(s.threads[i], s.tracker, AdvanceClose(failOpen, s, i).threads[i], AdvanceClose(failOpen, s, i).tracker)
  {}

  lemma CallerRegisters(failOpen: bool, s: State, i: nat)
    requires i < |s.threads| && !InObserve(s.threads[i].pc) && !Opening(s.threads[i].pc) && !Closing(s.threads[i].pc)
    ensures i < |AdvanceCaller(failOpen, s, i).threads|
    ensures Registers(s.threads[i], s.tracker, AdvanceCaller(failOpen, s, i).threads[i], AdvanceCaller(failOpen, s, i).tracker)
  {}

  /** The facts about one step that keeping the marks takes. */
  ghost predicate StepFacts(s: State, i: nat, s': State) {
    && Inv(s) && Inv(s') && i < |s.threads| == |s'.threads|
    && s'.threads == s.threads[i := s'.threads[i]]
    && s'.owner == (if s.threads[i].pc == Lock then Some(i) else if s.threads[i].pc == Unlock then None else s.owner)
    && (s.threads[i].pc == Lock ==> s'.threads[i].pc == Recheck)
    && s'.tracker.log == s.tracker.log + (if LineOf(s.threads[i]).Some? then [LineOf(s.threads[i]).value] else [])
    && Registers(s.threads[i], s.tracker, s'.threads[i], s'.tracker)
  }

  lemma FactsOfStep(failOpen: bool, s: State, i: nat, now: int)
    requires Inv(s) && Enabled(s, Step(i, now))
    ensures StepFacts(s, i, Advance(failOpen, s, i, now))
  {
    KeepsInv(failOpen, s, Step(i, now));
    StepShape(failOpen, s, i, now);
    LogGrows(failOpen, s, Step(i, now));
    StepRegisters(failOpen, s, i, now);
  }

  /** Outside a window nothing follows from the last line; inside, the line of the opener is the last transition. */
  lemma DirectionOf(s: State, i: nat, s': State)
    requires StepFacts(s, i, s')
    ensures Direction(s'.tracker.log) ==
            if Transition(LineOf(s.threads[i])) then LineOf(s.threads[i]).value.Recovered? else Direction(s.tracker.log)
    ensures Critical(s.threads[i].pc) <==> s.owner == Some(i)
    ensures Opening(s.threads[i].pc) ==> Direction(s.tracker.log)
    ensures Closing(s.threads[i].pc) ==> !Direction(s.tracker.log)
  {
    if LineOf(s.threads[i]).Some? {
      LogSnoc(s.tracker.log, LineOf(s.threads[i]).value);
    } else {
      assert s'.tracker.log == s.tracker.log;
    }
    if Critical(s.threads[i].pc) {
      assert Holder(s) == Some(s.threads[i]);
    }
  }

  lemma KeepsMarked(states: seq<State>, acts: seq<Action>, n: nat, mk: Marks)
    requires n < |acts| < |states| && acts[n].Step? && acts[n].i < |states[n].threads|
    requires StepFacts(states[n], acts[n].i, states[n + 1]) && Marked(states, acts, n, mk)
    ensures Marked(states, acts, n + 1, Moved(states[n], acts[n], n, mk))
  {
    DirectionOf(states[n], acts[n].i, states[n + 1]);
    KeepsWindowMarked(states, acts, n, mk);
    if states[n].owner == Some(acts[n].i) {
      KeepsHolderMarked(states, acts, n, mk);
    } else {
      KeepsOtherHolder(states, acts, n, mk);
    }
  }

  /** The marks of an open window, after `n` steps. */
  ghost predicate WindowMarked(states: seq<State>, acts: seq<Action>, n: nat, mk: Marks, start: nat)
    requires n <= |acts| < |states|
  {
    && mk.read < mk.line < n && Opened(states, acts, mk, start)
    && OpensBy(states, acts, mk.line, mk.opener) && Quiet(states, acts, mk.line + 1, n)
  }

  lemma KeepsWindowMarked(states: seq<State>, acts: seq<Action>, n: nat, mk: Marks)
    requires n < |acts| < |states| && acts[n].Step? && acts[n].i < |states[n].threads|
    requires Marked(states, acts, n, mk)
    requires var s, s', th := states[n], states[n + 1], states[n].threads[acts[n].i];
      && Direction(s'.tracker.log) == (if Transition(LineOf(th)) then LineOf(th).value.Recovered? else Direction(s.tracker.log))
      && (Opening(th.pc) ==> Direction(s.tracker.log) && s.owner == Some(acts[n].i))
      && (!th.pc.OpenStart? ==> s'.tracker.windowStart == s.tracker.windowStart)
    ensures !Direction(states[n + 1].tracker.log) ==>
              WindowMarked(states, acts, n + 1, Moved(states[n], acts[n], n, mk), states[n + 1].tracker.windowStart)
  {
    var s, i := states[n], acts[n].i;
    if s.threads[i].pc.OpenLine? {
      assert s.owner == Some(i) && HolderMarked(states, acts, n, mk, i);
      assert s.threads[i].pc != OpenTotal && mk.read < n;
      JustOpened(states, acts, n, mk, s.tracker.windowStart);
    } else if !Direction(states[n + 1].tracker.log) {
      assert !Opening(s.threads[i].pc) && Silent(states, acts, n);
      StillOpen(states, acts, n, mk, s.tracker.windowStart, Moved(s, acts[n], n, mk));
    }
  }

  lemma JustOpened(states: seq<State>, acts: seq<Action>, n: nat, mk: Marks, start: nat)
    requires n < |acts| < |states| && OpensBy(states, acts, n, mk.opener)
    requires mk.read < n && Opened(states, acts, mk, start)
    ensures WindowMarked(states, acts, n + 1, mk.(line := n), start)
  {}

  lemma StillOpen(states: seq<State>, acts: seq<Action>, n: nat, mk: Marks, start: nat, mk': Marks)
    requires n < |acts| < |states| && Silent(states, acts, n) && WindowMarked(states, acts, n, mk, start)
    requires mk'.opener == mk.opener && mk'.read == mk.read && mk'.line == mk.line
    ensures WindowMarked(states, acts, n + 1, mk', start)
  {}

  /** A step outside the mutex leaves the holder's registers and the window alone, or takes the mutex. */
  lemma KeepsOtherHolder(states: seq<State>, acts: seq<Action>, n: nat, mk: Marks)
    requires n < |acts| < |states| && acts[n].Step? && acts[n].i < |states[n].threads|
    requires StepFacts(states[n], acts[n].i, states[n + 1]) && Marked(states, acts, n, mk)
    requires states[n].owner != Some(acts[n].i)
    ensures states[n + 1].owner.Some? && states[n + 1].owner.value < |states[n + 1].threads| ==>
              HolderMarked(states, acts, n + 1, Moved(states[n], acts[n], n, mk), states[n + 1].owner.value)
  {
    DirectionOf(states[n], acts[n].i, states[n + 1]);
  }

  lemma KeepsHolderMarked(states: seq<State>, acts: seq<Action>, n: nat, mk: Marks)
    requires n < |acts| < |states| && acts[n].Step? && acts[n].i < |states[n].threads|
    requires StepFacts(states[n], acts[n].i, states[n + 1]) && Marked(states, acts, n, mk)
    requires states[n].owner == Some(acts[n].i)
    ensures states[n + 1].owner == Some(acts[n].i) ==>
              HolderMarked(states, acts, n + 1, Moved(states[n], acts[n], n, mk), acts[n].i)
  {
    DirectionOf(states[n], acts[n].i, states[n + 1]);
  }

  lemma {:induction false} Track(failOpen: bool, states: seq<State>, acts: seq<Action>, n: nat) returns (mk: Marks)
    requires IsTrace(failOpen, states, acts) && n <= |acts|
    ensures Marked(states, acts, n, mk)
  {
    if n == 0 {
      mk := Marks(0, 0, 0, 0);
    } else {
      var before := Track(failOpen, states, acts, n - 1);
      TraceKeepsInv(failOpen, states, acts, n - 1);
      mk := Moved(states[n - 1], acts[n - 1], n - 1, before);
      if acts[n - 1].Step? {
        FactsOfStep(failOpen, states[n - 1], acts[n - 1].i, acts[n - 1].now);
        KeepsMarked(states, acts, n - 1, before);
      } else {
        OthersKeepMarked(failOpen, states, acts, n - 1, before);
      }
    }
  }

  lemma OthersKeepMarked(failOpen: bool, states: seq<State>, acts: seq<Action>, n: nat, mk: Marks)
    requires n < |acts| < |states| && !acts[n].Step? && states[n + 1] == Apply(failOpen, states[n], acts[n])
    requires Inv(states[n]) && Marked(states, acts, n, mk)
    ensures Marked(states, acts, n + 1, mk)
  {}

  /** The steps that count an allow among those from `lo` on and before `hi`. */
  function Adds(states: seq<State>, acts: seq<Action>, lo: nat, hi: nat): nat
    requires lo <= hi <= |acts| && hi <= |states|
    decreases hi
  {
    if lo == hi then 0
    else Adds(states, acts, lo, hi - 1) +
         if acts[hi - 1].Step? && By(states, acts, hi - 1, acts[hi - 1].i, AddTotal) then 1 else 0
  }

  lemma TotalOfStep(failOpen: bool, s: State, i: nat, now: int)
    requires Enabled(s, Step(i, now))
    ensures Advance(failOpen, s, i, now).tracker.total == s.tracker.total + if s.threads[i].pc == AddTotal then 1 else 0
  {}

  lemma TotalOfAction(failOpen: bool, s: State, a: Action, s': State)
    requires Enabled(s, a) && s' == Apply(failOpen, s, a)
    ensures s'.tracker.total == s.tracker.total + if a.Step? && s.threads[a.i].pc == AddTotal then 1 else 0
  {
    if a.Step? {
      TotalOfStep(failOpen, s, a.i, a.now);
    }
  }

  lemma {:induction false} TotalCountsAdds(failOpen: bool, states: seq<State>, acts: seq<Action>, lo: nat, hi: nat)
    requires IsTrace(failOpen, states, acts) && lo <= hi <= |acts|
    ensures states[hi].tracker.total == states[lo].tracker.total + Adds(states, acts, lo, hi)
    decreases hi
  {
    if lo < hi {
      TotalCountsAdds(failOpen, states, acts, lo, hi - 1);
      TotalOfAction(failOpen, states[hi - 1], acts[hi - 1], states[hi]);
    }
  }

  /**
   In every interleaving a recovery line that reports a window reports exactly the allows
   counted between the opener's read of the total and the closer's: the opener read it
   before it wrote the last "unusable" line, and the closer after that line, so every allow
   counted from the line to the closing read is in the window.
   */
  lemma WindowIsExact(failOpen: bool, states: seq<State>, acts: seq<Action>, k: nat, w: Window)
    returns (mk: Marks)
    requires IsTrace(failOpen, states, acts) && k < |acts| && acts[k].Step?
    requires LineOf(states[k].threads[acts[k].i]).Some?
    requires LineOf(states[k].threads[acts[k].i]).value == Recovered(states[k].threads[acts[k].i].seen, Some(w))
    ensures mk.read < mk.line < mk.close < k
    ensures By(states, acts, mk.read, mk.opener, OpenTotal) && OpensBy(states, acts, mk.line, mk.opener)
    ensures Quiet(states, acts, mk.line + 1, k) && By(states, acts, mk.close, acts[k].i, CloseTotal)
    ensures w.from == states[mk.read].tracker.total && w.to == states[mk.close].tracker.total
    ensures w.to - w.from == Adds(states, acts, mk.read, mk.close)
  {
    mk := Track(failOpen, states, acts, k);
    TraceKeepsInv(failOpen, states, acts, k);
    FactsOfStep(failOpen, states[k], acts[k].i, acts[k].now);
    DirectionOf(states[k], acts[k].i, states[k + 1]);
    TotalCountsAdds(failOpen, states, acts, mk.read, mk.close);
  }
}
