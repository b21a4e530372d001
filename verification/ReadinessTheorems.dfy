/**
 What every interleaving keeps: alternation of the transition lines, the flag and the
 timestamp outside the critical section, the latch, and the bound on lines that stale
 observers can still cause.
 */
module ReadinessTheorems {
  import opened Wrappers
  import opened Readiness
  import opened ReadinessSteps

  /**
   In every interleaving the transition lines are "unusable", "recovered", "unusable" and
   so on; while no thread holds the mutex the flag says what the last line said and the
   timestamp is set exactly while the flag is false; and a recovery line has always been
   preceded by setting `everReady`.
   */
  lemma EveryInterleaving(failOpen: bool, l: Lookup, acts: seq<Action>)
    requires Legal(failOpen, Init(l), acts)
    ensures var s := Final(failOpen, Init(l), acts);
      var t := s.tracker;
      && (forall k | 0 <= k < |Transitions(t.log)| :: Transitions(t.log)[k] == (k % 2 == 1))
      && (s.owner == None ==> t.usable == (|Transitions(t.log)| % 2 == 0))
      && (s.owner == None ==> (t.unusableSince != 0 <==> !t.usable))
      && (HasRecovery(t.log) ==> t.everReady)
  {
    RunKeepsInv(failOpen, Init(l), acts);
    AlternatesByIndex(Final(failOpen, Init(l), acts).tracker.log);
  }

  // ---------------------------------------------------------------------------
  // The latch records an observation of a usable blocklist, not a successful fetch

  predicate NothingUsable(s: State) {
    && !Usable(s.source)
    && forall i | 0 <= i < |s.threads| :: !Usable(s.threads[i].seen) && !s.threads[i].pc.StoreEver?
  }

  predicate PublishesUsable(a: Action) {
    a.Publish? && Usable(a.l)
  }

  lemma KeepsNothingUsable(failOpen: bool, s: State, a: Action)
    requires NothingUsable(s) && !s.tracker.everReady && Enabled(s, a) && !PublishesUsable(a)
    ensures NothingUsable(Apply(failOpen, s, a)) && !Apply(failOpen, s, a).tracker.everReady
  {
    if a.Step? {
      StepShape(failOpen, s, a.i, a.now);
    }
  }

  /**
   `everReady` stays false for as long as only unusable blocklists are published, however
   many fetches succeeded; then there is no recovery line and at most one transition.
   */
  lemma {:induction false} LatchNeedsUsableBlocklist(failOpen: bool, s: State, acts: seq<Action>)
    requires Inv(s) && NothingUsable(s) && !s.tracker.everReady && Legal(failOpen, s, acts)
    requires forall k | 0 <= k < |acts| :: !PublishesUsable(acts[k])
    ensures var t := Final(failOpen, s, acts).tracker;
      !t.everReady && !HasRecovery(t.log) && |Transitions(t.log)| <= 1
    decreases |acts|
  {
    if acts == [] {
      OneTransitionWithoutRecovery(s.tracker.log);
    } else {
      KeepsInv(failOpen, s, acts[0]);
      KeepsNothingUsable(failOpen, s, acts[0]);
      LatchNeedsUsableBlocklist(failOpen, Apply(failOpen, s, acts[0]), acts[1..]);
    }
  }

  // ---------------------------------------------------------------------------
  // Exactly when the latch is set

  predicate LatchedBy(th: Thread) {
    PastLatch(th.pc) && Usable(th.seen)
  }

  /** Some thread has got past the latch with a usable lookup in hand. */
  ghost predicate UsableWasObserved(s: State) {
    exists i :: 0 <= i < |s.threads| && LatchedBy(s.threads[i])
  }

  ghost predicate LatchExact(s: State) {
    && (forall i | 0 <= i < |s.threads| :: s.threads[i].pc.StoreEver? ==> Usable(s.threads[i].seen))
    && (s.tracker.everReady <==> UsableWasObserved(s))
  }

  lemma KeepsLatchExact(failOpen: bool, s: State, a: Action)
    requires LatchExact(s) && Enabled(s, a)
    ensures LatchExact(Apply(failOpen, s, a))
  {
    var s' := Apply(failOpen, s, a);
    match a
    case Publish(_) =>
      assert s'.threads == s.threads;
    case Spawn(_) =>
      forall i | 0 <= i < |s.threads| ensures s'.threads[i] == s.threads[i] {}
      if UsableWasObserved(s) {
        var i :| 0 <= i < |s.threads| && LatchedBy(s.threads[i]);
        assert LatchedBy(s'.threads[i]);
      }
    case Step(i, now) =>
      StepShape(failOpen, s, i, now);
      LatchOfStep(failOpen, s, i, now);
      LatchAfter(s, s', i);
  }

  /** A step that gets its thread past the latch leaves it set if the thread saw a usable lookup; only such a step sets it. */
  lemma LatchOfStep(failOpen: bool, s: State, i: nat, now: int)
    requires Enabled(s, Step(i, now)) && (s.threads[i].pc.StoreEver? ==> Usable(s.threads[i].seen))
    ensures i < |Advance(failOpen, s, i, now).threads|
    ensures var s' := Advance(failOpen, s, i, now);
      && (s'.threads[i].pc.StoreEver? ==> Usable(s'.threads[i].seen))
      && (LatchedBy(s.threads[i]) ==> LatchedBy(s'.threads[i]))
      && (s.tracker.everReady ==> s'.tracker.everReady)
      && (s'.tracker.everReady && !s.tracker.everReady ==> LatchedBy(s'.threads[i]))
      && (LatchedBy(s'.threads[i]) && !LatchedBy(s.threads[i]) ==> s'.tracker.everReady)
  {}

  lemma LatchAfter(s: State, s': State, i: nat)
    requires LatchExact(s) && i < |s.threads| == |s'.threads| && s'.threads == s.threads[i := s'.threads[i]]
    requires s'.threads[i].pc.StoreEver? ==> Usable(s'.threads[i].seen)
    requires LatchedBy(s.threads[i]) ==> LatchedBy(s'.threads[i])
    requires s.tracker.everReady ==> s'.tracker.everReady
    requires s'.tracker.everReady && !s.tracker.everReady ==> LatchedBy(s'.threads[i])
    requires LatchedBy(s'.threads[i]) && !LatchedBy(s.threads[i]) ==> s'.tracker.everReady
    ensures LatchExact(s')
  {
    if s.tracker.everReady {
      var j :| 0 <= j < |s.threads| && LatchedBy(s.threads[j]);
      assert LatchedBy(s'.threads[j]);
    } else if s'.tracker.everReady {
      assert LatchedBy(s'.threads[i]);
    } else {
      assert forall j | 0 <= j < |s'.threads| && j != i :: s'.threads[j] == s.threads[j];
    }
  }

  /**
   In every state of every run `everReady` is set if and only if some observer got past the
   latch with a usable lookup; publishing one, or an empty one, does not set it.
   */
  lemma {:induction false} LatchIffUsableObserved(failOpen: bool, s: State, acts: seq<Action>)
    requires LatchExact(s) && Legal(failOpen, s, acts)
    ensures LatchExact(Final(failOpen, s, acts))
    decreases |acts|
  {
    if acts == [] {
    } else {
      KeepsLatchExact(failOpen, s, acts[0]);
      LatchIffUsableObserved(failOpen, Apply(failOpen, s, acts[0]), acts[1..]);
    }
  }

  /** The same from the start of the process. */
  lemma LatchFromStart(failOpen: bool, l: Lookup, acts: seq<Action>)
    requires Legal(failOpen, Init(l), acts)
    ensures var s := Final(failOpen, Init(l), acts);
      s.tracker.everReady <==> exists i :: 0 <= i < |s.threads| && PastLatch(s.threads[i].pc) && Usable(s.threads[i].seen)
  {
    LatchIffUsableObserved(failOpen, Init(l), acts);
    var s := Final(failOpen, Init(l), acts);
    assert LatchExact(s);
    if exists i :: 0 <= i < |s.threads| && PastLatch(s.threads[i].pc) && Usable(s.threads[i].seen) {
      var i :| 0 <= i < |s.threads| && PastLatch(s.threads[i].pc) && Usable(s.threads[i].seen);
      assert LatchedBy(s.threads[i]);
    }
  }

  lemma {:induction false} OneTransitionWithoutRecovery(log: seq<Line>)
    requires Alternates(log) && !HasRecovery(log)
    ensures |Transitions(log)| <= 1 && (Direction(log) ==> Transitions(log) == [])
  {
    if log == [] {
    } else {
      var front := log[..|log| - 1];
      assert log == front + [log[|log| - 1]];
      LogSnoc(front, log[|log| - 1]);
      OneTransitionWithoutRecovery(front);
    }
  }

  // ---------------------------------------------------------------------------
  // Stale observers

  /** A thread that read the lookup before the predicate became `q` and may still write a line about it. */
  predicate Stale(th: Thread, q: bool) {
    && Usable(th.seen) != q
    && (th.pc.LoadEver? || th.pc.StoreEver? || th.pc.LoadFlag? || th.pc.Lock? || th.pc.Recheck?
        || Opening(th.pc) || Closing(th.pc))
  }

  function CountStale(ths: seq<Thread>, q: bool): nat {
    if ths == [] then 0 else CountStale(ths[..|ths| - 1], q) + if Stale(ths[|ths| - 1], q) then 1 else 0
  }

  lemma {:induction false} CountStaleUpdate(ths: seq<Thread>, i: nat, th: Thread, q: bool)
    requires i < |ths|
    ensures CountStale(ths[i := th], q) + (if Stale(ths[i], q) then 1 else 0)
         == CountStale(ths, q) + (if Stale(th, q) then 1 else 0)
  {
    var n := |ths| - 1;
    if i == n {
      assert ths[i := th][..n] == ths[..n];
    } else {
      assert ths[i := th][..n] == ths[..n][i := th];
      CountStaleUpdate(ths[..n], i, th, q);
    }
  }

  /** Lines that may still come while the predicate stays `q`. */
  function Budget(s: State, q: bool): nat {
    2 * CountStale(s.threads, q) + if Direction(s.tracker.log) == q then 0 else 1
  }

  /** The published predicate is `q` and stays so. */
  predicate Settled(q: bool, a: Action) {
    a.Publish? ==> Usable(a.l) == q
  }

  predicate Transition(line: Option<Line>) {
    line.Some? && !line.value.StillUnusable?
  }

  /** A step makes no thread stale, and the thread that writes a line has spent its staleness. */
  lemma StaleShape(failOpen: bool, s: State, i: nat, now: int, q: bool)
    requires Enabled(s, Step(i, now)) && Usable(s.source) == q
    ensures i < |Advance(failOpen, s, i, now).threads|
    ensures var th' := Advance(failOpen, s, i, now).threads[i];
      && (Stale(th', q) ==> Stale(s.threads[i], q))
      && (Transition(LineOf(s.threads[i])) ==> !Stale(th', q))
  {}

  /** A transition line announces what its thread saw, which is not what the last line announced. */
  lemma LineIsNews(s: State, i: nat)
    requires Inv(s) && i < |s.threads| && Transition(LineOf(s.threads[i]))
    ensures LineOf(s.threads[i]).value.Recovered? == Usable(s.threads[i].seen)
    ensures Direction(s.tracker.log) != Usable(s.threads[i].seen)
    ensures forall q | Usable(s.threads[i].seen) != q :: Stale(s.threads[i], q)
  {}

  lemma BudgetPaysForLines(failOpen: bool, s: State, a: Action, q: bool)
    requires Inv(s) && Enabled(s, a) && Usable(s.source) == q && Settled(q, a)
    ensures var s' := Apply(failOpen, s, a);
      && Usable(s'.source) == q
      && |Transitions(s'.tracker.log)| + Budget(s', q) <= |Transitions(s.tracker.log)| + Budget(s, q)
  {
    var s' := Apply(failOpen, s, a);
    match a
    case Publish(_) =>
    case Spawn(c) =>
      assert s'.threads[..|s.threads|] == s.threads;
    case Step(i, now) =>
      StepShape(failOpen, s, i, now);
      StaleShape(failOpen, s, i, now, q);
      LogGrows(failOpen, s, a);
      BudgetAfter(s, s', i, q);
  }

  lemma BudgetAfter(s: State, s': State, i: nat, q: bool)
    requires Inv(s) && i < |s.threads| == |s'.threads|
    requires s'.threads == s.threads[i := s'.threads[i]]
    requires s'.tracker.log == s.tracker.log + if LineOf(s.threads[i]).Some? then [LineOf(s.threads[i]).value] else []
    requires Stale(s'.threads[i], q) ==> Stale(s.threads[i], q)
    requires Transition(LineOf(s.threads[i])) ==> !Stale(s'.threads[i], q)
    ensures |Transitions(s'.tracker.log)| + Budget(s', q) <= |Transitions(s.tracker.log)| + Budget(s, q)
  {
    CountStaleUpdate(s.threads, i, s'.threads[i], q);
    var line := LineOf(s.threads[i]);
    if line.Some? {
      LogSnoc(s.tracker.log, line.value);
      if Transition(line) {
        LineIsNews(s, i);
      }
    } else {
      assert s'.tracker.log == s.tracker.log;
    }
  }

  /**
   After the predicate has settled, at most two lines per stale observer and one more are
   ever written, in every continuation; with no stale observer at most one, and none when
   the last line already announces the predicate.
   */
  lemma {:induction false} StaleObserverBound(failOpen: bool, s: State, acts: seq<Action>, q: bool)
    requires Inv(s) && Legal(failOpen, s, acts) && Usable(s.source) == q
    requires forall k | 0 <= k < |acts| :: Settled(q, acts[k])
    ensures |Transitions(Final(failOpen, s, acts).tracker.log)| <=
            |Transitions(s.tracker.log)| + 2 * CountStale(s.threads, q)
            + if Direction(s.tracker.log) == q then 0 else 1
    decreases |acts|
  {
    if acts == [] {
    } else {
      KeepsInv(failOpen, s, acts[0]);
      BudgetPaysForLines(failOpen, s, acts[0], q);
      StaleObserverBound(failOpen, Apply(failOpen, s, acts[0]), acts[1..], q);
    }
  }
}
