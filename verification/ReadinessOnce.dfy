/**
 When a change of the published predicate is announced exactly once: the condition on the
 threads at the moment of the change, its proof in both directions, and two runs in which
 it fails, one without any line and one with three.
 */
module ReadinessOnce {
  import opened Wrappers
  import opened Readiness
  import opened ReadinessSteps
  import opened ReadinessTheorems
  import opened ReadinessSolo

  /** Whether a thread is done with comparing and storing the flag. */
  predicate PastFlag(pc: Pc) {
    (!InObserve(pc) && !Opening(pc) && !Closing(pc)) || pc.Unlock?
  }

  /**
   A thread that saw the opposite of `q` and can still write a line about it, or can still
   store the flag of a line it has written.  At the re-check it can only when the flag is `q`.
   */
  predicate Harmful(th: Thread, t: Tracker, q: bool) {
    && Usable(th.seen) != q
    && !th.pc.ReadLookup? && !PastFlag(th.pc)
    && (th.pc.Recheck? ==> t.usable == q)
  }

  ghost predicate NoHarm(s: State, q: bool) {
    forall j | 0 <= j < |s.threads| :: !Harmful(s.threads[j], s.tracker, q)
  }

  /** In `s'` some observer that compared the flag after `s` has returned, and it had read `q`. */
  ghost predicate Heard(s: State, s': State, q: bool) {
    exists i :: 0 <= i < |s'.threads| && HeardFrom(s, s', i, q)
  }

  predicate HeardFrom(s: State, s': State, i: nat, q: bool) {
    && (i < |s.threads| ==> !PastFlag(s.threads[i].pc))
    && i < |s'.threads| && PastFlag(s'.threads[i].pc) && !s'.threads[i].pc.Unlock?
    && Usable(s'.threads[i].seen) == q
  }

  /** Lines an exact announcement of `q` takes: none when the last line says so already. */
  function Due(log: seq<Line>, q: bool): nat {
    if Direction(log) == q then 0 else 1
  }

  ghost predicate AllSettled(q: bool, acts: seq<Action>) {
    forall k | 0 <= k < |acts| :: Settled(q, acts[k])
  }

  /** Whatever happens from `s` on while the predicate stays `q`: once an observer reports it, exactly the due line was written. */
  ghost predicate AnnouncedOnce(failOpen: bool, s: State, q: bool) {
    forall acts: seq<Action> | Legal(failOpen, s, acts) && AllSettled(q, acts) && Heard(s, Final(failOpen, s, acts), q) ::
      |Transitions(Final(failOpen, s, acts).tracker.log)| == |Transitions(s.tracker.log)| + Due(s.tracker.log, q)
  }

  // ---------------------------------------------------------------------------
  // Without a harmful thread

  lemma FlagImpliesDirection(s: State, q: bool)
    requires Inv(s) && NoHarm(s, q) && s.tracker.usable == q
    ensures Direction(s.tracker.log) == q
  {}

  lemma KeepsNoHarm(failOpen: bool, s: State, a: Action, q: bool)
    requires Inv(s) && NoHarm(s, q) && Enabled(s, a) && Usable(s.source) == q && Settled(q, a)
    ensures NoHarm(Apply(failOpen, s, a), q) && Usable(Apply(failOpen, s, a).source) == q
  {
    if a.Step? {
      StepShape(failOpen, s, a.i, a.now);
      FlagOfStep(failOpen, s, a.i, a.now);
      HarmOfStep(failOpen, s, a.i, a.now, q);
      NoHarmAfter(s, Apply(failOpen, s, a), a.i, q);
    }
  }

  /** The flag changes only by its store. */
  lemma FlagOfStep(failOpen: bool, s: State, i: nat, now: int)
    requires Enabled(s, Step(i, now))
    ensures Advance(failOpen, s, i, now).tracker.usable == s.tracker.usable || s.threads[i].pc.StoreFlag?
  {}

  /** A step makes its own thread harmful only if it was. */
  lemma HarmOfStep(failOpen: bool, s: State, i: nat, now: int, q: bool)
    requires Enabled(s, Step(i, now)) && Usable(s.source) == q && !Harmful(s.threads[i], s.tracker, q)
    ensures i < |Advance(failOpen, s, i, now).threads|
    ensures !Harmful(Advance(failOpen, s, i, now).threads[i], Advance(failOpen, s, i, now).tracker, q)
  {
    var pc := s.threads[i].pc;
    if InObserve(pc) {
    } else if Opening(pc) || Closing(pc) {
      StepShape(failOpen, s, i, now);
    } else {
      CallerStays(failOpen, s, i, now);
    }
  }

  lemma CallerStays(failOpen: bool, s: State, i: nat, now: int)
    requires Enabled(s, Step(i, now)) && PastFlag(s.threads[i].pc)
    ensures i < |Advance(failOpen, s, i, now).threads| && PastFlag(Advance(failOpen, s, i, now).threads[i].pc)
  {}

  lemma NoHarmAfter(s: State, s': State, i: nat, q: bool)
    requires Inv(s) && NoHarm(s, q) && i < |s.threads| == |s'.threads|
    requires s'.threads == s.threads[i := s'.threads[i]]
    requires !Harmful(s'.threads[i], s'.tracker, q)
    requires s'.tracker.usable == s.tracker.usable || s.threads[i].pc.StoreFlag?
    ensures NoHarm(s', q)
  {
    if s.threads[i].pc.StoreFlag? {
      assert forall j | 0 <= j < |s.threads| && j != i :: !Critical(s.threads[j].pc);
    }
  }

  /** Lines written and lines due add up to the same number at every step. */
  lemma DueIsConserved(failOpen: bool, s: State, a: Action, q: bool)
    requires Inv(s) && NoHarm(s, q) && Enabled(s, a)
    ensures var s' := Apply(failOpen, s, a);
      |Transitions(s'.tracker.log)| + Due(s'.tracker.log, q) == |Transitions(s.tracker.log)| + Due(s.tracker.log, q)
  {
    LogGrows(failOpen, s, a);
    if a.Step? {
      DueAfter(s, a.i, Apply(failOpen, s, a).tracker.log, q);
    } else {
      assert Apply(failOpen, s, a).tracker.log == s.tracker.log;
    }
  }

  lemma DueAfter(s: State, i: nat, log': seq<Line>, q: bool)
    requires Inv(s) && NoHarm(s, q) && i < |s.threads|
    requires log' == s.tracker.log + if LineOf(s.threads[i]).Some? then [LineOf(s.threads[i]).value] else []
    ensures |Transitions(log')| + Due(log', q) == |Transitions(s.tracker.log)| + Due(s.tracker.log, q)
  {
    var line := LineOf(s.threads[i]);
    if line.Some? {
      LogSnoc(s.tracker.log, line.value);
      if Transition(line) {
        LineIsNews(s, i);
        assert !Harmful(s.threads[i], s.tracker, q);
      }
    } else {
      assert log' == s.tracker.log;
    }
  }

  /** Thread `i`, when it is past the flag with `q` in hand, got there because the last line says `q`. */
  predicate Told(s: State, i: nat, q: bool) {
    i < |s.threads| && PastFlag(s.threads[i].pc) && Usable(s.threads[i].seen) == q ==> Direction(s.tracker.log) == q
  }

  lemma KeepsTold(failOpen: bool, s: State, a: Action, i: nat, q: bool)
    requires Inv(s) && NoHarm(s, q) && Enabled(s, a) && Usable(s.source) == q && Told(s, i, q)
    ensures Told(Apply(failOpen, s, a), i, q)
  {
    var s' := Apply(failOpen, s, a);
    DueIsConserved(failOpen, s, a, q);
    LogGrows(failOpen, s, a);
    LinesOnlyGrow(s.tracker.log, Emitted(s, a));
    assert Direction(s.tracker.log) == q ==> Direction(s'.tracker.log) == q;
    if a.Step? {
      StepShape(failOpen, s, a.i, a.now);
      if a.i == i && !PastFlag(s.threads[i].pc) {
        PassesFlag(failOpen, s, i, a.now, q);
      }
    }
  }

  lemma LinesOnlyGrow(log: seq<Line>, more: seq<Line>)
    requires |more| <= 1
    ensures |Transitions(log + more)| >= |Transitions(log)|
  {
    if more == [] {
      assert log + more == log;
    } else {
      assert more == [more[0]];
      LogSnoc(log, more[0]);
    }
  }

  lemma PassesFlag(failOpen: bool, s: State, i: nat, now: int, q: bool)
    requires Inv(s) && NoHarm(s, q) && Enabled(s, Step(i, now)) && !PastFlag(s.threads[i].pc)
    ensures Told(Advance(failOpen, s, i, now), i, q)
  {
    if s.tracker.usable == q {
      FlagImpliesDirection(s, q);
    }
    if Critical(s.threads[i].pc) {
      assert Holder(s) == Some(s.threads[i]);
    }
  }

  lemma {:induction false} HarmlessRun(failOpen: bool, s: State, acts: seq<Action>, i: nat, q: bool)
    requires Inv(s) && NoHarm(s, q) && Usable(s.source) == q && Told(s, i, q)
    requires Legal(failOpen, s, acts) && AllSettled(q, acts)
    ensures var s' := Final(failOpen, s, acts);
      && Told(s', i, q)
      && |Transitions(s'.tracker.log)| + Due(s'.tracker.log, q) == |Transitions(s.tracker.log)| + Due(s.tracker.log, q)
    decreases |acts|
  {
    if acts == [] {
    } else {
      var s1 := Apply(failOpen, s, acts[0]);
      KeepsInv(failOpen, s, acts[0]);
      KeepsNoHarm(failOpen, s, acts[0], q);
      KeepsTold(failOpen, s, acts[0], i, q);
      DueIsConserved(failOpen, s, acts[0], q);
      HarmlessRun(failOpen, s1, acts[1..], i, q);
    }
  }

  // ---------------------------------------------------------------------------
  // With a harmful thread

  predicate Busy(pc: Pc) {
    !pc.ReadLookup? && (!PastFlag(pc) || pc.Unlock?)
  }

  /** Steps left until the return of `observe`, at most. */
  function Rank(pc: Pc): nat {
    match pc
    case LoadEver => 20
    case StoreEver => 19
    case LoadFlag => 18
    case Lock => 17
    case Recheck => 16
    case OpenSince => 9
    case OpenTotal => 8
    case OpenStart(_) => 7
    case OpenReset => 6
    case OpenEver => 5
    case OpenLine(_) => 4
    case CloseSince => 9
    case CloseTotal => 8
    case CloseStart(_) => 7
    case CloseClear(_) => 6
    case CloseLine(_) => 5
    case StoreFlag => 2
    case Unlock => 1
    case _ => 0
  }

  /** The mutex is free, or `i` holds it. */
  predicate MayRun(s: State, i: nat) {
    && i < |s.threads| && Busy(s.threads[i].pc)
    && s.owner == if Critical(s.threads[i].pc) then Some(i) else None
  }

  /** A thread that may run gets nearer to its return, and returns with the flag as it saw the predicate. */
  lemma OneStepOn(failOpen: bool, s: State, i: nat, now: int)
    requires MayRun(s, i) && now > 0
    ensures Enabled(s, Step(i, now))
    ensures var s' := Advance(failOpen, s, i, now);
      && |s'.threads| == |s.threads| && s'.threads == s.threads[i := s'.threads[i]]
      && s'.threads[i] == s.threads[i].(pc := s'.threads[i].pc)
      && s'.source == s.source
      && Rank(s'.threads[i].pc) < Rank(s.threads[i].pc)
      && (if s'.threads[i].pc == Returned then s'.owner == None else MayRun(s', i))
      && (s'.threads[i].pc.Returned? || s'.threads[i].pc.Unlock? ==>
            s'.tracker.usable == if s.threads[i].pc.Unlock? then s.tracker.usable else Usable(s.threads[i].seen))
  {
    StepShape(failOpen, s, i, now);
    NextPc(failOpen, s, i, now);
  }

  lemma NextPc(failOpen: bool, s: State, i: nat, now: int)
    requires i < |s.threads| && Busy(s.threads[i].pc)
    ensures i < |Advance(failOpen, s, i, now).threads|
    ensures var s' := Advance(failOpen, s, i, now);
      && Rank(s'.threads[i].pc) < Rank(s.threads[i].pc)
      && (s'.threads[i].pc == Returned || Busy(s'.threads[i].pc))
      && (s'.threads[i].pc == Returned ==> s.threads[i].pc.Unlock? || s.threads[i].pc.LoadFlag?)
      && (s'.threads[i].pc.Returned? || s'.threads[i].pc.Unlock? ==>
            s'.tracker.usable == if s.threads[i].pc.Unlock? then s.tracker.usable else Usable(s.threads[i].seen))
  {
    if Opening(s.threads[i].pc) {
      assert Opening(Advance(failOpen, s, i, now).threads[i].pc) || Advance(failOpen, s, i, now).threads[i].pc == StoreFlag;
    } else if Closing(s.threads[i].pc) {
      assert Closing(Advance(failOpen, s, i, now).threads[i].pc) || Advance(failOpen, s, i, now).threads[i].pc == StoreFlag;
    }
  }

  /** Alone, a thread returns from `observe` with the mutex free and the flag as it saw the predicate. */
  lemma {:induction false} Finish(failOpen: bool, s: State, i: nat) returns (k: nat, s': State)
    requires MayRun(s, i)
    ensures Reaches(failOpen, s, i, 1, k, s')
    ensures s'.threads == s.threads[i := s.threads[i].(pc := Returned)] && s'.source == s.source && s'.owner == None
    ensures s'.tracker.usable == if s.threads[i].pc.Unlock? then s.tracker.usable else Usable(s.threads[i].seen)
    decreases Rank(s.threads[i].pc)
  {
    OneStepOn(failOpen, s, i, 1);
    var s1 := Advance(failOpen, s, i, 1);
    if s1.threads[i].pc == Returned {
      k, s' := 0, s1;
      Stay(failOpen, s1, i, 1);
    } else {
      k, s' := Finish(failOpen, s1, i);
    }
    SameButOne(s.threads, s1.threads, i, Returned);
    Prepend(failOpen, s, i, 1, k, s');
    k := k + 1;
  }

  lemma Stay(failOpen: bool, s: State, i: nat, now: int)
    ensures Reaches(failOpen, s, i, now, 0, s)
  {}

  lemma SameButOne(a: seq<Thread>, b: seq<Thread>, i: nat, pc: Pc)
    requires i < |a| == |b| && b == a[i := b[i]] && b[i] == a[i].(pc := b[i].pc)
    ensures b[i := b[i].(pc := pc)] == a[i := a[i].(pc := pc)]
    ensures b[i].pc == pc ==> b == a[i := a[i].(pc := pc)]
  {}

  /** A new observer that finds the flag as it saw the predicate returns without a line, whoever holds the mutex. */
  lemma SlipsBy(failOpen: bool, s: State) returns (acts: seq<Action>)
    requires s.tracker.usable == Usable(s.source)
    ensures Legal(failOpen, s, acts) && NoPublish(acts)
    ensures Final(failOpen, s, acts) ==
            s.(tracker := Latched(s.tracker, s.source), threads := s.threads + [Thread(Healthz, s.source, Returned)])
  {
    var n := |s.threads|;
    var first := [Spawn(Healthz), Step(n, 1)];
    var s1 := Apply(failOpen, s, first[0]);
    var s2 := Apply(failOpen, s1, first[1]);
    RunTwo(failOpen, s, first[0], first[1]);
    var s3 := Advance(failOpen, s2, n, 1);
    var s4 := if s3.threads[n].pc.StoreEver? then Advance(failOpen, s3, n, 1) else s3;
    var s5 := Advance(failOpen, s4, n, 1);
    assert s5 == s.(tracker := Latched(s.tracker, s.source), threads := s.threads + [Thread(Healthz, s.source, Returned)]);
    var k := 2;
    Prepend(failOpen, s4, n, 1, 0, s5);
    if s3.threads[n].pc.StoreEver? {
      Prepend(failOpen, s3, n, 1, 1, s5);
      k := 3;
    }
    Prepend(failOpen, s2, n, 1, k - 1, s5);
    AloneDoesNotPublish(n, 1, k);
    RunConcat(failOpen, s, first, Alone(n, 1, k));
    acts := first + Alone(n, 1, k);
  }

  /** Whoever holds the mutex returns it; no other thread moves. */
  lemma Release(failOpen: bool, s: State) returns (acts: seq<Action>)
    requires Exclusive(s)
    ensures Legal(failOpen, s, acts) && NoPublish(acts)
    ensures var s' := Final(failOpen, s, acts);
      && s'.owner == None && s'.source == s.source && |s'.threads| == |s.threads|
      && forall j | 0 <= j < |s.threads| && s.owner != Some(j) :: s'.threads[j] == s.threads[j]
  {
    acts := [];
    if s.owner.Some? {
      var i := s.owner.value;
      assert Critical(s.threads[i].pc);
      var k, s' := Finish(failOpen, s, i);
      AloneDoesNotPublish(i, 1, k);
      acts := Alone(i, 1, k);
    }
  }

  /** The mutex is handed back, and a new observer reports the predicate. */
  lemma ReleaseAndReport(failOpen: bool, s: State) returns (acts: seq<Action>)
    requires Exclusive(s)
    ensures Legal(failOpen, s, acts) && NoPublish(acts)
    ensures ReportedAfter(s, Final(failOpen, s, acts)) && Final(failOpen, s, acts).owner == None
  {
    var first := Release(failOpen, s);
    var s1 := Final(failOpen, s, first);
    var second := NewObserver(failOpen, s1);
    RunConcat(failOpen, s, first, second);
    acts := first + second;
  }

  /** One more observer has returned with the published lookup; nobody else but the mutex holder moved. */
  ghost predicate ReportedAfter(s: State, s': State) {
    && |s'.threads| == |s.threads| + 1
    && s'.threads[|s.threads|] == Thread(Healthz, s.source, Returned)
    && s'.source == s.source
    && forall j | 0 <= j < |s.threads| && s.owner != Some(j) :: s'.threads[j] == s.threads[j]
  }

  lemma ReportIsHeard(s: State, s': State)
    requires ReportedAfter(s, s')
    ensures Heard(s, s', Usable(s.source))
  {
    assert HeardFrom(s, s', |s.threads|, Usable(s.source));
  }

  /**
   Gets an observer past `j` that reports the predicate, with thread `j` where it was and
   able to run: past the flag while `j` holds the mutex, or through it otherwise.
   */
  lemma ReportFirst(failOpen: bool, s: State, j: nat) returns (acts: seq<Action>)
    requires Inv(s) && j < |s.threads| && Harmful(s.threads[j], s.tracker, Usable(s.source))
    ensures Legal(failOpen, s, acts) && NoPublish(acts)
    ensures ReportedAfter(s, Final(failOpen, s, acts))
    ensures Final(failOpen, s, acts).threads[j] == s.threads[j] && MayRun(Final(failOpen, s, acts), j)
  {
    if s.owner == Some(j) {
      assert Holder(s) == Some(s.threads[j]);
      acts := SlipsBy(failOpen, s);
    } else {
      assert !Critical(s.threads[j].pc);
      acts := ReleaseAndReport(failOpen, s);
    }
  }

  /** Two alternating logs differ by the due line only if the later one announces `q`. */
  lemma WrongDirection(log: seq<Line>, log': seq<Line>, q: bool)
    requires Alternates(log) && Alternates(log') && Direction(log') != q
    ensures |Transitions(log')| != |Transitions(log)| + Due(log, q)
  {
    AlternatesByIndex(log);
    AlternatesByIndex(log');
  }

  /** Running a harmful thread to its return leaves a last line that is not `q`. */
  lemma HarmFinished(failOpen: bool, s: State, j: nat, q: bool) returns (acts: seq<Action>)
    requires Inv(s) && MayRun(s, j) && !s.threads[j].pc.Unlock? && Usable(s.threads[j].seen) != q
    ensures Legal(failOpen, s, acts) && NoPublish(acts)
    ensures var s' := Final(failOpen, s, acts);
      && |s'.threads| == |s.threads| && (forall i | 0 <= i < |s.threads| && i != j :: s'.threads[i] == s.threads[i])
      && Inv(s') && Direction(s'.tracker.log) != q
  {
    var k, s' := Finish(failOpen, s, j);
    AloneDoesNotPublish(j, 1, k);
    acts := Alone(j, 1, k);
    RunKeepsInv(failOpen, s, acts);
  }

  /** A harmful thread can make the last line the wrong one, after an observer reported the predicate. */
  lemma HarmDone(failOpen: bool, s: State, j: nat) returns (acts: seq<Action>)
    requires Inv(s) && j < |s.threads| && Harmful(s.threads[j], s.tracker, Usable(s.source))
    ensures Legal(failOpen, s, acts) && NoPublish(acts)
    ensures Heard(s, Final(failOpen, s, acts), Usable(s.source))
    ensures |Transitions(Final(failOpen, s, acts).tracker.log)| != |Transitions(s.tracker.log)| + Due(s.tracker.log, Usable(s.source))
  {
    var q := Usable(s.source);
    var first := ReportFirst(failOpen, s, j);
    RunKeepsInv(failOpen, s, first);
    var s1 := Final(failOpen, s, first);
    var rest := HarmFinished(failOpen, s1, j, q);
    RunConcat(failOpen, s, first, rest);
    acts := first + rest;
    var s2 := Final(failOpen, s1, rest);
    ReportIsHeard(s, s1);
    assert HeardFrom(s, s2, |s.threads|, q);
    WrongDirection(s.tracker.log, s2.tracker.log, q);
  }

  /**
   Exactly once, exactly when: from a reachable state whose published predicate is `q`, the
   change to `q` is announced by exactly the due line in every settled continuation that an
   observer reports from, if and only if no thread is harmful.
   */
  lemma OnceIffNoHarm(failOpen: bool, s: State, q: bool)
    requires Inv(s) && Usable(s.source) == q
    ensures AnnouncedOnce(failOpen, s, q) <==> NoHarm(s, q)
  {
    if NoHarm(s, q) {
      forall acts: seq<Action> | Legal(failOpen, s, acts) && AllSettled(q, acts) && Heard(s, Final(failOpen, s, acts), q)
        ensures |Transitions(Final(failOpen, s, acts).tracker.log)| == |Transitions(s.tracker.log)| + Due(s.tracker.log, q)
      {
        var i :| 0 <= i < |Final(failOpen, s, acts).threads| && HeardFrom(s, Final(failOpen, s, acts), i, q);
        HarmlessRun(failOpen, s, acts, i, q);
      }
    } else {
      var j :| 0 <= j < |s.threads| && Harmful(s.threads[j], s.tracker, q);
      var acts := HarmDone(failOpen, s, j);
      assert AllSettled(q, acts);
    }
  }

  /** Such an observer can always be had, so neither side holds for want of one. */
  lemma SomeoneReports(failOpen: bool, s: State) returns (acts: seq<Action>)
    requires Inv(s)
    ensures Legal(failOpen, s, acts) && NoPublish(acts)
    ensures Heard(s, Final(failOpen, s, acts), Usable(s.source))
  {
    acts := ReleaseAndReport(failOpen, s);
    ReportIsHeard(s, Final(failOpen, s, acts));
  }

  // ---------------------------------------------------------------------------
  // A change without a line

  lemma ReadsAndEnters(failOpen: bool, s: State, i: nat, now: int)
    requires i < |s.threads| && now > 0 && s.threads[i].pc == ReadLookup && s.owner == None
    requires !Usable(s.source) && s.tracker.usable
    ensures Reaches(failOpen, s, i, now, 5,
                    s.(owner := Some(i), threads := s.threads[i := s.threads[i].(seen := s.source, pc := OpenSince)]))
  {
    var s1 := Advance(failOpen, s, i, now);
    var s2 := Advance(failOpen, s1, i, now);
    var s3 := Advance(failOpen, s2, i, now);
    var s4 := Advance(failOpen, s3, i, now);
    var s5 := Advance(failOpen, s4, i, now);
    assert s5 == s.(owner := Some(i), threads := s.threads[i := s.threads[i].(seen := s.source, pc := OpenSince)]);
    Prepend(failOpen, s4, i, now, 0, s5);
    Prepend(failOpen, s3, i, now, 1, s5);
    Prepend(failOpen, s2, i, now, 2, s5);
    Prepend(failOpen, s1, i, now, 3, s5);
    Prepend(failOpen, s, i, now, 4, s5);
  }

  lemma WritesLine(failOpen: bool, s: State, i: nat, now: int)
    requires i < |s.threads| && now > 0 && s.threads[i].pc == OpenReset
    ensures var t := s.tracker;
      Reaches(failOpen, s, i, now, 3,
              Goto(s.(tracker := t.(sinceHeartbeat := 0, log := t.log + [WentUnusable(t.everReady)]),
                      discarded := s.discarded + t.sinceHeartbeat), i, StoreFlag))
  {
    var t := s.tracker;
    var s1 := Advance(failOpen, s, i, now);
    var s2 := Advance(failOpen, s1, i, now);
    var s3 := Advance(failOpen, s2, i, now);
    assert s3 == Goto(s.(tracker := t.(sinceHeartbeat := 0, log := t.log + [WentUnusable(t.everReady)]),
                         discarded := s.discarded + t.sinceHeartbeat), i, StoreFlag);
    Stay(failOpen, s3, i, now);
    Prepend(failOpen, s2, i, now, 0, s3);
    Prepend(failOpen, s1, i, now, 1, s3);
    Prepend(failOpen, s, i, now, 2, s3);
  }

  /** Up to the point where the "unusable" line is written and the flag is not yet stored. */
  lemma OpensWindow(failOpen: bool, s: State, i: nat, now: int)
    requires i < |s.threads| && now > 0 && s.threads[i].pc == OpenSince
    ensures Reaches(failOpen, s, i, now, 6,
                    Goto(s.(tracker := EmitUnusable(s.tracker, now), discarded := s.discarded + s.tracker.sinceHeartbeat), i, StoreFlag))
  {
    var s1 := Advance(failOpen, s, i, now);
    var s2 := Advance(failOpen, s1, i, now);
    var s3 := Advance(failOpen, s2, i, now);
    WritesLine(failOpen, s3, i, now);
    var t := s3.tracker;
    var end := Goto(s3.(tracker := t.(sinceHeartbeat := 0, log := t.log + [WentUnusable(t.everReady)]),
                        discarded := s3.discarded + t.sinceHeartbeat), i, StoreFlag);
    assert end == Goto(s.(tracker := EmitUnusable(s.tracker, now), discarded := s.discarded + s.tracker.sinceHeartbeat), i, StoreFlag);
    Prepend(failOpen, s2, i, now, 3, end);
    Prepend(failOpen, s1, i, now, 4, end);
    Prepend(failOpen, s, i, now, 5, end);
  }

  const ENTERED := State(FRESH, None, Some(0), [Thread(StartUp, None, OpenSince)], 0)
  const PAUSED := State(EmitUnusable(FRESH, 1), None, Some(0), [Thread(StartUp, None, StoreFlag)], 0)

  lemma Enters(failOpen: bool, s: State)
    requires s == Init(None).(threads := [Thread(StartUp, None, ReadLookup)])
    ensures Reaches(failOpen, s, 0, 1, 5, ENTERED)
  {
    ReadsAndEnters(failOpen, s, 0, 1);
    assert s.(owner := Some(0), threads := s.threads[0 := s.threads[0].(seen := s.source, pc := OpenSince)]) == ENTERED;
  }

  lemma Opens(failOpen: bool, s: State)
    requires s == ENTERED
    ensures Reaches(failOpen, s, 0, 1, 6, PAUSED)
  {
    OpensWindow(failOpen, s, 0, 1);
    assert Goto(s.(tracker := EmitUnusable(s.tracker, 1), discarded := s.discarded + s.tracker.sinceHeartbeat), 0, StoreFlag) == PAUSED;
  }

  lemma SpawnOnly(failOpen: bool, s: State, caller: Caller)
    ensures Legal(failOpen, s, [Spawn(caller)])
    ensures Final(failOpen, s, [Spawn(caller)]) == s.(threads := s.threads + [Thread(caller, None, ReadLookup)])
  {
    var s1 := Apply(failOpen, s, Spawn(caller));
    assert [Spawn(caller)][1..] == [] && Legal(failOpen, s1, []);
  }

  /** The start-up observer, alone, from a fresh tracker and no blocklist, up to its store of the flag. */
  lemma StartUpPauses(failOpen: bool) returns (acts: seq<Action>)
    ensures Legal(failOpen, Init(None), acts)
    ensures Final(failOpen, Init(None), acts) == PAUSED
  {
    var s := Init(None).(threads := [Thread(StartUp, None, ReadLookup)]);
    SpawnOnly(failOpen, Init(None), StartUp);
    assert [] + [Thread(StartUp, None, ReadLookup)] == [Thread(StartUp, None, ReadLookup)];
    Enters(failOpen, s);
    Opens(failOpen, ENTERED);
    Chain(failOpen, s, 0, 1, 5, ENTERED, 6, PAUSED);
    RunConcat(failOpen, Init(None), [Spawn(StartUp)], Alone(0, 1, 11));
    acts := [Spawn(StartUp)] + Alone(0, 1, 11);
  }

  lemma PublishOnly(failOpen: bool, s: State, l: Lookup)
    ensures Legal(failOpen, s, [Publish(l)]) && Final(failOpen, s, [Publish(l)]) == s.(source := l)
  {
    var s1 := Apply(failOpen, s, Publish(l));
    assert [Publish(l)][1..] == [] && Legal(failOpen, s1, []);
  }

  /**
   A change announced by no line: the start-up observer has written "unusable" and not yet
   stored the flag when a usable blocklist is published.  No thread can write a stale line
   any more, the last line says "unusable", and yet a health probe that reads the usable
   blocklist is answered without a "recovered" line.
   */
  lemma NoLineAtAll(failOpen: bool) returns (before: seq<Action>, after: seq<Action>)
    ensures Legal(failOpen, Init(None), before)
    ensures var s := Final(failOpen, Init(None), before);
      && s.source == Some(5) && CountStale(s.threads, true) == 0 && !Direction(s.tracker.log)
      && Legal(failOpen, s, after) && NoPublish(after)
      && var s' := Final(failOpen, s, after);
         && |s'.threads| == 2 && s'.threads[1] == Thread(Healthz, Some(5), Done)
         && Transitions(s'.tracker.log) == Transitions(s.tracker.log) == [false]
  {
    var pause := StartUpPauses(failOpen);
    var paused := Final(failOpen, Init(None), pause);
    var s := paused.(source := Some(5));
    PublishOnly(failOpen, paused, Some(5));
    RunConcat(failOpen, Init(None), pause, [Publish(Some(5))]);
    before := pause + [Publish(Some(5))];
    LogSnoc([], WentUnusable(false));
    assert [] + [WentUnusable(false)] == [WentUnusable(false)] && [] + [false] == [false];
    assert s.threads[..0] == [];

    var probe := SlipsBy(failOpen, s);
    var s1 := Final(failOpen, s, probe);
    var s2 := Advance(failOpen, s1, 1, 1);
    Prepend(failOpen, s1, 1, 1, 0, s2);
    AloneDoesNotPublish(1, 1, 1);
    RunConcat(failOpen, s, probe, Alone(1, 1, 1));
    after := probe + Alone(1, 1, 1);
  }

  /** A successful fetch that nobody can use: an empty blocklist is published and observed, and `everReady` stays false. */
  lemma EmptyFetchLeavesLatch(failOpen: bool) returns (acts: seq<Action>)
    ensures Legal(failOpen, Init(None), acts)
    ensures var s := Final(failOpen, Init(None), acts);
      s.source == Some(0) && s.threads == [Thread(Healthz, Some(0), Returned)] && !s.tracker.everReady
  {
    var publish := [Publish(Some(0))];
    PublishOnly(failOpen, Init(None), Some(0));
    var observe := NewObserver(failOpen, Init(Some(0)));
    RunConcat(failOpen, Init(None), publish, observe);
    acts := publish + observe;
  }
}
