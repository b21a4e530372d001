/**
 Threads that run `observe` without interference, and the runs that reach the bound on
 stale observers.
 */
module ReadinessSolo {
  import opened Wrappers
  import opened Readiness
  import opened ReadinessSteps
  import opened ReadinessTheorems

  /** The schedule in which thread `i` takes `k` steps in a row. */
  function Alone(i: nat, now: int, k: nat): seq<Action> {
    if k == 0 then [] else [Step(i, now)] + Alone(i, now, k - 1)
  }

  /** Thread `i`, stepping alone, takes `s` to `s'`. */
  ghost predicate Reaches(failOpen: bool, s: State, i: nat, now: int, k: nat, s': State) {
    Legal(failOpen, s, Alone(i, now, k)) && Final(failOpen, s, Alone(i, now, k)) == s'
  }

  lemma Prepend(failOpen: bool, s: State, i: nat, now: int, k: nat, s': State)
    requires Enabled(s, Step(i, now)) && Reaches(failOpen, Advance(failOpen, s, i, now), i, now, k, s')
    ensures Reaches(failOpen, s, i, now, k + 1, s')
  {}

  /** `s` with thread `i` back from `observe`, the mutex free and the tracker as given. */
  function BackFromObserve(s: State, i: nat, t: Tracker, discarded: nat): State
    requires i < |s.threads|
  {
    Goto(s.(tracker := t, owner := None, discarded := discarded), i, Returned)
  }

  lemma FromStoreFlag(failOpen: bool, s: State, i: nat, now: int)
    requires i < |s.threads| && now > 0 && s.threads[i].pc == StoreFlag
    ensures Reaches(failOpen, s, i, now, 2,
                    BackFromObserve(s, i, s.tracker.(usable := Usable(s.threads[i].seen)), s.discarded))
  {
    var s1 := Advance(failOpen, s, i, now);
    var s2 := Advance(failOpen, s1, i, now);
    assert s2 == BackFromObserve(s, i, s.tracker.(usable := Usable(s.threads[i].seen)), s.discarded);
    Prepend(failOpen, s1, i, now, 0, s2);
    Prepend(failOpen, s, i, now, 1, s2);
  }

  lemma FromOpenReset(failOpen: bool, s: State, i: nat, now: int)
    requires i < |s.threads| && now > 0 && s.threads[i].pc == OpenReset && !Usable(s.threads[i].seen)
    ensures var t := s.tracker;
      Reaches(failOpen, s, i, now, 5,
              BackFromObserve(s, i, t.(sinceHeartbeat := 0, log := t.log + [WentUnusable(t.everReady)], usable := false),
                              s.discarded + t.sinceHeartbeat))
  {
    var s1 := Advance(failOpen, s, i, now);
    var s2 := Advance(failOpen, s1, i, now);
    var s3 := Advance(failOpen, s2, i, now);
    FromStoreFlag(failOpen, s3, i, now);
    var end := BackFromObserve(s3, i, s3.tracker.(usable := false), s3.discarded);
    Prepend(failOpen, s2, i, now, 2, end);
    Prepend(failOpen, s1, i, now, 3, end);
    Prepend(failOpen, s, i, now, 4, end);
  }

  lemma FromOpenStart(failOpen: bool, s: State, i: nat, now: int)
    requires i < |s.threads| && now > 0 && s.threads[i].pc.OpenStart? && !Usable(s.threads[i].seen)
    ensures var t := s.tracker;
      Reaches(failOpen, s, i, now, 6,
              BackFromObserve(s, i, t.(windowStart := s.threads[i].pc.total, sinceHeartbeat := 0,
                                       log := t.log + [WentUnusable(t.everReady)], usable := false),
                              s.discarded + t.sinceHeartbeat))
  {
    var s1 := Advance(failOpen, s, i, now);
    FromOpenReset(failOpen, s1, i, now);
    var t := s1.tracker;
    Prepend(failOpen, s, i, now, 5,
            BackFromObserve(s1, i, t.(sinceHeartbeat := 0, log := t.log + [WentUnusable(t.everReady)], usable := false),
                            s1.discarded + t.sinceHeartbeat));
  }

  lemma FromOpenSince(failOpen: bool, s: State, i: nat, now: int)
    requires i < |s.threads| && now > 0 && s.threads[i].pc == OpenSince && !Usable(s.threads[i].seen)
    ensures Reaches(failOpen, s, i, now, 8,
                    BackFromObserve(s, i, EmitUnusable(s.tracker, now).(usable := false), s.discarded + s.tracker.sinceHeartbeat))
  {
    var s1 := Advance(failOpen, s, i, now);
    var s2 := Advance(failOpen, s1, i, now);
    FromOpenStart(failOpen, s2, i, now);
    var end := BackFromObserve(s, i, EmitUnusable(s.tracker, now).(usable := false), s.discarded + s.tracker.sinceHeartbeat);
    Prepend(failOpen, s1, i, now, 6, end);
    Prepend(failOpen, s, i, now, 7, end);
  }

  lemma FromCloseClear(failOpen: bool, s: State, i: nat, now: int)
    requires i < |s.threads| && now > 0 && s.threads[i].pc.CloseClear? && Usable(s.threads[i].seen)
    ensures var t := s.tracker;
      Reaches(failOpen, s, i, now, 4,
              BackFromObserve(s, i, t.(unusableSince := 0, log := t.log + [Recovered(s.threads[i].seen, s.threads[i].pc.window)], usable := true),
                              s.discarded))
  {
    var s1 := Advance(failOpen, s, i, now);
    var s2 := Advance(failOpen, s1, i, now);
    FromStoreFlag(failOpen, s2, i, now);
    var end := BackFromObserve(s2, i, s2.tracker.(usable := true), s2.discarded);
    Prepend(failOpen, s1, i, now, 2, end);
    Prepend(failOpen, s, i, now, 3, end);
  }

  lemma FromCloseSince(failOpen: bool, s: State, i: nat, now: int) returns (k: nat)
    requires i < |s.threads| && now > 0 && s.threads[i].pc == CloseSince && Usable(s.threads[i].seen)
    ensures Reaches(failOpen, s, i, now, k,
                    BackFromObserve(s, i, EmitRecovered(failOpen, s.tracker, s.threads[i].seen).(usable := true), s.discarded))
  {
    var s1 := Advance(failOpen, s, i, now);
    var end := BackFromObserve(s, i, EmitRecovered(failOpen, s.tracker, s.threads[i].seen).(usable := true), s.discarded);
    if failOpen {
      var s2 := Advance(failOpen, s1, i, now);
      var s3 := Advance(failOpen, s2, i, now);
      FromCloseClear(failOpen, s3, i, now);
      Prepend(failOpen, s2, i, now, 4, end);
      Prepend(failOpen, s1, i, now, 5, end);
      Prepend(failOpen, s, i, now, 6, end);
      k := 7;
    } else {
      FromCloseClear(failOpen, s1, i, now);
      Prepend(failOpen, s, i, now, 4, end);
      k := 5;
    }
  }

  /** From the re-check under the mutex, when the flag still differs. */
  lemma FromRecheck(failOpen: bool, s: State, i: nat, now: int) returns (k: nat, d: nat)
    requires i < |s.threads| && now > 0 && s.threads[i].pc == Recheck
    requires s.tracker.usable != Usable(s.threads[i].seen)
    requires Usable(s.threads[i].seen) ==> s.tracker.everReady
    ensures Reaches(failOpen, s, i, now, k, BackFromObserve(s, i, Observed(failOpen, s.tracker, s.threads[i].seen, now), d))
  {
    var l, t := s.threads[i].seen, s.tracker;
    assert Latched(t, l) == t;
    var s1 := Advance(failOpen, s, i, now);
    if Usable(l) {
      d := s.discarded;
      k := FromCloseSince(failOpen, s1, i, now);
    } else {
      d := s.discarded + t.sinceHeartbeat;
      FromOpenSince(failOpen, s1, i, now);
      k := 8;
    }
    Prepend(failOpen, s, i, now, k, BackFromObserve(s, i, Observed(failOpen, t, l, now), d));
    k := k + 1;
  }

  lemma FromLoadFlag(failOpen: bool, s: State, i: nat, now: int) returns (k: nat, d: nat)
    requires i < |s.threads| && now > 0 && s.threads[i].pc == LoadFlag && s.owner == None
    requires Usable(s.threads[i].seen) ==> s.tracker.everReady
    ensures Reaches(failOpen, s, i, now, k, BackFromObserve(s, i, Observed(failOpen, s.tracker, s.threads[i].seen, now), d))
  {
    var l, t := s.threads[i].seen, s.tracker;
    var s1 := Advance(failOpen, s, i, now);
    if t.usable == Usable(l) {
      d := s.discarded;
      assert Latched(t, l) == t;
      assert s1 == BackFromObserve(s, i, t, d);
      Prepend(failOpen, s, i, now, 0, s1);
      k := 1;
    } else {
      assert s1 == Goto(s, i, Lock);
      k, d := FromLock(failOpen, s1, i, now);
      BackAnyway(s, s1, i, Observed(failOpen, t, l, now), d);
      Prepend(failOpen, s, i, now, k, BackFromObserve(s, i, Observed(failOpen, t, l, now), d));
      k := k + 1;
    }
  }

  /** Where thread `i` was does not matter for what it comes back to. */
  lemma BackAnyway(s: State, s1: State, i: nat, t: Tracker, d: nat)
    requires i < |s.threads| == |s1.threads| && s1.source == s.source
    requires s1.threads == s.threads[i := s.threads[i].(pc := s1.threads[i].pc)]
    ensures BackFromObserve(s1, i, t, d) == BackFromObserve(s, i, t, d)
  {}

  lemma FromLock(failOpen: bool, s: State, i: nat, now: int) returns (k: nat, d: nat)
    requires i < |s.threads| && now > 0 && s.threads[i].pc == Lock && s.owner == None
    requires s.tracker.usable != Usable(s.threads[i].seen)
    requires Usable(s.threads[i].seen) ==> s.tracker.everReady
    ensures Reaches(failOpen, s, i, now, k, BackFromObserve(s, i, Observed(failOpen, s.tracker, s.threads[i].seen, now), d))
  {
    var s1 := Advance(failOpen, s, i, now);
    k, d := FromRecheck(failOpen, s1, i, now);
    var end := BackFromObserve(s1, i, Observed(failOpen, s.tracker, s.threads[i].seen, now), d);
    assert end == BackFromObserve(s, i, Observed(failOpen, s.tracker, s.threads[i].seen, now), d);
    Prepend(failOpen, s, i, now, k, end);
    k := k + 1;
  }

  /** Without interference the atomic operations of `observe` add up to the whole call. */
  lemma ObserveAlone(failOpen: bool, s: State, i: nat, now: int) returns (k: nat, d: nat)
    requires i < |s.threads| && now > 0 && s.threads[i].pc == LoadEver && s.owner == None
    ensures Reaches(failOpen, s, i, now, k, BackFromObserve(s, i, Observed(failOpen, s.tracker, s.threads[i].seen, now), d))
  {
    var l, t := s.threads[i].seen, s.tracker;
    var s1 := Advance(failOpen, s, i, now);
    var s2 := if Usable(l) && !t.everReady then Advance(failOpen, s1, i, now) else s1;
    k, d := FromLoadFlag(failOpen, s2, i, now);
    var end := BackFromObserve(s, i, Observed(failOpen, t, l, now), d);
    assert Observed(failOpen, s2.tracker, l, now) == Observed(failOpen, t, l, now);
    assert BackFromObserve(s2, i, Observed(failOpen, t, l, now), d) == end;
    if Usable(l) && !t.everReady {
      Prepend(failOpen, s1, i, now, k, end);
      k := k + 1;
    }
    Prepend(failOpen, s, i, now, k, end);
    k := k + 1;
  }

  lemma Chain(failOpen: bool, s: State, i: nat, now: int, j: nat, mid: State, k: nat, end: State)
    requires Reaches(failOpen, s, i, now, j, mid) && Reaches(failOpen, mid, i, now, k, end)
    ensures Reaches(failOpen, s, i, now, j + k, end)
  {
    RunConcat(failOpen, s, Alone(i, now, j), Alone(i, now, k));
    AloneSum(i, now, j, k);
  }

  lemma {:induction false} AloneSum(i: nat, now: int, j: nat, k: nat)
    ensures Alone(i, now, j) + Alone(i, now, k) == Alone(i, now, j + k)
  {
    if j == 0 {
      assert [] + Alone(i, now, k) == Alone(i, now, k);
    } else {
      AloneSum(i, now, j - 1, k);
      assert Alone(i, now, j) + Alone(i, now, k) == [Step(i, now)] + (Alone(i, now, j - 1) + Alone(i, now, k));
    }
  }

  /** `s` with thread `i` finished and the tracker as given. */
  function Finished(s: State, i: nat, t: Tracker, discarded: nat): State
    requires i < |s.threads|
  {
    Goto(s.(tracker := t, owner := None, discarded := discarded), i, Done)
  }

  /** From the return of `observe`, a heartbeat thread writes its line. */
  lemma FromReturnedBeat(failOpen: bool, s: State, i: nat, now: int) returns (k: nat)
    requires i < |s.threads| && now > 0 && s.owner == None
    requires s.threads[i].pc == Returned && s.threads[i].caller == HeartbeatTick && !Usable(s.threads[i].seen)
    ensures var t := s.tracker;
      Reaches(failOpen, s, i, now, k,
              Finished(s, i,
                       if failOpen then
                         t.(sinceHeartbeat := 0, log := t.log + [StillUnusable(t.everReady, Some(Counts(t.total, t.sinceHeartbeat)))])
                       else t.(log := t.log + [StillUnusable(t.everReady, None)]),
                       s.discarded))
  {
    var s1 := Advance(failOpen, s, i, now);
    var s2 := Advance(failOpen, s1, i, now);
    assert s2 == Goto(s, i, BeatDuration(s.tracker.everReady));
    var end;
    k, end := FromBeatDuration(failOpen, s2, i, now);
    Prepend(failOpen, s1, i, now, k, end);
    Prepend(failOpen, s, i, now, k + 1, end);
    k := k + 2;
  }

  lemma FromBeatDuration(failOpen: bool, s: State, i: nat, now: int) returns (k: nat, end: State)
    requires i < |s.threads| && now > 0 && s.threads[i].pc.BeatDuration?
    ensures Reaches(failOpen, s, i, now, k, end)
    ensures var t, ever := s.tracker, s.threads[i].pc.ever;
      end == Goto(s.(tracker :=
                       if failOpen then
                         t.(sinceHeartbeat := 0, log := t.log + [StillUnusable(ever, Some(Counts(t.total, t.sinceHeartbeat)))])
                       else t.(log := t.log + [StillUnusable(ever, None)])),
                  i, Done)
  {
    var s1 := Advance(failOpen, s, i, now);
    if failOpen {
      end := FromBeatTotal(failOpen, s1, i, now);
      k := 4;
    } else {
      end := Advance(failOpen, s1, i, now);
      Prepend(failOpen, s1, i, now, 0, end);
      k := 2;
    }
    Prepend(failOpen, s, i, now, k - 1, end);
  }

  lemma FromBeatTotal(failOpen: bool, s: State, i: nat, now: int) returns (end: State)
    requires i < |s.threads| && now > 0 && s.threads[i].pc.BeatTotal?
    ensures Reaches(failOpen, s, i, now, 3, end)
    ensures var t := s.tracker;
      end == Goto(s.(tracker := t.(sinceHeartbeat := 0,
                                   log := t.log + [StillUnusable(s.threads[i].pc.ever, Some(Counts(t.total, t.sinceHeartbeat)))])),
                  i, Done)
  {
    var t, ever := s.tracker, s.threads[i].pc.ever;
    var s1 := Advance(failOpen, s, i, now);
    assert s1 == Goto(s, i, BeatSwap(ever, t.total));
    end := SwapAndLine(failOpen, s1, i, now);
    Prepend(failOpen, s, i, now, 2, end);
  }

  lemma SwapAndLine(failOpen: bool, s: State, i: nat, now: int) returns (end: State)
    requires i < |s.threads| && now > 0 && s.threads[i].pc.BeatSwap?
    ensures Reaches(failOpen, s, i, now, 2, end)
    ensures var t, pc := s.tracker, s.threads[i].pc;
      end == Goto(s.(tracker := t.(sinceHeartbeat := 0,
                                   log := t.log + [StillUnusable(pc.ever, Some(Counts(pc.total, t.sinceHeartbeat)))])),
                  i, Done)
  {
    var s1 := Advance(failOpen, s, i, now);
    end := Advance(failOpen, s1, i, now);
    Prepend(failOpen, s1, i, now, 0, end);
    Prepend(failOpen, s, i, now, 1, end);
  }

  /** A heartbeat without interference is the whole `heartbeat` call. */
  lemma BeatAlone(failOpen: bool, s: State, i: nat, now: int) returns (k: nat, d: nat)
    requires i < |s.threads| && now > 0 && s.owner == None
    requires s.threads[i].pc == LoadEver && s.threads[i].caller == HeartbeatTick
    ensures Reaches(failOpen, s, i, now, k, Finished(s, i, Beaten(failOpen, s.tracker, s.threads[i].seen, now), d))
  {
    var l := s.threads[i].seen;
    var j;
    j, d := ObserveAlone(failOpen, s, i, now);
    var mid := BackFromObserve(s, i, Observed(failOpen, s.tracker, l, now), d);
    var end := Finished(s, i, Beaten(failOpen, s.tracker, l, now), d);
    FinishedTwice(s, i, Observed(failOpen, s.tracker, l, now), Beaten(failOpen, s.tracker, l, now), d);
    if Usable(l) {
      assert Advance(failOpen, mid, i, now) == end;
      Prepend(failOpen, mid, i, now, 0, end);
      k := 1;
    } else {
      k := FromReturnedBeat(failOpen, mid, i, now);
    }
    Chain(failOpen, s, i, now, j, mid, k, end);
    k := j + k;
  }

  /** A /check without interference is `observe` followed, when it lets the request through fail-open, by the count. */
  lemma CheckAlone(failOpen: bool, s: State, i: nat, now: int) returns (k: nat, d: nat)
    requires i < |s.threads| && now > 0 && s.owner == None
    requires s.threads[i].pc == LoadEver && s.threads[i].caller == Check
    ensures var t := Observed(failOpen, s.tracker, s.threads[i].seen, now);
      Reaches(failOpen, s, i, now, k, Finished(s, i, if failOpen && !Usable(s.threads[i].seen) then Counted(t) else t, d))
  {
    var l := s.threads[i].seen;
    var j;
    j, d := ObserveAlone(failOpen, s, i, now);
    var t := Observed(failOpen, s.tracker, l, now);
    var mid := BackFromObserve(s, i, t, d);
    var end := Finished(s, i, if failOpen && !Usable(l) then Counted(t) else t, d);
    k := FromReturnedCheck(failOpen, mid, i, now);
    FinishedTwice(s, i, t, if failOpen && !Usable(l) then Counted(t) else t, d);
    Chain(failOpen, s, i, now, j, mid, k, end);
    k := j + k;
  }

  lemma FinishedTwice(s: State, i: nat, t: Tracker, t': Tracker, d: nat)
    requires i < |s.threads|
    ensures Finished(BackFromObserve(s, i, t, d), i, t', d) == Finished(s, i, t', d)
  {}

  lemma FromReturnedCheck(failOpen: bool, s: State, i: nat, now: int) returns (k: nat)
    requires i < |s.threads| && now > 0 && s.owner == None
    requires s.threads[i].pc == Returned && s.threads[i].caller == Check
    ensures Reaches(failOpen, s, i, now, k,
                    Finished(s, i, if failOpen && !Usable(s.threads[i].seen) then Counted(s.tracker) else s.tracker, s.discarded))
  {
    var s1 := Advance(failOpen, s, i, now);
    if failOpen && !Usable(s.threads[i].seen) {
      var s2 := Advance(failOpen, s1, i, now);
      var s3 := Advance(failOpen, s2, i, now);
      Prepend(failOpen, s2, i, now, 0, s3);
      Prepend(failOpen, s1, i, now, 1, s3);
      Prepend(failOpen, s, i, now, 2, s3);
      k := 3;
    } else {
      Prepend(failOpen, s, i, now, 0, s1);
      k := 1;
    }
  }

  // ---------------------------------------------------------------------------
  // The bound is reached

  /** A thread that has read a usable lookup and has not started to observe it. */
  const HOLDING := Thread(Check, Some(1), LoadEver)

  predicate NoPublish(acts: seq<Action>) {
    forall k | 0 <= k < |acts| :: !acts[k].Publish?
  }

  lemma AloneDoesNotPublish(i: nat, now: int, k: nat)
    ensures NoPublish(Alone(i, now, k))
  {}

  /** One thread observes alone: a line exactly when the flag differs from what it saw. */
  lemma OneObserver(failOpen: bool, s: State, i: nat) returns (acts: seq<Action>)
    requires i < |s.threads| && s.threads[i].pc == LoadEver && s.owner == None
    ensures Legal(failOpen, s, acts) && NoPublish(acts)
    ensures var s' := Final(failOpen, s, acts);
      && s'.owner == None && s'.source == s.source
      && s'.tracker == Observed(failOpen, s.tracker, s.threads[i].seen, 1)
      && s'.tracker.usable == Usable(s.threads[i].seen)
      && s'.threads == s.threads[i := s.threads[i].(pc := Returned)]
      && |Transitions(s'.tracker.log)| == |Transitions(s.tracker.log)| + if s.tracker.usable == Usable(s.threads[i].seen) then 0 else 1
  {
    var k, d := ObserveAlone(failOpen, s, i, 1);
    acts := Alone(i, 1, k);
    AloneDoesNotPublish(i, 1, k);
    LinesOfOneEvent(failOpen, s.tracker, Request(s.threads[i].seen, 1));
  }

  lemma RunTwo(failOpen: bool, s: State, a: Action, b: Action)
    requires Enabled(s, a) && Enabled(Apply(failOpen, s, a), b)
    ensures Legal(failOpen, s, [a, b])
    ensures Final(failOpen, s, [a, b]) == Apply(failOpen, Apply(failOpen, s, a), b)
  {
    var s1 := Apply(failOpen, s, a);
    var s2 := Apply(failOpen, s1, b);
    assert [a, b][1..] == [b] && [b][1..] == [];
    assert Legal(failOpen, s2, []);
    assert Legal(failOpen, s1, [b]) && Final(failOpen, s1, [b]) == s2;
  }

  /** A new thread reads the current lookup and observes it. */
  lemma NewObserver(failOpen: bool, s: State) returns (acts: seq<Action>)
    requires s.owner == None
    ensures Legal(failOpen, s, acts) && NoPublish(acts)
    ensures var s' := Final(failOpen, s, acts);
      && s'.owner == None && s'.source == s.source
      && s'.tracker == Observed(failOpen, s.tracker, s.source, 1)
      && s'.tracker.usable == Usable(s.source)
      && s'.threads == s.threads + [Thread(Healthz, s.source, Returned)]
      && |Transitions(s'.tracker.log)| == |Transitions(s.tracker.log)| + if s.tracker.usable == Usable(s.source) then 0 else 1
  {
    var n := |s.threads|;
    var first := [Spawn(Healthz), Step(n, 1)];
    var s1 := Apply(failOpen, s, first[0]);
    var s2 := Apply(failOpen, s1, first[1]);
    RunTwo(failOpen, s, first[0], first[1]);
    assert s2 == s.(threads := s.threads + [Thread(Healthz, s.source, LoadEver)]);
    acts := ObserverFrom(failOpen, s, first, s2);
  }

  lemma ObserverFrom(failOpen: bool, s: State, first: seq<Action>, s2: State) returns (acts: seq<Action>)
    requires s.owner == None && Legal(failOpen, s, first) && Final(failOpen, s, first) == s2 && NoPublish(first)
    requires s2 == s.(threads := s.threads + [Thread(Healthz, s.source, LoadEver)])
    ensures Legal(failOpen, s, acts) && NoPublish(acts)
    ensures var s' := Final(failOpen, s, acts);
      && s'.owner == None && s'.source == s.source
      && s'.tracker == Observed(failOpen, s.tracker, s.source, 1)
      && s'.tracker.usable == Usable(s.source)
      && s'.threads == s.threads + [Thread(Healthz, s.source, Returned)]
      && |Transitions(s'.tracker.log)| == |Transitions(s.tracker.log)| + if s.tracker.usable == Usable(s.source) then 0 else 1
  {
    var rest := OneObserver(failOpen, s2, |s.threads|);
    RunConcat(failOpen, s, first, rest);
    acts := first + rest;
  }

  /** Each of `k` threads holding the outdated lookup can cause two more lines. */
  lemma {:induction false} DrainStale(failOpen: bool, s: State, k: nat) returns (acts: seq<Action>)
    requires k <= |s.threads| && s.owner == None && !Usable(s.source) && !s.tracker.usable
    requires forall j | 0 <= j < k :: s.threads[j] == HOLDING
    ensures Legal(failOpen, s, acts) && NoPublish(acts)
    ensures |Transitions(Final(failOpen, s, acts).tracker.log)| == |Transitions(s.tracker.log)| + 2 * k
    decreases k
  {
    acts := [];
    if k > 0 {
      var a := OneObserver(failOpen, s, k - 1);
      var s1 := Final(failOpen, s, a);
      var b := NewObserver(failOpen, s1);
      var s2 := Final(failOpen, s1, b);
      forall j | 0 <= j < k - 1 ensures s2.threads[j] == HOLDING {
        assert s2.threads[j] == s2.threads[..|s1.threads|][j];
      }
      var c := DrainStale(failOpen, s2, k - 1);
      RunConcat(failOpen, s1, b, c);
      RunConcat(failOpen, s, a, b + c);
      acts := a + (b + c);
    }
  }

  /** `n` requests read a usable lookup and pause before observing it. */
  lemma {:induction false} ParkReaders(failOpen: bool, n: nat) returns (acts: seq<Action>)
    ensures Legal(failOpen, Init(Some(1)), acts)
    ensures Final(failOpen, Init(Some(1)), acts) == Init(Some(1)).(threads := seq(n, _ => HOLDING))
  {
    acts := [];
    if n == 0 {
      assert seq(0, _ => HOLDING) == [];
    } else {
      var front := ParkReaders(failOpen, n - 1);
      var s := Final(failOpen, Init(Some(1)), front);
      var more := [Spawn(Check), Step(n - 1, 1)];
      var s1 := Apply(failOpen, s, more[0]);
      var s2 := Apply(failOpen, s1, more[1]);
      RunTwo(failOpen, s, more[0], more[1]);
      assert s2.threads == seq(n, _ => HOLDING);
      RunConcat(failOpen, Init(Some(1)), front, more);
      acts := front + more;
    }
  }

  lemma {:induction false} CountHolding(ths: seq<Thread>)
    requires forall j | 0 <= j < |ths| :: ths[j] == HOLDING
    ensures CountStale(ths, false) == |ths|
  {
    if ths != [] {
      CountHolding(ths[..|ths| - 1]);
    }
  }

  /**
   The bound is exact: for every number n of stale observers there is a run in which one
   change of the published predicate is followed by 2n + 1 transition lines.  With n = 0
   that is one line per change; with a single stale observer it is already three.
   */
  lemma BoundIsReached(failOpen: bool, n: nat) returns (before: seq<Action>, after: seq<Action>)
    ensures Legal(failOpen, Init(Some(1)), before)
    ensures var s := Final(failOpen, Init(Some(1)), before);
      && !Usable(s.source) && CountStale(s.threads, false) == n
      && Transitions(s.tracker.log) == []
      && Legal(failOpen, s, after) && NoPublish(after)
      && |Transitions(Final(failOpen, s, after).tracker.log)| == 2 * n + 1
  {
    var init := Init(Some(1));
    var park := ParkReaders(failOpen, n);
    var parked := Final(failOpen, init, park);
    var swap := [Publish(Some(0))];
    var s := Apply(failOpen, parked, swap[0]);
    assert swap[1..] == [] && Legal(failOpen, parked, swap) && Final(failOpen, parked, swap) == s;
    RunConcat(failOpen, init, park, swap);
    before := park + swap;
    CountHolding(s.threads);
    after := ObserveThenDrain(failOpen, s);
  }

  /** A new observer announces the change, and then every parked reader two more. */
  lemma ObserveThenDrain(failOpen: bool, s: State) returns (acts: seq<Action>)
    requires s.owner == None && !Usable(s.source) && s.tracker == FRESH
    requires forall j | 0 <= j < |s.threads| :: s.threads[j] == HOLDING
    ensures Legal(failOpen, s, acts) && NoPublish(acts)
    ensures |Transitions(Final(failOpen, s, acts).tracker.log)| == 2 * |s.threads| + 1
  {
    var first := NewObserver(failOpen, s);
    var s1 := Final(failOpen, s, first);
    var drain := DrainStale(failOpen, s1, |s.threads|);
    RunConcat(failOpen, s, first, drain);
    acts := first + drain;
  }
}
