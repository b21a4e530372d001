/**
 The readiness tracker: what one call of `observe`, `heartbeat` or
 `countFailOpenAllow` does when nothing runs beside it, as functions on the tracker's
 fields and as the methods of the class.  ReadinessSteps.dfy takes the same calls apart
 into their atomic operations.
 */
module Readiness {
  import opened Wrappers

  /** What a request sees of the blocklist: no trie published, or a trie of that many prefixes. */
  type Lookup = Option<nat>

  /** The readiness predicate every endpoint routes through. */
  predicate Usable(l: Lookup) {
    l.Some? && l.value > 0
  }

  /** The fail-open requests a recovery reports: those counted after `from` up to `to`. */
  datatype Window = Window(from: nat, to: nat)

  datatype Counts = Counts(total: nat, sinceLast: nat)

  datatype Line =
    | WentUnusable(everReady: bool)
    | Recovered(prefixes: Lookup, window: Option<Window>)
    | StillUnusable(everReady: bool, counts: Option<Counts>)

  datatype Tracker = Tracker(
    usable: bool,
    everReady: bool,
    unusableSince: int,
    total: nat,
    sinceHeartbeat: nat,
    windowStart: nat,
    log: seq<Line>)

  const FRESH := Tracker(true, false, 0, 0, 0, 0, [])

  // ---------------------------------------------------------------------------
  // Transition lines

  /** The direction the last transition line announced; a tracker starts out usable. */
  function Direction(log: seq<Line>): bool {
    if log == [] then true
    else
      var n := |log| - 1;
      match log[n]
      case WentUnusable(_) => false
      case Recovered(_, _) => true
      case StillUnusable(_, _) => Direction(log[..n])
  }

  /** The directions of the transition lines, in order; false is "unusable". */
  function Transitions(log: seq<Line>): seq<bool> {
    if log == [] then []
    else
      var n := |log| - 1;
      Transitions(log[..n]) +
      match log[n]
      case WentUnusable(_) => [false]
      case Recovered(_, _) => [true]
      case StillUnusable(_, _) => []
  }

  /** Each transition line announces the opposite of the one before it. */
  ghost predicate Alternates(log: seq<Line>) {
    log == [] ||
    var n := |log| - 1;
    && Alternates(log[..n])
    && (log[n].WentUnusable? ==> Direction(log[..n]))
    && (log[n].Recovered? ==> !Direction(log[..n]))
  }

  lemma {:induction false} AlternatesByIndex(log: seq<Line>)
    requires Alternates(log)
    ensures forall k | 0 <= k < |Transitions(log)| :: Transitions(log)[k] == (k % 2 == 1)
    ensures Direction(log) == (|Transitions(log)| % 2 == 0)
  {
    if log == [] {
    } else {
      AlternatesByIndex(log[..|log| - 1]);
    }
  }

  // ---------------------------------------------------------------------------
  // Whole calls on the fields

  function EmitUnusable(t: Tracker, now: int): Tracker {
    t.(unusableSince := now, windowStart := t.total, sinceHeartbeat := 0, log := t.log + [WentUnusable(t.everReady)])
  }

  function EmitRecovered(failOpen: bool, t: Tracker, l: Lookup): Tracker {
    var w := if failOpen then Some(Window(t.windowStart, t.total)) else None;
    t.(unusableSince := 0, log := t.log + [Recovered(l, w)])
  }

  function Latched(t: Tracker, l: Lookup): Tracker {
    t.(everReady := t.everReady || Usable(l))
  }

  function Observed(failOpen: bool, t: Tracker, l: Lookup, now: int): Tracker {
    var t1 := Latched(t, l);
    if t.usable == Usable(l) then t1
    else if Usable(l) then EmitRecovered(failOpen, t1, l).(usable := true)
    else EmitUnusable(t1, now).(usable := false)
  }

  function Beaten(failOpen: bool, t: Tracker, l: Lookup, now: int): Tracker {
    var t1 := Observed(failOpen, t, l, now);
    if Usable(l) then t1
    else if failOpen then
      t1.(sinceHeartbeat := 0, log := t1.log + [StillUnusable(t1.everReady, Some(Counts(t1.total, t1.sinceHeartbeat)))])
    else
      t1.(log := t1.log + [StillUnusable(t1.everReady, None)])
  }

  function Counted(t: Tracker): Tracker {
    t.(total := t.total + 1, sinceHeartbeat := t.sinceHeartbeat + 1)
  }

  // ---------------------------------------------------------------------------
  // Exactly once, when reading the blocklist and observing it are one step

  datatype Event = Request(l: Lookup, now: int) | Heartbeat(l: Lookup, now: int) | Allow

  function Handle(failOpen: bool, t: Tracker, e: Event): Tracker {
    match e
    case Request(l, now) => Observed(failOpen, t, l, now)
    case Heartbeat(l, now) => Beaten(failOpen, t, l, now)
    case Allow => Counted(t)
  }

  function HandleAll(failOpen: bool, t: Tracker, es: seq<Event>): Tracker
    decreases |es|
  {
    if es == [] then t else HandleAll(failOpen, Handle(failOpen, t, es[0]), es[1..])
  }

  /** The values the predicate changes to along the observations, starting from `before`. */
  function Changes(before: bool, es: seq<Event>): seq<bool>
    decreases |es|
  {
    if es == [] then []
    else if es[0].Allow? || Usable(es[0].l) == before then Changes(before, es[1..])
    else [Usable(es[0].l)] + Changes(Usable(es[0].l), es[1..])
  }

  /** One line per change of the observed predicate, in the same order, and no other transition line. */
  lemma {:induction false} ExactlyOncePerChange(failOpen: bool, t: Tracker, es: seq<Event>)
    ensures Transitions(HandleAll(failOpen, t, es).log) == Transitions(t.log) + Changes(t.usable, es)
    decreases |es|
  {
    if es == [] {
    } else {
      var t' := Handle(failOpen, t, es[0]);
      LinesOfOneEvent(failOpen, t, es[0]);
      ExactlyOncePerChange(failOpen, t', es[1..]);
      ChangesStep(t.usable, t'.usable, es, Transitions(t.log));
    }
  }

  lemma ChangesStep(before: bool, after: bool, es: seq<Event>, lines: seq<bool>)
    requires es != [] && after == if es[0].Allow? then before else Usable(es[0].l)
    ensures lines + Changes(before, es) == lines + (if after == before then [] else [after]) + Changes(after, es[1..])
  {}

  lemma LinesOfOneEvent(failOpen: bool, t: Tracker, e: Event)
    ensures var t' := Handle(failOpen, t, e);
      && t'.usable == (if e.Allow? then t.usable else Usable(e.l))
      && Transitions(t'.log) == Transitions(t.log) + if t'.usable == t.usable then [] else [t'.usable]
  {}

  // ---------------------------------------------------------------------------
  // The class

  class ReadinessTracker {
    const failOpen: bool
    var usable: bool
    var everReady: bool
    var unusableSince: int
    var failOpenTotal: nat
    var failOpenSinceHeartbeat: nat
    var failOpenAtWindowStart: nat
    var log: seq<Line>

    ghost function Fields(): Tracker
      reads this
    {
      Tracker(usable, everReady, unusableSince, failOpenTotal, failOpenSinceHeartbeat, failOpenAtWindowStart, log)
    }

    /** The window snapshot never exceeds the running total, so the unsigned difference is exact. */
    ghost predicate Valid()
      reads this
    {
      failOpenAtWindowStart <= failOpenTotal
    }

    constructor (failOpen: bool)
      ensures Valid() && Fields() == FRESH && this.failOpen == failOpen
    {
      this.failOpen := failOpen;
      usable, everReady, unusableSince := true, false, 0;
      failOpenTotal, failOpenSinceHeartbeat, failOpenAtWindowStart := 0, 0, 0;
      log := [];
    }

    method Observe(l: Lookup, now: int) returns (u: bool)
      requires Valid()
      modifies this
      ensures Valid() && u == Usable(l)
      ensures Fields() == Observed(failOpen, old(Fields()), l, now)
    {
      u := Usable(l);
      if u && !everReady {
        everReady := true;
      }
      if usable == u {
        return;
      }
      if u {
        LogRecovered(l);
      } else {
        LogUnusable(now);
      }
      usable := u;
    }

    method LogUnusable(now: int)
      requires Valid()
      modifies this
      ensures Valid()
      ensures Fields() == EmitUnusable(old(Fields()), now)
    {
      unusableSince := now;
      failOpenAtWindowStart := failOpenTotal;
      failOpenSinceHeartbeat := 0;
      log := log + [WentUnusable(everReady)];
    }

    method LogRecovered(l: Lookup)
      requires Valid()
      modifies this
      ensures Valid()
      ensures Fields() == EmitRecovered(failOpen, old(Fields()), l)
    {
      var window := None;
      if failOpen {
        window := Some(Window(failOpenAtWindowStart, failOpenTotal));
      }
      unusableSince := 0;
      log := log + [Recovered(l, window)];
    }

    method Beat(l: Lookup, now: int)
      requires Valid()
      modifies this
      ensures Valid()
      ensures Fields() == Beaten(failOpen, old(Fields()), l, now)
    {
      var u := Observe(l, now);
      if u {
        return;
      }
      var counts := None;
      if failOpen {
        counts := Some(Counts(failOpenTotal, failOpenSinceHeartbeat));
        failOpenSinceHeartbeat := 0;
      }
      log := log + [StillUnusable(everReady, counts)];
    }

    method CountFailOpenAllow()
      requires Valid()
      modifies this
      ensures Valid() && Fields() == Counted(old(Fields()))
    {
      failOpenTotal := failOpenTotal + 1;
      failOpenSinceHeartbeat := failOpenSinceHeartbeat + 1;
    }
  }
}
