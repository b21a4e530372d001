/**
 What the log ought to say, told from the history of events alone: which lines each event
 adds, and with which counts.  The tracker, which keeps six fields and forgets the events,
 writes exactly that.
 */
module ReadinessHistory {
  import opened Wrappers
  import opened Readiness

  predicate Saw(e: Event, usable: bool) {
    !e.Allow? && Usable(e.l) == usable
  }

  /** The predicate as last observed; before any observation it counts as usable. */
  function WasUsable(es: seq<Event>): bool {
    if es == [] then true
    else if es[|es| - 1].Allow? then WasUsable(es[..|es| - 1])
    else Usable(es[|es| - 1].l)
  }

  ghost predicate EverUsable(es: seq<Event>) {
    exists k :: 0 <= k < |es| && Saw(es[k], true)
  }

  /** The requests allowed fail-open. */
  function Allows(es: seq<Event>): nat {
    if es == [] then 0 else Allows(es[..|es| - 1]) + if es[|es| - 1].Allow? then 1 else 0
  }

  /** The event that opened the current window: the first unusable observation since the last usable one. */
  function OpenedAt(es: seq<Event>): (j: nat)
    requires !WasUsable(es)
    ensures j < |es| && Saw(es[j], false) && WasUsable(es[..j])
    ensures forall i | j <= i < |es| :: !Saw(es[i], true)
  {
    var n := |es| - 1;
    if es[n].Allow? || !WasUsable(es[..n]) then
      assert forall i | 0 <= i < n :: es[..n][i] == es[i];
      var j := OpenedAt(es[..n]);
      assert es[..n][..j] == es[..j];
      j
    else n
  }

  /** How many events had passed when the count between heartbeats last began anew: with a window, or with a heartbeat in one. */
  function ResetAt(es: seq<Event>): (k: nat)
    ensures k <= |es|
  {
    if es == [] then 0
    else
      var n := |es| - 1;
      if Saw(es[n], false) && (es[n].Heartbeat? || WasUsable(es[..n])) then n + 1 else ResetAt(es[..n])
  }

  /** The allows of the last events from the k-th on. */
  function AllowsSince(es: seq<Event>, k: nat): int
    requires k <= |es|
  {
    Allows(es) - Allows(es[..k])
  }

  /** The lines the event `e` adds after `past`. */
  ghost function LinesOf(failOpen: bool, past: seq<Event>, e: Event): seq<Line> {
    TransitionOf(failOpen, past, e) + HeartbeatOf(failOpen, past, e)
  }

  ghost function TransitionOf(failOpen: bool, past: seq<Event>, e: Event): seq<Line> {
    if Saw(e, true) && !WasUsable(past) then
      AllowsGrow(past, OpenedAt(past));
      [Recovered(e.l, if failOpen then Some(Window(Allows(past[..OpenedAt(past)]), Allows(past))) else None)]
    else if Saw(e, false) && WasUsable(past) then [WentUnusable(EverUsable(past))]
    else []
  }

  ghost function HeartbeatOf(failOpen: bool, past: seq<Event>, e: Event): seq<Line> {
    if e.Heartbeat? && Saw(e, false) then
      AllowsGrow(past, ResetAt(past));
      var since: nat := if WasUsable(past) then 0 else AllowsSince(past, ResetAt(past));
      [StillUnusable(EverUsable(past), if failOpen then Some(Counts(Allows(past), since)) else None)]
    else []
  }

  ghost function LogOf(failOpen: bool, es: seq<Event>): seq<Line> {
    if es == [] then [] else LogOf(failOpen, es[..|es| - 1]) + LinesOf(failOpen, es[..|es| - 1], es[|es| - 1])
  }

  lemma {:induction false} AllowsGrow(es: seq<Event>, k: nat)
    requires k <= |es|
    ensures Allows(es[..k]) <= Allows(es)
  {
    if k < |es| {
      assert es[..|es| - 1][..k] == es[..k];
      AllowsGrow(es[..|es| - 1], k);
    } else {
      assert es[..k] == es;
    }
  }

  /** The fields as the history says they ought to be. */
  ghost predicate Tells(failOpen: bool, es: seq<Event>, t: Tracker) {
    && t.log == LogOf(failOpen, es)
    && t.usable == WasUsable(es)
    && (t.everReady <==> EverUsable(es))
    && t.unusableSince == (if WasUsable(es) then 0 else es[OpenedAt(es)].now)
    && t.total == Allows(es)
    && (failOpen ==> t.sinceHeartbeat == AllowsSince(es, ResetAt(es)))
    && (!WasUsable(es) ==> t.windowStart == Allows(es[..OpenedAt(es)]))
  }

  lemma {:induction false} HandleSnoc(failOpen: bool, t: Tracker, es: seq<Event>, e: Event)
    ensures HandleAll(failOpen, t, es + [e]) == Handle(failOpen, HandleAll(failOpen, t, es), e)
    decreases |es|
  {
    if es == [] {
      assert (es + [e])[1..] == [];
    } else {
      assert (es + [e])[1..] == es[1..] + [e];
      HandleSnoc(failOpen, Handle(failOpen, t, es[0]), es[1..], e);
    }
  }

  /** What one more event changes in the history's own terms. */
  lemma HistorySnoc(past: seq<Event>, e: Event)
    ensures var es := past + [e];
      && WasUsable(es) == (if e.Allow? then WasUsable(past) else Usable(e.l))
      && (EverUsable(es) <==> EverUsable(past) || Saw(e, true))
      && Allows(es) == Allows(past) + (if e.Allow? then 1 else 0)
      && AllowsSince(es, ResetAt(es)) ==
           (if Saw(e, false) && (e.Heartbeat? || WasUsable(past)) then 0
            else AllowsSince(past, ResetAt(past)) + if e.Allow? then 1 else 0)
  {
    var es := past + [e];
    assert es[..|past|] == past && es[|past|] == e;
    if EverUsable(past) {
      var k :| 0 <= k < |past| && Saw(past[k], true);
      assert Saw(es[k], true);
    }
    assert es[..ResetAt(past)] == past[..ResetAt(past)];
    assert es[..|es|] == es;
  }

  lemma WindowSnoc(past: seq<Event>, e: Event)
    requires !WasUsable(past + [e])
    ensures var es := past + [e];
      if WasUsable(past) then OpenedAt(es) == |past| && Allows(es[..OpenedAt(es)]) == Allows(past) && es[OpenedAt(es)] == e
      else OpenedAt(es) == OpenedAt(past) && es[..OpenedAt(es)] == past[..OpenedAt(past)] && es[OpenedAt(es)] == past[OpenedAt(past)]
  {
    var es := past + [e];
    assert es[..|past|] == past && es[|past|] == e;
  }

  lemma LogSnoc(failOpen: bool, past: seq<Event>, e: Event)
    ensures LogOf(failOpen, past + [e]) == LogOf(failOpen, past) + LinesOf(failOpen, past, e)
  {
    assert (past + [e])[..|past|] == past;
  }

  /** One event carries what the fields tell from one history to the next. */
  lemma TellsNext(failOpen: bool, past: seq<Event>, e: Event, t: Tracker)
    requires Tells(failOpen, past, t)
    ensures Tells(failOpen, past + [e], Handle(failOpen, t, e))
  {
    HistorySnoc(past, e);
    if !WasUsable(past + [e]) {
      WindowSnoc(past, e);
    }
    LinesNext(failOpen, past, e, t);
    LogSnoc(failOpen, past, e);
  }

  /** The lines the tracker adds are the ones the history calls for. */
  lemma LinesNext(failOpen: bool, past: seq<Event>, e: Event, t: Tracker)
    requires Tells(failOpen, past, t)
    ensures Handle(failOpen, t, e).log == t.log + LinesOf(failOpen, past, e)
  {
    assert t.log + [] == t.log;
    assert e.Request? ==> HeartbeatOf(failOpen, past, e) == [];
    if e.Heartbeat? && Saw(e, false) {
      assert Handle(failOpen, t, e).log == t.log + TransitionOf(failOpen, past, e) + HeartbeatOf(failOpen, past, e);
    }
  }

  /**
   Over every sequence of requests, heartbeats and fail-open allows, each handled without
   interference, the log and every field are what the history says: each line comes when the
   predicate changes or a heartbeat finds it unusable, a recovery reports exactly the allows
   since its window opened, and a heartbeat exactly those since the one before or the opening.
   */
  lemma {:induction false} TrackerTellsHistory(failOpen: bool, es: seq<Event>)
    ensures Tells(failOpen, es, HandleAll(failOpen, FRESH, es))
  {
    if es != [] {
      var n := |es| - 1;
      TrackerTellsHistory(failOpen, es[..n]);
      assert es == es[..n] + [es[n]];
      HandleSnoc(failOpen, FRESH, es[..n], es[n]);
      TellsNext(failOpen, es[..n], es[n], HandleAll(failOpen, FRESH, es[..n]));
    }
  }
}
