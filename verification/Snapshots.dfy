/**
 Requests, trie construction and publication interleaved step by step.  A request loads
 the pointer once and afterwards reads only the trie it got.  The refresh in progress, one
 at a time under the fetcher's mutex, writes to the trie it is building, a local of the
 load, until it hands that trie over or gives up.
 */
module Snapshots {
  import opened Wrappers
  import opened Netip
  import opened Canonical
  import opened Server

  type TrieId = nat

  /** What the handler does next; a finished request keeps the pointer it used. */
  datatype Pc =
    | LoadPointer
    | Observe(p: Option<TrieId>)
    | Answer(p: Option<TrieId>, usable: bool)
    | Done(p: Option<TrieId>, reply: Reply)

  datatype Reply = Verdict(status: int) | Probe(status: int, prefixes: nat)

  datatype Kind = Check(client: Option<Addr>) | Healthz

  /** `start` is the number of the step with which the request arrived. */
  datatype Request = Request(kind: Kind, start: nat, pc: Pc)

  /**
   `building` is the trie of the load in progress; `timeline[k]` is what was published after
   the k-th step, and its last element is current.
   */
  datatype State = State(
    tries: map<TrieId, set<Prefix>>,
    building: Option<TrieId>,
    timeline: seq<Option<TrieId>>,
    requests: seq<Request>)

  /** `GiveUp` ends a refresh that publishes nothing. */
  datatype Action = NewTrie(id: TrieId) | Insert(p: Prefix) | Swap | GiveUp | Arrive(kind: Kind) | Step(i: nat)

  /** The server starts when start-up has published what it found in the disk cache, or nothing. */
  function Start(boot: Snapshot): State {
    if boot == None then State(map[], None, [None], []) else State(map[0 := boot.value], None, [Some(0)], [])
  }

  function Current(s: State): Option<TrieId> {
    if s.timeline == [] then None else s.timeline[|s.timeline| - 1]
  }

  function Contents(s: State, p: Option<TrieId>): Snapshot {
    if p == None || p.value !in s.tries then None else Some(s.tries[p.value])
  }

  ghost predicate Enabled(s: State, a: Action) {
    match a
    case NewTrie(id) => id !in s.tries && s.building == None
    case Insert(_) => s.building.Some? && s.building.value in s.tries
    case Swap => s.building.Some? && s.building.value in s.tries
    case GiveUp => true
    case Arrive(_) => true
    case Step(i) => i < |s.requests| && !s.requests[i].pc.Done?
  }

  /** What a request replies when it decides on `snapshot` throughout. */
  ghost function ReplyOn(failOpen: bool, blockStatus: int, kind: Kind, snapshot: Snapshot): Reply {
    match kind
    case Check(client) => Verdict(Decide(failOpen, blockStatus, snapshot, client))
    case Healthz => if Serviceable(snapshot) then Probe(200, |snapshot.value|) else Probe(503, 0)
  }

  ghost function StepRequest(failOpen: bool, blockStatus: int, s: State, r: Request): Request {
    match r.pc
    case LoadPointer => r.(pc := Observe(Current(s)))
    case Observe(p) =>
      if Serviceable(Contents(s, p)) then r.(pc := Answer(p, true))
      else r.(pc := Done(p, if r.kind.Healthz? then Probe(503, 0) else Verdict(if failOpen then 200 else blockStatus)))
    case Answer(p, _) =>
      var c := if Contents(s, p) == None then {} else Contents(s, p).value;
      r.(pc := Done(p, match r.kind
                       case Healthz => Probe(200, |c|)
                       case Check(client) =>
                         Verdict(if client == None || Blocks(c, client.value) then blockStatus else 200)))
    case Done(_, _) => r
  }

  ghost function Apply(failOpen: bool, blockStatus: int, s: State, a: Action): State
    requires Enabled(s, a)
  {
    var now := Current(s);
    match a
    case NewTrie(id) => s.(tries := s.tries[id := {}], building := Some(id), timeline := s.timeline + [now])
    case Insert(p) =>
      var id := s.building.value;
      s.(tries := s.tries[id := s.tries[id] + Recorded([p])], timeline := s.timeline + [now])
    case Swap => s.(building := None, timeline := s.timeline + [s.building])
    case GiveUp => s.(building := None, timeline := s.timeline + [now])
    case Arrive(kind) => s.(requests := s.requests + [Request(kind, |s.timeline|, LoadPointer)], timeline := s.timeline + [now])
    case Step(i) =>
      s.(requests := s.requests[i := StepRequest(failOpen, blockStatus, s, s.requests[i])], timeline := s.timeline + [now])
  }

  /** A pointer that was ever current names a finished trie. */
  ghost predicate Finished(s: State, p: Option<TrieId>) {
    p.Some? ==> p.value in s.tries && s.building != p
  }

  /** `p` was current at some instant since the request arrived. */
  ghost predicate WasCurrent(s: State, start: nat, p: Option<TrieId>) {
    exists k :: start <= k < |s.timeline| && s.timeline[k] == p
  }

  ghost predicate RequestOk(failOpen: bool, blockStatus: int, s: State, r: Request) {
    && r.start < |s.timeline|
    && match r.pc
       case LoadPointer => true
       case Observe(p) => Finished(s, p) && WasCurrent(s, r.start, p)
       case Answer(p, usable) => Finished(s, p) && WasCurrent(s, r.start, p) && usable && Serviceable(Contents(s, p))
       case Done(p, reply) =>
         Finished(s, p) && WasCurrent(s, r.start, p) && reply == ReplyOn(failOpen, blockStatus, r.kind, Contents(s, p))
  }

  ghost predicate Inv(failOpen: bool, blockStatus: int, s: State) {
    && s.timeline != []
    && (forall k | 0 <= k < |s.timeline| :: Finished(s, s.timeline[k]))
    && (forall i | 0 <= i < |s.requests| :: RequestOk(failOpen, blockStatus, s, s.requests[i]))
  }

  /**
   No step changes a finished trie, or unfinishes it: a load writes to the trie it created,
   and lets go of it when it publishes.  On the heap the same is said by the contracts: a
   load has no `modifies` clause and returns a new trie, and `Fetcher.Refresh` leaves the
   published trie and all its nodes unchanged.
   */
  lemma FinishedIsFrozen(failOpen: bool, blockStatus: int, s: State, a: Action, p: Option<TrieId>)
    requires Inv(failOpen, blockStatus, s) && Enabled(s, a) && Finished(s, p)
    ensures var s' := Apply(failOpen, blockStatus, s, a);
      Finished(s', p) && Contents(s', p) == Contents(s, p)
  {}

  lemma TimelineGrows(failOpen: bool, blockStatus: int, s: State, a: Action)
    requires Enabled(s, a)
    ensures var t := Apply(failOpen, blockStatus, s, a).timeline;
      |t| == |s.timeline| + 1 && t[..|s.timeline|] == s.timeline
  {}

  /** A request that does not move keeps what is known of it. */
  lemma StandingRequest(failOpen: bool, blockStatus: int, s: State, a: Action, r: Request)
    requires Inv(failOpen, blockStatus, s) && Enabled(s, a) && RequestOk(failOpen, blockStatus, s, r)
    ensures RequestOk(failOpen, blockStatus, Apply(failOpen, blockStatus, s, a), r)
  {
    var s' := Apply(failOpen, blockStatus, s, a);
    TimelineGrows(failOpen, blockStatus, s, a);
    if !r.pc.LoadPointer? {
      FinishedIsFrozen(failOpen, blockStatus, s, a, r.pc.p);
      var k :| r.start <= k < |s.timeline| && s.timeline[k] == r.pc.p;
      assert s'.timeline[k] == s'.timeline[..|s.timeline|][k];
    }
  }

  lemma MovingRequest(failOpen: bool, blockStatus: int, s: State, r: Request)
    requires Inv(failOpen, blockStatus, s) && RequestOk(failOpen, blockStatus, s, r)
    ensures RequestOk(failOpen, blockStatus, s, StepRequest(failOpen, blockStatus, s, r))
  {}

  lemma KeepsInv(failOpen: bool, blockStatus: int, s: State, a: Action)
    requires Inv(failOpen, blockStatus, s) && Enabled(s, a)
    ensures Inv(failOpen, blockStatus, Apply(failOpen, blockStatus, s, a))
  {
    var s' := Apply(failOpen, blockStatus, s, a);
    TimelineGrows(failOpen, blockStatus, s, a);
    forall k | 0 <= k < |s'.timeline| ensures Finished(s', s'.timeline[k]) {
      if k < |s.timeline| {
        assert s'.timeline[k] == s'.timeline[..|s.timeline|][k];
        FinishedIsFrozen(failOpen, blockStatus, s, a, s.timeline[k]);
      } else {
        FinishedIsFrozen(failOpen, blockStatus, s, a, Current(s));
      }
    }
    forall i | 0 <= i < |s'.requests| ensures RequestOk(failOpen, blockStatus, s', s'.requests[i]) {
      if a.Step? && i == a.i {
        MovingRequest(failOpen, blockStatus, s, s.requests[i]);
        StandingRequest(failOpen, blockStatus, s, a, s'.requests[i]);
      } else if i < |s.requests| {
        StandingRequest(failOpen, blockStatus, s, a, s.requests[i]);
      }
    }
  }

  /** `states` is an interleaving that starts with `boot` published. */
  ghost predicate IsRun(failOpen: bool, blockStatus: int, boot: Snapshot, states: seq<State>, acts: seq<Action>) {
    && |states| == |acts| + 1 && states[0] == Start(boot)
    && forall k | 0 <= k < |acts| ::
         Enabled(states[k], acts[k]) && states[k + 1] == Apply(failOpen, blockStatus, states[k], acts[k])
  }

  lemma {:induction false} RunKeepsInv(failOpen: bool, blockStatus: int, boot: Snapshot, states: seq<State>, acts: seq<Action>, n: nat)
    requires IsRun(failOpen, blockStatus, boot, states, acts) && n <= |acts|
    ensures Inv(failOpen, blockStatus, states[n])
    ensures |states[n].timeline| == n + 1
  {
    if n > 0 {
      RunKeepsInv(failOpen, blockStatus, boot, states, acts, n - 1);
      KeepsInv(failOpen, blockStatus, states[n - 1], acts[n - 1]);
      TimelineGrows(failOpen, blockStatus, states[n - 1], acts[n - 1]);
    }
  }

  /** The timeline records what was published after each step, and published tries never change. */
  lemma {:induction false} TimelineIsHistory(failOpen: bool, blockStatus: int, boot: Snapshot, states: seq<State>, acts: seq<Action>, k: nat, n: nat)
    requires IsRun(failOpen, blockStatus, boot, states, acts) && k <= n <= |acts|
    ensures |states[n].timeline| == n + 1
    ensures states[n].timeline[k] == Current(states[k])
    ensures Finished(states[n], Current(states[k]))
    ensures Contents(states[n], Current(states[k])) == Contents(states[k], Current(states[k]))
    decreases n
  {
    RunKeepsInv(failOpen, blockStatus, boot, states, acts, n);
    if k < n {
      TimelineIsHistory(failOpen, blockStatus, boot, states, acts, k, n - 1);
      RunKeepsInv(failOpen, blockStatus, boot, states, acts, n - 1);
      StaysInTimeline(failOpen, blockStatus, states[n - 1], acts[n - 1], k);
    }
  }

  lemma StaysInTimeline(failOpen: bool, blockStatus: int, s: State, a: Action, k: nat)
    requires Inv(failOpen, blockStatus, s) && Enabled(s, a) && k < |s.timeline|
    ensures var s', p := Apply(failOpen, blockStatus, s, a), s.timeline[k];
      k < |s'.timeline| && s'.timeline[k] == p && Finished(s', p) && Contents(s', p) == Contents(s, p)
  {
    TimelineGrows(failOpen, blockStatus, s, a);
    var t := Apply(failOpen, blockStatus, s, a).timeline;
    assert t[k] == t[..|s.timeline|][k];
    FinishedIsFrozen(failOpen, blockStatus, s, a, s.timeline[k]);
  }

  /**
   In every interleaving of requests, loads and publications, from any start-up, a finished request replied what
   the decision gives on one trie, as that trie was at an instant between the request's
   arrival and now; read at the step that finishes it, that is an instant of the request.
   */
  lemma RepliesAreSnapshots(failOpen: bool, blockStatus: int, boot: Snapshot, states: seq<State>, acts: seq<Action>, n: nat, i: nat)
    requires IsRun(failOpen, blockStatus, boot, states, acts) && n <= |acts|
    requires i < |states[n].requests| && states[n].requests[i].pc.Done?
    ensures var r := states[n].requests[i];
      exists k :: r.start <= k <= n
               && r.pc.reply == ReplyOn(failOpen, blockStatus, r.kind, Contents(states[k], Current(states[k])))
  {
    RunKeepsInv(failOpen, blockStatus, boot, states, acts, n);
    var r := states[n].requests[i];
    var k :| r.start <= k < |states[n].timeline| && states[n].timeline[k] == r.pc.p;
    TimelineIsHistory(failOpen, blockStatus, boot, states, acts, k, n);
    assert r.pc.reply == ReplyOn(failOpen, blockStatus, r.kind, Contents(states[k], Current(states[k])));
  }
}
