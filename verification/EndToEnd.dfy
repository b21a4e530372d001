/**
 From the origin's file to the reply: one process from start-up on, its refreshes, the
 publication of their tries and its requests in any interleaving, and the decision.
 */
module EndToEnd {
  import opened Wrappers
  import opened Netip
  import opened Canonical
  import opened FileSystem
  import opened Calendar
  import opened Fetcher
  import opened FetcherTheorems
  import Lives
  import Loader
  import Server
  import Snapshots

  // ---------------------------------------------------------------------------
  // The decision in terms of a database

  function Wanted(w: World): set<string> {
    set c | c in w.countries
  }

  /** The answer of a daemon without a usable blocklist. */
  function ModeStatus(failOpen: bool, blockStatus: int): int {
    if failOpen then 200 else blockStatus
  }

  /**
   The right status by a database of disjoint networks.  With no row of a wanted country the
   startup mode answers everyone.  Otherwise a client without an address is blocked, one in
   a network is blocked or let through as the network's country says, and one in no network
   is let through.
   */
  ghost predicate RightStatus(failOpen: bool, blockStatus: int, rows: seq<Loader.Row>, wanted: set<string>,
                              client: Option<Addr>, status: int)
  {
    if Loader.CountMatching(rows, wanted) == 0 then status == ModeStatus(failOpen, blockStatus)
    else match client
         case None => status == blockStatus
         case Some(ip) =>
           && (forall x | 0 <= x < |rows| && Loader.Holds(rows[x], ip) ::
                 status == if rows[x].country in wanted then blockStatus else 200)
           && ((forall x | 0 <= x < |rows| :: !Loader.Holds(rows[x], ip)) ==> status == 200)
  }

  /** The decision on the blocklist of such a database is right. */
  lemma DecisionByCountry(failOpen: bool, blockStatus: int, rows: seq<Loader.Row>, wanted: set<string>, client: Option<Addr>)
    requires Loader.DisjointNetworks(rows) && Loader.Selected(rows, wanted).Ok?
    ensures RightStatus(failOpen, blockStatus, rows, wanted, client,
                        Server.Decide(failOpen, blockStatus, Some(Recorded(Loader.Selected(rows, wanted).value)), client))
  {
    var cs := Recorded(Loader.Selected(rows, wanted).value);
    Loader.LenCountsMatching(rows, wanted);
    assert cs == {} <==> Loader.CountMatching(rows, wanted) == 0;
    if client.Some? {
      var ip := client.value;
      forall x | 0 <= x < |rows| && Loader.Holds(rows[x], ip) ensures Blocks(cs, ip) <==> rows[x].country in wanted {
        Loader.BlockedIffWanted(rows, wanted, x, ip);
      }
      if forall x | 0 <= x < |rows| :: !Loader.Holds(rows[x], ip) {
        Loader.UnheldIsNotBlocked(rows, wanted, ip);
      }
    }
  }

  /** The reply is the right one for the database in force; without one the startup mode answers. */
  ghost predicate RightFor(w: World, failOpen: bool, blockStatus: int, db: Option<Loader.Database>, client: Option<Addr>,
                           reply: Snapshots.Reply)
  {
    reply.Verdict? &&
    match db
    case None => reply.status == ModeStatus(failOpen, blockStatus)
    case Some(d) =>
      Loader.DisjointNetworks(d.rows) ==> RightStatus(failOpen, blockStatus, d.rows, Wanted(w), client, reply.status)
  }

  /** The blocklist a database gives, none for none. */
  function BlocklistFrom(w: World, db: Option<Loader.Database>): Option<set<Prefix>> {
    if db == None then None else Loader.Blocklist(db, w.countries)
  }

  lemma DecisionIsRight(w: World, failOpen: bool, blockStatus: int, db: Option<Loader.Database>, client: Option<Addr>)
    requires db.Some? ==> BlocklistFrom(w, db).Some?
    ensures RightFor(w, failOpen, blockStatus, db, client,
                     Snapshots.Verdict(Server.Decide(failOpen, blockStatus, BlocklistFrom(w, db), client)))
  {
    if db.Some? && Loader.DisjointNetworks(db.value.rows) {
      DecisionByCountry(failOpen, blockStatus, db.value.rows, Wanted(w), client);
    }
  }

  // ---------------------------------------------------------------------------
  // A process

  /** The source with its readers, and the daemon's state between refreshes. */
  datatype Service = Service(snap: Snapshots.State, daemon: Daemon)

  /** A step of a request or of a load, or the end of a refresh: its publication, or its giving up. */
  datatype Move = Serve(a: Snapshots.Action) | Refresh(round: Round)

  function ActOf(m: Move): Snapshots.Action {
    match m
    case Serve(a) => a
    case Refresh(round) => if round.r == Ok(Updated) then Snapshots.Swap else Snapshots.GiveUp
  }

  ghost predicate Next(w: World, failOpen: bool, blockStatus: int, s: Service, m: Move, s': Service) {
    && Snapshots.Enabled(s.snap, ActOf(m)) && s'.snap == Snapshots.Apply(failOpen, blockStatus, s.snap, ActOf(m))
    && match m
       case Serve(a) => !a.Swap? && !a.GiveUp? && s'.daemon == s.daemon
       case Refresh(round) =>
         && IsDate(round.a.today) && Refreshed(w, round.a, s.daemon, s'.daemon, round.r)
         && (round.r == Ok(Updated) ==> s'.daemon.blocklist == Snapshots.Contents(s.snap, s.snap.building))
  }

  /** A process that boots as `c` says on `disk`, and runs. */
  ghost predicate IsProcess(c: Lives.StartUp, removed: bool, disk: Disk, failOpen: bool, blockStatus: int,
                            services: seq<Service>, moves: seq<Move>)
  {
    && |services| == |moves| + 1
    && WellFormed(disk) && Lives.Started(c, removed, disk, services[0].daemon)
    && services[0].snap == Snapshots.Start(services[0].daemon.blocklist)
    && forall k | 0 <= k < |moves| :: Next(c.w, failOpen, blockStatus, services[k], moves[k], services[k + 1])
  }

  /** Every origin asked was honest in what it was asked. */
  ghost predicate AllHonest(services: seq<Service>, moves: seq<Move>, name: Naming)
    requires |services| == |moves| + 1
  {
    forall k | 0 <= k < |moves| && moves[k].Refresh? ::
      && IsDate(moves[k].round.a.today)
      && HonestTo(moves[k].round.a, moves[k].round.c1, moves[k].round.c2, services[k].daemon.v, name)
  }

  // ---------------------------------------------------------------------------
  // Which database is in force

  /** The database in the file an unconditional download would use in that round. */
  function DatabaseOf(w: World, round: Round): Option<Loader.Database> {
    if !IsDate(round.a.today) then None
    else match FileOf(round)
         case None => None
         case Some(obj) => match w.gunzip(obj.gz) case None => None case Some(data) => w.decode(data)
  }

  /** What start-up publishes comes from this database, in the cache file. */
  function BootDatabase(c: Lives.StartUp, disk: Disk): Option<Loader.Database>
    requires WellFormed(disk)
  {
    var v := View(disk, CachePath);
    if Lives.Serviceable(c, v) then c.w.decode(v.value.content) else None
  }

  /** The last of the first `n` moves that is a refresh without error. */
  function LastOk(moves: seq<Move>, n: nat): (last: Option<nat>)
    requires n <= |moves|
    ensures last.Some? ==> last.value < n && moves[last.value].Refresh? && moves[last.value].round.r.Ok?
  {
    if n == 0 then None
    else if moves[n - 1].Refresh? && moves[n - 1].round.r.Ok? then Some(n - 1)
    else LastOk(moves, n - 1)
  }

  /** In force after `n` moves: the selected file's database at the last successful refresh, or before any the cached one. */
  function InForce(c: Lives.StartUp, disk: Disk, moves: seq<Move>, n: nat): Option<Loader.Database>
    requires WellFormed(disk) && n <= |moves|
  {
    match LastOk(moves, n)
    case None => BootDatabase(c, disk)
    case Some(j) => DatabaseOf(c.w, moves[j].round)
  }

  lemma BootPublishes(c: Lives.StartUp, removed: bool, disk: Disk, booted: Daemon)
    requires WellFormed(disk) && Lives.Started(c, removed, disk, booted)
    ensures booted.blocklist == BlocklistFrom(c.w, BootDatabase(c, disk))
    ensures BootDatabase(c, disk).Some? ==> booted.blocklist.Some?
  {}

  lemma RoundPublishes(w: World, round: Round)
    requires IsDate(round.a.today) && BlocklistOf(w, round).Some?
    ensures DatabaseOf(w, round).Some? && BlocklistOf(w, round) == BlocklistFrom(w, DatabaseOf(w, round))
  {}

  /** After any number of moves the daemon's blocklist is the one of the database in force. */
  lemma {:induction false} PublishedAfter(c: Lives.StartUp, removed: bool, disk: Disk, failOpen: bool, blockStatus: int,
                                          services: seq<Service>, moves: seq<Move>, name: Naming, n: nat)
    requires IsProcess(c, removed, disk, failOpen, blockStatus, services, moves) && AllHonest(services, moves, name)
    requires n <= |moves|
    ensures Tied(c.w, services[n].daemon, name)
    ensures var db := InForce(c, disk, moves, n);
      services[n].daemon.blocklist == BlocklistFrom(c.w, db) && (db.Some? ==> services[n].daemon.blocklist.Some?)
  {
    if n == 0 {
      BootPublishes(c, removed, disk, services[0].daemon);
    } else {
      PublishedAfter(c, removed, disk, failOpen, blockStatus, services, moves, name, n - 1);
      var m := moves[n - 1];
      assert Next(c.w, failOpen, blockStatus, services[n - 1], m, services[n]);
      if m.Refresh? {
        RefreshPublishes(c.w, m.round, services[n - 1].daemon, services[n].daemon, name);
      }
    }
  }

  lemma RefreshPublishes(w: World, round: Round, before: Daemon, after: Daemon, name: Naming)
    requires IsDate(round.a.today) && Refreshed(w, round.a, before, after, round.r)
    requires HonestTo(round.a, round.c1, round.c2, before.v, name) && Tied(w, before, name)
    ensures Tied(w, after, name)
    ensures round.r.Err? ==> after.blocklist == before.blocklist
    ensures round.r.Ok? ==> after.blocklist.Some? && DatabaseOf(w, round).Some? && after.blocklist == BlocklistFrom(w, DatabaseOf(w, round))
  {
    LastRound(w, before, after, round, name);
    FailureChangesNothing(w, round.a, before, after, round.r);
    if round.r.Ok? {
      RoundPublishes(w, round);
    }
  }

  // ---------------------------------------------------------------------------
  // What the source publishes

  function Snaps(services: seq<Service>): seq<Snapshots.State> {
    seq(|services|, k requires 0 <= k < |services| => services[k].snap)
  }

  function Acts(moves: seq<Move>): seq<Snapshots.Action> {
    seq(|moves|, k requires 0 <= k < |moves| => ActOf(moves[k]))
  }

  lemma ProcessIsRun(c: Lives.StartUp, removed: bool, disk: Disk, failOpen: bool, blockStatus: int,
                     services: seq<Service>, moves: seq<Move>)
    requires IsProcess(c, removed, disk, failOpen, blockStatus, services, moves)
    ensures Snapshots.IsRun(failOpen, blockStatus, services[0].daemon.blocklist, Snaps(services), Acts(moves))
  {
    forall k | 0 <= k < |moves|
      ensures Snapshots.Enabled(Snaps(services)[k], Acts(moves)[k])
      ensures Snaps(services)[k + 1] == Snapshots.Apply(failOpen, blockStatus, Snaps(services)[k], Acts(moves)[k])
    {
      assert Next(c.w, failOpen, blockStatus, services[k], moves[k], services[k + 1]);
    }
  }

  /** At every instant the source publishes the daemon's blocklist. */
  ghost predicate Agrees(s: Service) {
    Snapshots.Contents(s.snap, Snapshots.Current(s.snap)) == s.daemon.blocklist
  }

  lemma KeepsAgreement(w: World, failOpen: bool, blockStatus: int, s: Service, m: Move, s': Service)
    requires Snapshots.Inv(failOpen, blockStatus, s.snap) && Agrees(s) && Next(w, failOpen, blockStatus, s, m, s')
    ensures Agrees(s')
  {
    var t := s.snap.timeline;
    assert Snapshots.Finished(s.snap, t[|t| - 1]);
    Snapshots.FinishedIsFrozen(failOpen, blockStatus, s.snap, ActOf(m), Snapshots.Current(s.snap));
    if m.Refresh? {
      FailureChangesNothing(w, m.round.a, s.daemon, s'.daemon, m.round.r);
    }
  }

  lemma {:induction false} SourceIsDaemon(c: Lives.StartUp, removed: bool, disk: Disk, failOpen: bool, blockStatus: int,
                                          services: seq<Service>, moves: seq<Move>, n: nat)
    requires IsProcess(c, removed, disk, failOpen, blockStatus, services, moves) && n <= |moves|
    ensures Agrees(services[n])
  {
    if n > 0 {
      SourceIsDaemon(c, removed, disk, failOpen, blockStatus, services, moves, n - 1);
      ProcessIsRun(c, removed, disk, failOpen, blockStatus, services, moves);
      Snapshots.RunKeepsInv(failOpen, blockStatus, services[0].daemon.blocklist, Snaps(services), Acts(moves), n - 1);
      KeepsAgreement(c.w, failOpen, blockStatus, services[n - 1], moves[n - 1], services[n]);
    }
  }

  /**
   The whole way.  In every interleaving of requests, loads and refreshes of a process, with
   or without a cache to start from, a finished /check was answered as the database in force
   at some instant of the request demands: with something to block, blocked if and only if
   the client has no address or the network holding it has a blocked country.
   */
  lemma CheckFollowsDatabase(c: Lives.StartUp, removed: bool, disk: Disk, failOpen: bool, blockStatus: int,
                             services: seq<Service>, moves: seq<Move>, name: Naming, n: nat, i: nat, client: Option<Addr>)
    requires IsProcess(c, removed, disk, failOpen, blockStatus, services, moves) && AllHonest(services, moves, name)
    requires n <= |moves|
    requires i < |services[n].snap.requests| && services[n].snap.requests[i].pc.Done?
    requires services[n].snap.requests[i].kind == Snapshots.Check(client)
    ensures var r := services[n].snap.requests[i];
      exists k :: r.start <= k <= n && RightFor(c.w, failOpen, blockStatus, InForce(c, disk, moves, k), client, r.pc.reply)
  {
    var r := services[n].snap.requests[i];
    var k := ReplyInstant(c, removed, disk, failOpen, blockStatus, services, moves, name, n, i);
    DecisionIsRight(c.w, failOpen, blockStatus, InForce(c, disk, moves, k), client);
    assert RightFor(c.w, failOpen, blockStatus, InForce(c, disk, moves, k), client, r.pc.reply);
  }

  /** The instant of the request whose database a finished request was answered from. */
  lemma ReplyInstant(c: Lives.StartUp, removed: bool, disk: Disk, failOpen: bool, blockStatus: int,
                     services: seq<Service>, moves: seq<Move>, name: Naming, n: nat, i: nat) returns (k: nat)
    requires IsProcess(c, removed, disk, failOpen, blockStatus, services, moves) && AllHonest(services, moves, name)
    requires n <= |moves|
    requires i < |services[n].snap.requests| && services[n].snap.requests[i].pc.Done?
    ensures services[n].snap.requests[i].start <= k <= n
    ensures var r, db := services[n].snap.requests[i], InForce(c, disk, moves, k);
      && (db.Some? ==> BlocklistFrom(c.w, db).Some?)
      && r.pc.reply == Snapshots.ReplyOn(failOpen, blockStatus, r.kind, BlocklistFrom(c.w, db))
  {
    var r := services[n].snap.requests[i];
    ProcessIsRun(c, removed, disk, failOpen, blockStatus, services, moves);
    var states := Snaps(services);
    Snapshots.RepliesAreSnapshots(failOpen, blockStatus, services[0].daemon.blocklist, states, Acts(moves), n, i);
    k :| r.start <= k <= n
      && r.pc.reply == Snapshots.ReplyOn(failOpen, blockStatus, r.kind,
                                         Snapshots.Contents(states[k], Snapshots.Current(states[k])));
    SourceIsDaemon(c, removed, disk, failOpen, blockStatus, services, moves, k);
    PublishedAfter(c, removed, disk, failOpen, blockStatus, services, moves, name, k);
  }

  /** The right answer of a readiness probe: 200 with the number of wanted networks, or 503 without any. */
  ghost predicate RightProbe(w: World, db: Option<Loader.Database>, reply: Snapshots.Reply) {
    match db
    case None => reply == Snapshots.Probe(503, 0)
    case Some(d) =>
      Loader.DisjointNetworks(d.rows) ==>
      var n := Loader.CountMatching(d.rows, Wanted(w));
      reply == if n > 0 then Snapshots.Probe(200, n) else Snapshots.Probe(503, 0)
  }

  lemma ProbeIsRight(w: World, failOpen: bool, blockStatus: int, db: Option<Loader.Database>)
    requires db.Some? ==> BlocklistFrom(w, db).Some?
    ensures RightProbe(w, db, Snapshots.ReplyOn(failOpen, blockStatus, Snapshots.Healthz, BlocklistFrom(w, db)))
  {
    if db.Some? && Loader.DisjointNetworks(db.value.rows) {
      Loader.LenCountsMatching(db.value.rows, Wanted(w));
    }
  }

  /** And a finished /healthz reported the database in force at some instant of the request, under both startup modes. */
  lemma ProbeFollowsDatabase(c: Lives.StartUp, removed: bool, disk: Disk, failOpen: bool, blockStatus: int,
                             services: seq<Service>, moves: seq<Move>, name: Naming, n: nat, i: nat)
    requires IsProcess(c, removed, disk, failOpen, blockStatus, services, moves) && AllHonest(services, moves, name)
    requires n <= |moves|
    requires i < |services[n].snap.requests| && services[n].snap.requests[i].pc.Done?
    requires services[n].snap.requests[i].kind == Snapshots.Healthz
    ensures var r := services[n].snap.requests[i];
      exists k :: r.start <= k <= n && RightProbe(c.w, InForce(c, disk, moves, k), r.pc.reply)
  {
    var r := services[n].snap.requests[i];
    var k := ReplyInstant(c, removed, disk, failOpen, blockStatus, services, moves, name, n, i);
    ProbeIsRight(c.w, failOpen, blockStatus, InForce(c, disk, moves, k));
    assert RightProbe(c.w, InForce(c, disk, moves, k), r.pc.reply);
  }

  // ---------------------------------------------------------------------------
  // A warm start

  /** The states of a process that is asked once, before any refresh has ended. */
  function Asked(booted: Daemon, pc: Snapshots.Pc, client: Option<Addr>, instant: nat): Service {
    var s := Snapshots.Start(booted.blocklist);
    Service(s.(timeline := seq(instant + 1, _ => Snapshots.Current(s)),
               requests := [Snapshots.Request(Snapshots.Check(client), 1, pc)]), booted)
  }

  lemma Arrives(w: World, failOpen: bool, blockStatus: int, booted: Daemon, client: Option<Addr>)
    ensures Next(w, failOpen, blockStatus, Service(Snapshots.Start(booted.blocklist), booted),
                 Serve(Snapshots.Arrive(Snapshots.Check(client))), Asked(booted, Snapshots.LoadPointer, client, 1))
  {
    var s := Snapshots.Start(booted.blocklist);
    assert [] + [Snapshots.Request(Snapshots.Check(client), 1, Snapshots.LoadPointer)]
        == [Snapshots.Request(Snapshots.Check(client), 1, Snapshots.LoadPointer)];
    assert s.timeline + [Snapshots.Current(s)] == seq(2, _ => Snapshots.Current(s));
  }

  lemma StepsOn(w: World, failOpen: bool, blockStatus: int, booted: Daemon, client: Option<Addr>,
                pc: Snapshots.Pc, pc': Snapshots.Pc, instant: nat)
    requires !pc.Done?
    requires var s := Asked(booted, pc, client, instant).snap;
      Snapshots.StepRequest(failOpen, blockStatus, s, s.requests[0]) == s.requests[0].(pc := pc')
    ensures Next(w, failOpen, blockStatus, Asked(booted, pc, client, instant), Serve(Snapshots.Step(0)),
                 Asked(booted, pc', client, instant + 1))
  {
    var s, s' := Asked(booted, pc, client, instant).snap, Asked(booted, pc', client, instant + 1).snap;
    assert s.timeline + [Snapshots.Current(s)] == s'.timeline;
    assert s.requests[0 := s.requests[0].(pc := pc')] == s'.requests;
  }

  /** On a disk with a serviceable cache file the process starts with its blocklist published, and answers from it. */
  lemma WarmStart(c: Lives.StartUp, disk: Disk, failOpen: bool, blockStatus: int, client: Option<Addr>)
    returns (services: seq<Service>, moves: seq<Move>)
    requires WellFormed(disk) && Lives.Serviceable(c, View(disk, CachePath))
    requires Built(c.w, View(disk, CachePath).value.content) != Some({})
    ensures IsProcess(c, false, disk, failOpen, blockStatus, services, moves)
    ensures forall name :: AllHonest(services, moves, name)
    ensures services[0].daemon.blocklist == Built(c.w, View(disk, CachePath).value.content)
    ensures |moves| == 4 && |services[4].snap.requests| == 1
    ensures services[4].snap.requests[0].kind == Snapshots.Check(client) && services[4].snap.requests[0].pc.Done?
  {
    var b := Built(c.w, View(disk, CachePath).value.content);
    var booted := Daemon(b, NO_VALIDATORS, disk);
    var verdict := if client == None || Blocks(b.value, client.value) then blockStatus else 200;
    var done := Snapshots.Done(Some(0), Snapshots.Verdict(verdict));
    var step := Serve(Snapshots.Step(0));
    Arrives(c.w, failOpen, blockStatus, booted, client);
    StepsOn(c.w, failOpen, blockStatus, booted, client, Snapshots.LoadPointer, Snapshots.Observe(Some(0)), 1);
    StepsOn(c.w, failOpen, blockStatus, booted, client, Snapshots.Observe(Some(0)), Snapshots.Answer(Some(0), true), 2);
    StepsOn(c.w, failOpen, blockStatus, booted, client, Snapshots.Answer(Some(0), true), done, 3);
    moves := [Serve(Snapshots.Arrive(Snapshots.Check(client))), step, step, step];
    services := [Service(Snapshots.Start(b), booted), Asked(booted, Snapshots.LoadPointer, client, 1),
                 Asked(booted, Snapshots.Observe(Some(0)), client, 2), Asked(booted, Snapshots.Answer(Some(0), true), client, 3),
                 Asked(booted, done, client, 4)];
  }
}
