/**
 One cache file over many lives of the daemon: start-up from the snapshot, refreshes, the
 end of the process between refreshes or in the middle of one, and the loss of power at
 any instant, while the daemon runs or is down.
 */
module Lives {
  import opened Wrappers
  import opened Netip
  import opened Canonical
  import opened FileSystem
  import opened Calendar
  import opened Fetcher
  import opened Publication
  import opened Trie
  import DiskCache
  import Loader

  datatype CacheError = Absent | Stale | Unreadable

  const MAX_DURATION := 0x7fff_ffff_ffff_ffff
  const MIN_DURATION := -0x8000_0000_0000_0000

  type Duration = d: int | MIN_DURATION <= d <= MAX_DURATION

  /** `now.Sub(then)`: the difference in nanoseconds, saturated to the duration type. */
  function Age(now: int, then_: int): int {
    if now - then_ > MAX_DURATION then MAX_DURATION
    else if now - then_ < MIN_DURATION then MIN_DURATION
    else now - then_
  }

  /**
   The configuration and surroundings of one start-up: `statFails` is any failure of the
   status call but "does not exist", `openFails` a failure of the moment to open the file.
   */
  datatype StartUp = StartUp(w: World, maxAge: Duration, now: int, statFails: bool, openFails: bool)

  /** How `Load` classifies what is at the cache path. */
  function Classified(c: StartUp, view: Option<File>): Result<seq<Prefix>, CacheError> {
    if c.statFails then Err(Unreadable)
    else if view == None then Err(Absent)
    else if Age(c.now, view.value.mtime) > c.maxAge then Err(Stale)
    else match Loader.Loaded(Opened(c.w, view.value.content, c.openFails), c.w.countries)
         case Err(_) => Err(Unreadable)
         case Ok(ps) => Ok(ps)
  }

  /** The file's age in nanoseconds is above the limit; above the greatest duration nothing is. */
  predicate TooOld(c: StartUp, f: File) {
    c.now - f.mtime > c.maxAge && c.maxAge < MAX_DURATION
  }

  /** Whether start-up can publish what the cache path holds. */
  predicate Serviceable(c: StartUp, v: Option<File>) {
    && v.Some? && !c.statFails && !c.openFails
    && !TooOld(c, v.value) && Built(c.w, v.value.content).Some?
  }

  lemma SaturatedAge(c: StartUp, f: File)
    ensures Age(c.now, f.mtime) > c.maxAge <==> TooOld(c, f)
  {}

  /** The four outcomes of `Load`, on the clock, the file and the failures. */
  lemma LoadOutcomes(c: StartUp, v: Option<File>)
    ensures Classified(c, v).Ok? <==> Serviceable(c, v)
    ensures Serviceable(c, v) ==> Some(Recorded(Classified(c, v).value)) == Built(c.w, v.value.content)
    ensures Classified(c, v) == Err(Absent) <==> !c.statFails && v == None
    ensures Classified(c, v) == Err(Stale) <==> !c.statFails && v.Some? && TooOld(c, v.value)
  {
    if v.Some? {
      SaturatedAge(c, v.value);
    }
  }

  method Load(fs: FileSystem, c: StartUp) returns (r: Result<Trie, CacheError>)
    requires fs.Valid()
    ensures var v := View(fs.disk, CachePath);
      && (r.Ok? <==> Serviceable(c, v))
      && (r.Ok? ==> && fresh(r.value) && fresh(r.value.nodes.Values) && r.value.Valid()
                    && Some(r.value.entries) == Built(c.w, v.value.content))
      && (r == Err(Absent) <==> !c.statFails && v == None)
      && (r == Err(Stale) <==> !c.statFails && v.Some? && TooOld(c, v.value))
  {
    LoadOutcomes(c, View(fs.disk, CachePath));
    if c.statFails {
      return Err(Unreadable);
    }
    if CachePath !in fs.disk.dir {
      return Err(Absent);
    }
    var file := fs.disk.files[fs.disk.dir[CachePath]];
    if Age(c.now, file.mtime) > c.maxAge {
      return Err(Stale);
    }
    var loaded := Loader.LoadCountryBlocklist(Opened(c.w, file.content, c.openFails), c.w.countries);
    if loaded.Err? {
      return Err(Unreadable);
    }
    return Ok(loaded.value);
  }

  /** Start-up tries to remove a file it sees and cannot use, and whatever is there when it cannot see. */
  predicate Unwanted(c: StartUp, v: Option<File>) {
    c.statFails || (v.Some? && !Serviceable(c, v))
  }

  /** What start-up publishes, and the disk it leaves; `removed` says that it removed an unusable file. */
  ghost predicate Started(c: StartUp, removed: bool, disk: Disk, after: Daemon)
    requires WellFormed(disk)
  {
    var v := View(disk, CachePath);
    && after.v == NO_VALIDATORS
    && after.blocklist == (if Serviceable(c, v) then Built(c.w, v.value.content) else None)
    && (removed ==> Unwanted(c, v) && CachePath in disk.dir)
    && after.disk == if removed then Removed(disk, CachePath) else disk
  }

  /** The blocklist the source publishes. */
  ghost function Published(source: Source): Option<set<Prefix>>
    reads source, source.current
  {
    if source.current == null then None else Some(source.current.entries)
  }

  /**
   `loadDiskCache`, before a fetcher exists.  It touches the disk only to remove a file it
   cannot use; that file is gone afterwards unless the call to remove it failed.
   */
  method LoadDiskCache(fs: FileSystem, source: Source, c: StartUp)
    requires fs.Valid() && source.current == null
    modifies fs, source
    ensures fs.Valid()
    ensures source.current != null ==> fresh(source.current) && fresh(source.current.nodes.Values) && source.current.Valid()
    ensures if Unwanted(c, View(old(fs.disk), CachePath)) then
        && |fs.history| > |old(fs.history)|
        && fs.history == old(fs.history) + [Entry(Delete(CachePath), fs.history[|fs.history| - 1].ok, fs.disk)]
        && Started(c, fs.history[|fs.history| - 1].ok, old(fs.disk), Daemon(Published(source), NO_VALIDATORS, fs.disk))
      else
        && fs.history == old(fs.history)
        && Started(c, false, old(fs.disk), Daemon(Published(source), NO_VALIDATORS, fs.disk))
  {
    var r := Load(fs, c);
    match r {
      case Err(Absent) =>
      case Err(_) =>
        var removed := fs.Remove(CachePath);
      case Ok(trie) =>
        source.Swap(trie);
    }
  }

  // ---------------------------------------------------------------------------
  // Lives

  /** A daemon runs with one configuration; `served` is the file its published trie was built from. */
  datatype Host = Running(w: World, daemon: Daemon, served: Option<File>) | Down(disk: Disk)

  /**
   Since the machine last came up: what the cache path held then, and what it was changed
   to since, in order; None for a removal.
   */
  datatype Life = Life(host: Host, base: Option<File>, puts: seq<Option<File>>)

  const NEW_MACHINE := Life(Down(Disk(map[], map[], {}, {})), None, [])

  /**
   Every boot may come with another configuration.  `Stop` ends the process between
   refreshes and `Kill` in the middle of one, at the disk state `at`; the file system lives
   on.  A loss of power takes it through a crash as well.
   */
  datatype Event =
    | Boot(c: StartUp, removed: bool)
    | Round(a: Attempt, r: Result<Outcome, RefreshError>)
    | Stop
    | Kill(a: Attempt, at: Disk, renamed: bool)
    | PowerLoss
    | PowerLossDuring(a: Attempt, at: Disk, renamed: bool)

  function DiskOf(l: Life): Disk {
    match l.host
    case Running(_, d, _) => d.disk
    case Down(disk) => disk
  }

  /** What the cache path was last changed to. */
  function Latest(l: Life): Option<File> {
    if l.puts == [] then l.base else l.puts[|l.puts| - 1]
  }

  /** The file a refresh sets out to write, if it gets that far. */
  function Target(h: Host, a: Attempt): Option<File>
    requires h.Running? && IsDate(a.today)
  {
    match Fetched(h.w, a.first, a.second, h.daemon.v, a.today)
    case Ok(f) => if f.notModified then None else Some(File(f.body, a.now))
    case Err(_) => None
  }

  /** The middle of a refresh's write, before or after the rename. */
  ghost predicate Within(h: Host, a: Attempt, at: Disk, renamed: bool) {
    && h.Running? && IsDate(a.today) && Target(h, a).Some?
    && if renamed then DiskCache.Replaced(h.daemon.disk, at, Target(h, a).value)
       else DiskCache.SameShown(h.daemon.disk, at)
  }

  /** Every disk state that a refresh passes through is such a middle. */
  lemma MidRefreshIsWithin(h: Host, a: Attempt, d: Disk)
    requires h.Running? && IsDate(a.today) && MidRefresh(h.w, a, h.daemon, d)
    ensures Within(h, a, d, false) || Within(h, a, d, true)
  {}

  /** The changes of the cache path a refresh makes: one, if the rename happened. */
  function Put(h: Host, a: Attempt, renamed: bool): seq<Option<File>>
    requires h.Running? && IsDate(a.today)
  {
    if renamed then [Target(h, a)] else []
  }

  /** Whether the refresh got its file written and tried to load it. */
  predicate Wrote(r: Result<Outcome, RefreshError>) {
    r == Ok(Updated) || (r.Err? && r.error.LoadFailed?)
  }

  /** After a loss of power the machine comes up with what a crash left of `d`. */
  ghost predicate Survived(d: Disk, l': Life) {
    l'.host.Down? && Crash(d, l'.host.disk) && l'.base == View(l'.host.disk, CachePath) && l'.puts == []
  }

  ghost predicate Next(l: Life, e: Event, l': Life)
    requires WellFormed(DiskOf(l))
  {
    match e
    case Boot(c, removed) =>
      && l.host.Down? && l'.host.Running? && l'.host.w == c.w
      && Started(c, removed, l.host.disk, l'.host.daemon)
      && l'.host.served == (if l'.host.daemon.blocklist.Some? then View(l.host.disk, CachePath) else None)
      && l'.base == l.base && l'.puts == l.puts + if removed then [None] else []
    case Round(a, r) =>
      && IsDate(a.today) && l.host.Running? && l'.host.Running? && l'.host.w == l.host.w
      && Refreshed(l.host.w, a, l.host.daemon, l'.host.daemon, r)
      && l'.host.served == (if r == Ok(Updated) then Target(l.host, a) else l.host.served)
      && l'.base == l.base && l'.puts == l.puts + Put(l.host, a, Wrote(r))
    case Stop =>
      l.host.Running? && l' == l.(host := Down(l.host.daemon.disk))
    case Kill(a, at, renamed) =>
      && Within(l.host, a, at, renamed)
      && l' == Life(Down(at), l.base, l.puts + Put(l.host, a, renamed))
    case PowerLoss =>
      Survived(DiskOf(l), l')
    case PowerLossDuring(a, at, renamed) =>
      Within(l.host, a, at, renamed) && Survived(at, l')
  }

  ghost predicate IsHistory(lives: seq<Life>, events: seq<Event>) {
    && |lives| == |events| + 1 && lives[0] == NEW_MACHINE
    && forall k | 0 <= k < |events| :: WellFormed(DiskOf(lives[k])) && Next(lives[k], events[k], lives[k + 1])
  }

  // ---------------------------------------------------------------------------
  // What the cache path holds

  /** What a crash may leave at the cache path: what the machine came up with, or what it was changed to since. */
  predicate Surviving(base: Option<File>, puts: seq<Option<File>>, v: Option<File>) {
    v == base || v in puts
  }

  /** The cache path holds exactly the last change, and a crash leaves exactly one of the machine's changes, whole. */
  ghost predicate Cached(l: Life) {
    && WellFormed(DiskOf(l))
    && View(DiskOf(l), CachePath) == Latest(l)
    && forall v :: MayShow(DiskOf(l), CachePath, v) <==> Surviving(l.base, l.puts, v)
  }

  lemma OneMorePut(base: Option<File>, puts: seq<Option<File>>, put: Option<File>, v: Option<File>)
    ensures Surviving(base, puts + [put], v) <==> Surviving(base, puts, v) || v == put
  {
    assert (puts + [put])[|puts|] == put;
  }

  lemma RemovalKeepsCached(l: Life, l': Life)
    requires Cached(l) && DiskOf(l') == Removed(DiskOf(l), CachePath)
    requires l'.base == l.base && l'.puts == l.puts + [None]
    ensures Cached(l')
  {
    DiskCache.RemovalShows(DiskOf(l), None);
    forall v ensures MayShow(DiskOf(l'), CachePath, v) <==> Surviving(l'.base, l'.puts, v) {
      DiskCache.RemovalShows(DiskOf(l), v);
      OneMorePut(l.base, l.puts, None, v);
    }
  }

  lemma WithinKeepsCached(l: Life, a: Attempt, at: Disk, renamed: bool, l': Life)
    requires Cached(l) && Within(l.host, a, at, renamed)
    requires DiskOf(l') == at && l'.base == l.base && l'.puts == l.puts + Put(l.host, a, renamed)
    ensures Cached(l')
  {
    if renamed {
      forall v ensures MayShow(at, CachePath, v) <==> Surviving(l'.base, l'.puts, v) {
        OneMorePut(l.base, l.puts, Target(l.host, a), v);
      }
    } else {
      assert l'.puts == l.puts;
    }
  }

  /** What comes up after a loss of power: something that could survive, whole, and nothing else from then on. */
  lemma SurvivorIsWhole(l: Life, l': Life)
    requires Cached(l) && Survived(DiskOf(l), l')
    ensures Cached(l') && Surviving(l.base, l.puts, l'.base)
  {
    CrashShows(DiskOf(l), l'.host.disk, CachePath);
    ViewMayShow(l'.host.disk, CachePath);
  }

  /** The daemon's life had it ended in the middle of that refresh. */
  ghost function Halted(l: Life, a: Attempt, at: Disk, renamed: bool): Life
    requires Within(l.host, a, at, renamed)
  {
    Life(Down(at), l.base, l.puts + Put(l.host, a, renamed))
  }

  lemma KeepsCached(l: Life, e: Event, l': Life)
    requires Cached(l) && Next(l, e, l')
    ensures Cached(l')
  {
    match e
    case Boot(_, removed) =>
      if removed {
        RemovalKeepsCached(l, l');
      } else {
        assert l'.puts == l.puts;
      }
    case Round(a, r) =>
      RoundKeepsCached(l, a, r, l');
    case Stop =>
    case Kill(a, at, renamed) =>
      WithinKeepsCached(l, a, at, renamed, l');
    case PowerLoss =>
      SurvivorIsWhole(l, l');
    case PowerLossDuring(a, at, renamed) =>
      WithinKeepsCached(l, a, at, renamed, Halted(l, a, at, renamed));
      SurvivorIsWhole(Halted(l, a, at, renamed), l');
  }

  lemma RoundKeepsCached(l: Life, a: Attempt, r: Result<Outcome, RefreshError>, l': Life)
    requires Cached(l) && WellFormed(DiskOf(l)) && Next(l, Round(a, r), l')
    ensures Cached(l')
  {
    if Wrote(r) || r == Err(WriteFailed) {
      WithinKeepsCached(l, a, DiskOf(l'), Wrote(r), l');
    } else {
      assert l'.puts == l.puts;
    }
  }

  /**
   Over every history of boots, refreshes, stops, kills and losses of power that begins
   with an empty disk: as long as the machine stays up, the cache path holds exactly what
   the last successful write put there, or nothing after a removal; and at every instant a
   loss of power can leave what the machine came up with or any such change, whole, and
   nothing else.
   */
  lemma {:induction false} CacheIsLastWrite(lives: seq<Life>, events: seq<Event>, n: nat)
    requires IsHistory(lives, events) && n <= |events|
    ensures Cached(lives[n])
  {
    if n == 0 {
      BlankIsCached();
    } else {
      CacheIsLastWrite(lives, events, n - 1);
      KeepsCached(lives[n - 1], events[n - 1], lives[n]);
    }
  }

  lemma BlankIsCached()
    ensures Cached(NEW_MACHINE)
  {
    ViewMayShow(DiskOf(NEW_MACHINE), CachePath);
  }

  // ---------------------------------------------------------------------------
  // Losses of power

  /** Whether a loss of power at the disk state `d` can leave `v` at the cache path. */
  ghost predicate CanBeLeft(d: Disk, v: Option<File>) {
    exists l' :: Survived(d, l') && l'.base == v
  }

  lemma LeftIffSurviving(l: Life, v: Option<File>)
    requires Cached(l)
    ensures CanBeLeft(DiskOf(l), v) <==> Surviving(l.base, l.puts, v)
  {
    if Surviving(l.base, l.puts, v) {
      var d' := SomeCrashShows(DiskOf(l), CachePath, v);
      assert Survived(DiskOf(l), Life(Down(d'), v, []));
    }
    if CanBeLeft(DiskOf(l), v) {
      var l' :| Survived(DiskOf(l), l') && l'.base == v;
      SurvivorIsWhole(l, l');
    }
  }

  /**
   Exactly what a loss of power can leave, in every history: at rest, what the machine came
   up with or a change since; in the middle of a write the same before the rename, and
   after it also the new file.  Nothing torn, and nothing of a failed write.
   */
  lemma PowerLossLeaves(lives: seq<Life>, events: seq<Event>, n: nat, v: Option<File>)
    requires IsHistory(lives, events) && n <= |events|
    ensures WellFormed(DiskOf(lives[n]))
    ensures CanBeLeft(DiskOf(lives[n]), v) <==> Surviving(lives[n].base, lives[n].puts, v)
    ensures forall a, at, renamed | Within(lives[n].host, a, at, renamed) ::
              CanBeLeft(at, v) <==>
              Surviving(lives[n].base, lives[n].puts, v) || (renamed && v == Target(lives[n].host, a))
  {
    CacheIsLastWrite(lives, events, n);
    LeftIffSurviving(lives[n], v);
    forall a, at, renamed | Within(lives[n].host, a, at, renamed)
      ensures CanBeLeft(at, v) <==> Surviving(lives[n].base, lives[n].puts, v) || (renamed && v == Target(lives[n].host, a))
    {
      LeftAmidst(lives[n], a, at, renamed, v);
    }
  }

  lemma LeftAmidst(l: Life, a: Attempt, at: Disk, renamed: bool, v: Option<File>)
    requires Cached(l) && Within(l.host, a, at, renamed)
    ensures CanBeLeft(at, v) <==> Surviving(l.base, l.puts, v) || (renamed && v == Target(l.host, a))
  {
    var halted := Halted(l, a, at, renamed);
    WithinKeepsCached(l, a, at, renamed, halted);
    LeftIffSurviving(halted, v);
    if renamed {
      OneMorePut(l.base, l.puts, Target(l.host, a), v);
    } else {
      assert halted.puts == l.puts;
    }
  }

  /** Every state of the path since the machine came up was the latest one or none. */
  predicate OnlyLatest(l: Life) {
    && (l.base == None || l.base == Latest(l))
    && forall p | p in l.puts :: p == None || p == Latest(l)
  }

  /**
   When a crash in the middle of a write leaves "either the prior cache or no cache":
   exactly when the path was never changed to or found as anything else since the machine
   came up and, after the rename, the new file is the old one.
   */
  lemma PriorOrNone(lives: seq<Life>, events: seq<Event>, n: nat, a: Attempt, at: Disk, renamed: bool)
    requires IsHistory(lives, events) && n <= |events| && Within(lives[n].host, a, at, renamed)
    ensures (forall v | CanBeLeft(at, v) :: v == None || v == Latest(lives[n])) <==>
            OnlyLatest(lives[n]) && (renamed ==> Target(lives[n].host, a) == Latest(lives[n]))
  {
    var l := lives[n];
    CacheIsLastWrite(lives, events, n);
    forall v ensures CanBeLeft(at, v) <==> Surviving(l.base, l.puts, v) || (renamed && v == Target(l.host, a)) {
      LeftAmidst(l, a, at, renamed, v);
    }
    assert CanBeLeft(at, l.base);
    assert renamed ==> CanBeLeft(at, Target(l.host, a));
    assert forall p | p in l.puts :: CanBeLeft(at, p);
  }

  // ---------------------------------------------------------------------------
  // Where it comes from

  /** The event was a refresh, finished or not, that downloaded `f` and set out to write it. */
  ghost predicate Downloads(l: Life, e: Event, f: File) {
    && (e.Round? || e.Kill? || e.PowerLossDuring?)
    && l.host.Running? && IsDate(e.a.today) && Target(l.host, e.a) == Some(f)
  }

  /** Some event before the n-th downloaded `f`. */
  ghost predicate CameFrom(lives: seq<Life>, events: seq<Event>, n: nat, f: File)
    requires n <= |events| < |lives|
  {
    exists j :: 0 <= j < n && Downloads(lives[j], events[j], f)
  }

  lemma {:induction false} EverythingWasDownloaded(lives: seq<Life>, events: seq<Event>, n: nat, f: File)
    requires IsHistory(lives, events) && n <= |events|
    requires Surviving(lives[n].base, lives[n].puts, Some(f))
    ensures CameFrom(lives, events, n, f)
  {
    if n > 0 {
      var l, e, l' := lives[n - 1], events[n - 1], lives[n];
      CacheIsLastWrite(lives, events, n - 1);
      if e.PowerLoss? {
        SurvivorIsWhole(l, l');
      } else if e.PowerLossDuring? {
        WithinKeepsCached(l, e.a, e.at, e.renamed, Halted(l, e.a, e.at, e.renamed));
        SurvivorIsWhole(Halted(l, e.a, e.at, e.renamed), l');
      }
      if Surviving(l.base, l.puts, Some(f)) {
        EverythingWasDownloaded(lives, events, n - 1, f);
      } else {
        assert Downloads(l, e, f);
      }
    }
  }

  // ---------------------------------------------------------------------------
  // Restarts

  /**
   Every boot in every history publishes if and only if the last change of the cache path is
   a file it can read and open, young enough and loadable; and then it publishes what that
   file builds, which an earlier refresh downloaded at the time its age is counted from.
   */
  lemma BootPublishesDownload(lives: seq<Life>, events: seq<Event>, n: nat)
    requires IsHistory(lives, events) && n < |events| && events[n].Boot?
    ensures lives[n + 1].host.Running?
    ensures var c, v, booted := events[n].c, Latest(lives[n]), lives[n + 1].host.daemon.blocklist;
      && (booted.Some? <==> Serviceable(c, v))
      && (booted.Some? ==>
            && booted == Built(c.w, v.value.content)
            && (c.now - v.value.mtime <= c.maxAge || c.maxAge == MAX_DURATION)
            && CameFrom(lives, events, n, v.value))
  {
    CacheIsLastWrite(lives, events, n);
    var v := Latest(lives[n]);
    if v.Some? {
      ViewMayShow(DiskOf(lives[n]), CachePath);
      EverythingWasDownloaded(lives, events, n, v.value);
    }
  }

  /** The last refresh since the boot that got a file written. */
  function LastWrite(events: seq<Event>, n: nat): (last: Option<nat>)
    requires n <= |events|
    ensures last.Some? ==> last.value < n && events[last.value].Round? && Wrote(events[last.value].r)
  {
    if n == 0 || events[n - 1].Boot? then None
    else if events[n - 1].Round? && Wrote(events[n - 1].r) then Some(n - 1)
    else LastWrite(events, n - 1)
  }

  /** The last file written since the boot, if any, was loaded. */
  predicate LastLoaded(events: seq<Event>, n: nat)
    requires n <= |events|
  {
    LastWrite(events, n) == None || events[LastWrite(events, n).value].r.Ok?
  }

  /** What a running daemon serves, what it wrote last, and why the two may differ. */
  ghost predicate Coherent(lives: seq<Life>, events: seq<Event>, n: nat)
    requires n <= |events| < |lives|
  {
    var l := lives[n];
    l.host.Running? ==>
    && l.host.daemon.blocklist == (if l.host.served == None then None else Built(l.host.w, l.host.served.value.content))
    && (l.host.served.Some? <==> l.host.daemon.blocklist.Some?)
    && (l.host.served.Some? ==> Latest(l).Some? && (LastLoaded(events, n) ==> Latest(l) == l.host.served))
    && match LastWrite(events, n)
       case None => true
       case Some(j) =>
         && j < n && events[j].Round? && lives[j].host.Running? && lives[j].host.w == l.host.w && IsDate(events[j].a.today)
         && Target(lives[j].host, events[j].a).Some? && Latest(l) == Target(lives[j].host, events[j].a)
         && (events[j].r.Ok? <==> !events[j].a.openFails && Built(l.host.w, Latest(l).value.content).Some?)
  }

  lemma {:induction false} AlwaysCoherent(lives: seq<Life>, events: seq<Event>, n: nat)
    requires IsHistory(lives, events) && n <= |events|
    ensures Coherent(lives, events, n)
  {
    if n > 0 {
      AlwaysCoherent(lives, events, n - 1);
      CacheIsLastWrite(lives, events, n - 1);
      assert Next(lives[n - 1], events[n - 1], lives[n]);
      if events[n - 1].Boot? {
        BootIsCoherent(lives, events, n);
      } else if events[n - 1].Round? {
        RoundIsCoherent(lives, events, n);
      }
    }
  }

  lemma BootIsCoherent(lives: seq<Life>, events: seq<Event>, n: nat)
    requires 0 < n <= |events| < |lives| && Cached(lives[n - 1])
    requires events[n - 1].Boot? && Next(lives[n - 1], events[n - 1], lives[n])
    ensures Coherent(lives, events, n)
  {}

  lemma RoundIsCoherent(lives: seq<Life>, events: seq<Event>, n: nat)
    requires 0 < n <= |events| < |lives| && Cached(lives[n - 1]) && Coherent(lives, events, n - 1)
    requires events[n - 1].Round? && Next(lives[n - 1], events[n - 1], lives[n])
    ensures Coherent(lives, events, n)
  {
    if !Wrote(events[n - 1].r) {
      assert lives[n].puts == lives[n - 1].puts;
    }
  }

  /**
   In every history, while a daemon serves a blocklist the cache holds a file, and that file
   builds the blocklist served if and only if the file written last was loaded, or builds
   the same as the one that is served; it was loaded unless opening it failed or its bytes
   do not load.
   */
  lemma CacheMatchesService(lives: seq<Life>, events: seq<Event>, n: nat)
    requires IsHistory(lives, events) && n <= |events|
    requires lives[n].host.Running? && lives[n].host.daemon.blocklist.Some?
    ensures var h, v := lives[n].host, Latest(lives[n]);
      && h.served.Some? && v.Some? && h.daemon.blocklist == Built(h.w, h.served.value.content)
      && (Built(h.w, v.value.content) == h.daemon.blocklist <==>
            LastLoaded(events, n) || Built(h.w, v.value.content) == Built(h.w, h.served.value.content))
      && (LastLoaded(events, n) <==>
            match LastWrite(events, n)
            case None => true
            case Some(j) => !events[j].a.openFails && Built(h.w, v.value.content).Some?)
  {
    AlwaysCoherent(lives, events, n);
  }

  /**
   A restart with the same configuration, after any history of refreshes: nothing if the
   cached file is too old or cannot be read, opened or loaded; the blocklist served before
   if the file written last was loaded; and otherwise what that file builds.
   */
  lemma RestartRepublishes(lives: seq<Life>, events: seq<Event>, n: nat)
    requires IsHistory(lives, events) && n + 1 < |events|
    requires events[n].Stop? && events[n + 1].Boot? && lives[n].host.Running? && lives[n].host.daemon.blocklist.Some?
    requires events[n + 1].c.w == lives[n].host.w
    ensures Latest(lives[n]).Some? && lives[n + 2].host.Running?
    ensures lives[n + 2].host.daemon.blocklist ==
            if !Serviceable(events[n + 1].c, Latest(lives[n])) then None
            else if LastLoaded(events, n) then lives[n].host.daemon.blocklist
            else Built(lives[n].host.w, Latest(lives[n]).value.content)
  {
    ServedIsCached(lives, events, n);
    BootAfterStop(lives, events, n);
  }

  lemma ServedIsCached(lives: seq<Life>, events: seq<Event>, n: nat)
    requires IsHistory(lives, events) && n <= |events|
    requires lives[n].host.Running? && lives[n].host.daemon.blocklist.Some?
    ensures Latest(lives[n]).Some?
    ensures LastLoaded(events, n) ==> lives[n].host.daemon.blocklist == Built(lives[n].host.w, Latest(lives[n]).value.content)
  {
    AlwaysCoherent(lives, events, n);
  }

  lemma BootAfterStop(lives: seq<Life>, events: seq<Event>, n: nat)
    requires IsHistory(lives, events) && n + 1 < |events| && events[n].Stop? && events[n + 1].Boot?
    ensures lives[n + 2].host.Running?
    ensures var c, v := events[n + 1].c, Latest(lives[n]);
      lives[n + 2].host.daemon.blocklist == if Serviceable(c, v) then Built(c.w, v.value.content) else None
  {
    assert Next(lives[n], events[n], lives[n + 1]);
    BootPublishesDownload(lives, events, n + 1);
  }

  /**
   After a download that was written but not loaded the old blocklist stays in force.  The
   next process publishes nothing when the bytes do not load; it publishes the new file when
   only opening it had failed.
   */
  lemma FailedLoadThenBoot(lives: seq<Life>, events: seq<Event>, n: nat)
    requires IsHistory(lives, events) && n + 2 < |events|
    requires events[n].Round? && events[n].r.Err? && events[n].r.error.LoadFailed?
    requires events[n + 1].Stop? && events[n + 2].Boot?
    ensures lives[n].host.Running? && lives[n + 1].host.Running? && lives[n + 3].host.Running?
    ensures lives[n + 1].host.daemon.blocklist == lives[n].host.daemon.blocklist
    ensures IsDate(events[n].a.today) && Target(lives[n].host, events[n].a).Some?
    ensures var c, f := events[n + 2].c, Target(lives[n].host, events[n].a);
      && Latest(lives[n + 1]) == f
      && lives[n + 3].host.daemon.blocklist == (if Serviceable(c, f) then Built(c.w, f.value.content) else None)
      && (c.w == lives[n].host.w && Serviceable(c, f) ==> events[n].a.openFails)
      && Latest(lives[n + 3]) == if events[n + 2].removed then None else f
  {
    assert Next(lives[n], events[n], lives[n + 1]);
    assert Next(lives[n + 1], events[n + 1], lives[n + 2]);
    assert Next(lives[n + 2], events[n + 2], lives[n + 3]);
    BootPublishesDownload(lives, events, n + 2);
  }
}
