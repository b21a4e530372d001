/**
 The fetcher: a conditional GET of the current month's file with a fall back to the
 month before, the write through the disk cache, and the publication of the new trie.
 The origin is a function from requests to responses; decompression and the database
 reader are functions of the bytes.
 */
module Fetcher {
  import opened Wrappers
  import opened Netip
  import opened Canonical
  import opened FileSystem
  import opened Calendar
  import opened Publication
  import DiskCache
  import Loader
  import Trie

  /** The remembered response headers; the empty string stands for an absent one. */
  datatype Validators = Validators(etag: string, lastModified: string)

  const NO_VALIDATORS := Validators("", "")

  datatype Request = Request(month: Month, ifNoneMatch: string, ifModifiedSince: string)

  datatype Response = NetworkError | Response(status: int, v: Validators, body: Bytes)

  type Origin = Request -> Response

  /** What the daemon is configured with, and the library code it calls. */
  datatype World = World(
    gunzip: Bytes -> Option<Bytes>,
    decode: Bytes -> Option<Loader.Database>,
    countries: seq<string>)

  datatype FetchError = Network | UnexpectedStatus(status: int) | CorruptStream | NotPublished

  datatype Answer = Answer(body: Bytes, notModified: bool, v: Validators, status: int)

  function Ask(v: Validators, m: Month): Request {
    Request(m, v.etag, v.lastModified)
  }

  /** One conditional GET, classified. */
  function Got(w: World, o: Origin, v: Validators, m: Month): Result<Answer, FetchError> {
    match o(Ask(v, m))
    case NetworkError => Err(Network)
    case Response(status, headers, body) =>
      if status == 200 then
        match w.gunzip(body)
        case None => Err(CorruptStream)
        case Some(data) => Ok(Answer(data, false, headers, 200))
      else if status == 304 then Ok(Answer([], true, v, 304))
      else if status == 404 then Ok(Answer([], false, NO_VALIDATORS, 404))
      else Err(UnexpectedStatus(status))
  }

  /** The current month's answer, or the prior month's when the current one is not published. */
  function Fetched(w: World, first: Origin, second: Origin, v: Validators, today: Date): Result<Answer, FetchError>
    requires 1 <= today.month <= 12
  {
    match Got(w, first, v, MonthOf(today))
    case Err(e) => Err(e)
    case Ok(a) =>
      if a.status != 404 then Ok(a)
      else match Got(w, second, v, MonthOf(AddDays(today, -today.day)))
           case Err(e) => Err(e)
           case Ok(b) => if b.status == 404 then Err(NotPublished) else Ok(b)
  }

  datatype RefreshError = FetchFailed(fetch: FetchError) | WriteFailed | LoadFailed(load: Loader.LoadError)

  datatype Outcome = Updated | Unchanged

  /** What a refresh acts on: the published prefixes, the validators and the disk. */
  datatype Daemon = Daemon(blocklist: Option<set<Prefix>>, v: Validators, disk: Disk)

  /** The prefixes a trie built from decompressed bytes holds. */
  function Built(w: World, data: Bytes): Option<set<Prefix>> {
    Loader.Blocklist(w.decode(data), w.countries)
  }

  /** The surroundings of one refresh; `openFails` is a failure of the moment to open the file just written. */
  datatype Attempt = Attempt(first: Origin, second: Origin, today: Date, now: int, openFails: bool)

  /** The database a load gets from the file's bytes, if it can open the file. */
  function Opened(w: World, data: Bytes, openFails: bool): Option<Loader.Database> {
    if openFails then None else w.decode(data)
  }

  /** What one refresh may do, and what it returns. */
  ghost predicate Refreshed(w: World, a: Attempt, before: Daemon, after: Daemon, r: Result<Outcome, RefreshError>)
    requires IsDate(a.today)
  {
    && WellFormed(before.disk) && WellFormed(after.disk)
    && match Fetched(w, a.first, a.second, before.v, a.today)
       case Err(e) => r == Err(FetchFailed(e)) && after == before
       case Ok(f) =>
         if f.notModified then r == Ok(Unchanged) && after == before else Installed(w, f, a.now, a.openFails, before, after, r)
  }

  /** What a downloaded file may do. */
  ghost predicate Installed(w: World, f: Answer, now: int, openFails: bool,
                            before: Daemon, after: Daemon, r: Result<Outcome, RefreshError>)
  {
    && WellFormed(before.disk) && WellFormed(after.disk)
    && if r == Err(WriteFailed) then
         && DiskCache.SameShown(before.disk, after.disk)
         && after.blocklist == before.blocklist && after.v == before.v
       else
         && DiskCache.Replaced(before.disk, after.disk, File(f.body, now))
         && match Loader.Loaded(Opened(w, f.body, openFails), w.countries)
            case Err(e) => r == Err(LoadFailed(e)) && after.blocklist == before.blocklist && after.v == before.v
            case Ok(ps) => r == Ok(Updated) && after.blocklist == Some(Recorded(ps)) && after.v == f.v
  }

  /** The fetch brings a file to install. */
  predicate Brings(w: World, a: Attempt, v: Validators) {
    && IsDate(a.today) && Fetched(w, a.first, a.second, v, a.today).Ok?
    && !Fetched(w, a.first, a.second, v, a.today).value.notModified
  }

  /** Whether the published blocklist has prefixes. */
  predicate Usable(d: Daemon) {
    d.blocklist.Some? && d.blocklist.value != {}
  }

  /** One refresh on the record: what it was given, the state around it, and its result. */
  datatype Call = Call(a: Attempt, before: Daemon, after: Daemon, r: Result<Outcome, RefreshError>)

  class Fetcher {
    const world: World
    const source: Source
    const fs: FileSystem
    var etag: string
    var lastModified: string
    /** Every refresh so far. */
    ghost var calls: seq<Call>

    ghost predicate Valid()
      reads this, fs, source, source.current, if source.current == null then {} else source.current.nodes.Values
    {
      fs.Valid() && (source.current != null ==> source.current.Valid())
    }

    ghost function State(): Daemon
      reads this, fs, source, source.current
    {
      Daemon(if source.current == null then None else Some(source.current.entries), Validators(etag, lastModified), fs.disk)
    }

    constructor (world: World, source: Source, fs: FileSystem)
      ensures this.world == world && this.source == source && this.fs == fs
      ensures etag == "" && lastModified == "" && calls == []
    {
      this.world := world;
      this.source := source;
      this.fs := fs;
      etag, lastModified := "", "";
      calls := [];
    }

    method Get(o: Origin, m: Month) returns (r: Result<Answer, FetchError>)
      ensures r == Got(world, o, Validators(etag, lastModified), m)
    {
      var response := o(Request(m, etag, lastModified));
      if response == NetworkError {
        return Err(Network);
      }
      if response.status == 200 {
        var data := world.gunzip(response.body);
        if data == None {
          return Err(CorruptStream);
        }
        return Ok(Answer(data.value, false, response.v, 200));
      } else if response.status == 304 {
        return Ok(Answer([], true, Validators(etag, lastModified), 304));
      } else if response.status == 404 {
        return Ok(Answer([], false, NO_VALIDATORS, 404));
      }
      return Err(UnexpectedStatus(response.status));
    }

    method Fetch(first: Origin, second: Origin, today: Date) returns (r: Result<Answer, FetchError>)
      requires IsDate(today)
      ensures r == Fetched(world, first, second, Validators(etag, lastModified), today)
    {
      var current := MonthOf(today);
      var prior := MonthOf(AddDays(today, -today.day));
      r := Get(first, current);
      if r.Err? {
        return;
      }
      if r.value.status == 404 {
        r := Get(second, prior);
        if r.Err? {
          return;
        }
        if r.value.status == 404 {
          return Err(NotPublished);
        }
      }
    }

    /**
     `Refresh`: the state changes as `Refreshed` says, the write is reported failed exactly
     when one of its calls failed and makes the calls of one write and no others, the refresh
     goes on the record, and neither the trie published before nor any of its nodes is
     written to.
     */
    method Refresh(a: Attempt) returns (r: Result<Outcome, RefreshError>)
      requires Valid() && IsDate(a.today)
      modifies this, source, fs
      ensures Valid()
      ensures Refreshed(world, a, old(State()), State(), r)
      ensures calls == old(calls) + [Call(a, old(State()), State(), r)]
      ensures r == Err(WriteFailed) <==> DiskCache.SomeFailed(old(fs.history), fs.history)
      ensures if Brings(world, a, old(State()).v) then DiskCache.Scripted(|old(fs.history)|, fs.history, r != Err(WriteFailed))
              else fs.history == old(fs.history)
      ensures r != Ok(Updated) ==> source.current == old(source.current)
      ensures r == Ok(Updated) ==> fresh(source.current) && fresh(source.current.nodes.Values)
      ensures old(source.current) != null ==> unchanged(old(source.current), old(source.current.nodes.Values))
      ensures DiskCache.Extends(old(fs.history), fs.history)
      ensures forall k | |old(fs.history)| <= k < |fs.history| ::
                MidRefresh(world, a, old(State()), fs.history[k].disk)
    {
      ghost var before := State();
      r := FetchAndReplace(a);
      calls := calls + [Call(a, before, State(), r)];
    }

    method FetchAndReplace(a: Attempt) returns (r: Result<Outcome, RefreshError>)
      requires Valid() && IsDate(a.today)
      modifies this`etag, this`lastModified, source, fs
      ensures Valid()
      ensures Refreshed(world, a, old(State()), State(), r)
      ensures r == Err(WriteFailed) <==> DiskCache.SomeFailed(old(fs.history), fs.history)
      ensures if Brings(world, a, old(State()).v) then DiskCache.Scripted(|old(fs.history)|, fs.history, r != Err(WriteFailed))
              else fs.history == old(fs.history)
      ensures r != Ok(Updated) ==> source.current == old(source.current)
      ensures r == Ok(Updated) ==> fresh(source.current) && fresh(source.current.nodes.Values)
      ensures DiskCache.Extends(old(fs.history), fs.history)
      ensures forall k | |old(fs.history)| <= k < |fs.history| ::
                MidRefresh(world, a, old(State()), fs.history[k].disk)
    {
      var f := Fetch(a.first, a.second, a.today);
      if f.Err? {
        return Err(FetchFailed(f.error));
      }
      if f.value.notModified {
        return Ok(Unchanged);
      }
      r := Install(f.value, a.now, a.openFails);
    }

    /** Through the cache file into the source. */
    method Install(f: Answer, now: int, openFails: bool) returns (r: Result<Outcome, RefreshError>)
      requires Valid()
      modifies this`etag, this`lastModified, source, fs
      ensures Valid()
      ensures Installed(world, f, now, openFails, old(State()), State(), r)
      ensures r == Err(WriteFailed) <==> DiskCache.SomeFailed(old(fs.history), fs.history)
      ensures DiskCache.Scripted(|old(fs.history)|, fs.history, r != Err(WriteFailed))
      ensures r != Ok(Updated) ==> source.current == old(source.current)
      ensures r == Ok(Updated) ==> fresh(source.current) && fresh(source.current.nodes.Values)
      ensures DiskCache.AllProtect(old(fs.history), fs.history, old(fs.disk), File(f.body, now))
    {
      var written, leaked := DiskCache.Write(fs, f.body, now);
      if !written {
        return Err(WriteFailed);
      }
      var onDisk := fs.disk.files[fs.disk.dir[CachePath]].content;
      var loaded := Loader.LoadCountryBlocklist(Opened(world, onDisk, openFails), world.countries);
      if loaded.Err? {
        return Err(LoadFailed(loaded.error));
      }
      source.Swap(loaded.value);
      etag, lastModified := f.v.etag, f.v.lastModified;
      return Ok(Updated);
    }
  }

  /** A disk state a refresh passes through. */
  ghost predicate MidRefresh(w: World, a: Attempt, before: Daemon, d: Disk)
    requires IsDate(a.today)
  {
    var f := Fetched(w, a.first, a.second, before.v, a.today);
    f.Ok? && !f.value.notModified && DiskCache.Protects(before.disk, d, File(f.value.body, a.now))
  }
}
