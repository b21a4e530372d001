/**
 Three short histories: a file comes back after a loss of power, a file that could not be
 opened is published by the next process, and a file that does not load costs it the cache.
 */
module Histories {
  import opened Wrappers
  import opened FileSystem
  import opened Calendar
  import Canonical
  import opened Fetcher
  import opened FetcherTheorems
  import opened Lives
  import DiskCache
  import Loader

  /** An origin that answers every request with the same body. */
  function Serving(body: Bytes): Origin {
    (req: Request) => Response(200, NO_VALIDATORS, body)
  }

  function Fetching(body: Bytes, now: int, openFails: bool): Attempt {
    Attempt(Serving(body), Serving(body), Date(2026, 7, 2), now, openFails)
  }

  /** What a refresh returns whose write met no failure. */
  function ResultOf(body: Bytes, openFails: bool): Result<Outcome, RefreshError> {
    if openFails || body == [2] then Err(LoadFailed(Loader.OpenFailed)) else Ok(Updated)
  }

  const START := StartUp(EXAMPLE, MAX_DURATION, 0, false, false)

  lemma Extend(lives: seq<Life>, events: seq<Event>, e: Event, l': Life)
    requires IsHistory(lives, events)
    requires WellFormed(DiskOf(lives[|events|])) && Next(lives[|events|], e, l')
    ensures IsHistory(lives + [l'], events + [e])
  {
    var lives', events' := lives + [l'], events + [e];
    forall k | 0 <= k < |events'|
      ensures WellFormed(DiskOf(lives'[k])) && Next(lives'[k], events'[k], lives'[k + 1])
    {
      if k < |events| {
        assert Next(lives[k], events[k], lives[k + 1]);
      }
    }
  }

  /** One refresh that downloads and writes `body`. */
  lemma OneRound(l: Life, i: Inode, body: Bytes, now: int, openFails: bool) returns (l': Life)
    requires WellFormed(DiskOf(l)) && l.host.Running? && l.host.w == EXAMPLE && i !in DiskOf(l).files
    ensures WellFormed(DiskOf(l')) && Next(l, Event.Round(Fetching(body, now, openFails), ResultOf(body, openFails)), l')
    ensures l'.host.Running? && l'.host.w == EXAMPLE && DiskOf(l') == DiskCache.PutFile(DiskOf(l), i, File(body, now))
    ensures l'.host.daemon.blocklist == if ResultOf(body, openFails).Ok? then Built(EXAMPLE, body) else l.host.daemon.blocklist
    ensures l'.base == l.base && l'.puts == l.puts + [Some(File(body, now))]
  {
    var h, a, r := l.host, Fetching(body, now, openFails), ResultOf(body, openFails);
    var disk := DiskCache.PutFile(DiskOf(l), i, File(body, now));
    DiskCache.PutReplaces(DiskOf(l), i, File(body, now));
    LoadOf(body, openFails);
    assert Fetched(EXAMPLE, a.first, a.second, h.daemon.v, a.today) == Ok(Answer(body, false, NO_VALIDATORS, 200));
    l' := if r.Ok? then Life(Running(EXAMPLE, Daemon(Built(EXAMPLE, body), NO_VALIDATORS, disk), Some(File(body, now))),
                             l.base, l.puts + [Some(File(body, now))])
          else Life(Running(EXAMPLE, Daemon(h.daemon.blocklist, h.daemon.v, disk), h.served),
                    l.base, l.puts + [Some(File(body, now))]);
  }

  lemma LoadOf(body: Bytes, openFails: bool)
    ensures var loaded := Loader.Loaded(Opened(EXAMPLE, body, openFails), EXAMPLE.countries);
      if openFails || body == [2] then loaded == Err(Loader.OpenFailed)
      else loaded.Ok? && Built(EXAMPLE, body) == Some(Canonical.Recorded(loaded.value))
  {
    ExampleBlocklist();
    assert body != [1] && body != [2] ==> EXAMPLE.decode(body) == EXAMPLE.decode([0]);
  }

  /** From a new machine: a boot without a cache, and a refresh that writes `[1]`. */
  lemma FirstRound() returns (lives: seq<Life>, events: seq<Event>)
    ensures IsHistory(lives, events)
    ensures events == [Boot(START, false), Event.Round(Fetching([1], 1, false), Ok(Updated))]
    ensures lives[2].host.Running? && lives[2].host.w == EXAMPLE && lives[2].host.daemon.blocklist == Built(EXAMPLE, [1])
    ensures DiskOf(lives[2]) == DiskCache.PutFile(BLANK, 0, File([1], 1)) && WellFormed(DiskOf(lives[2]))
    ensures lives[2].base == None && lives[2].puts == [Some(File([1], 1))]
  {
    var booted := Life(Running(EXAMPLE, Daemon(None, NO_VALIDATORS, BLANK), None), None, []);
    assert Next(NEW_MACHINE, Boot(START, false), booted);
    var first := OneRound(booted, 0, [1], 1, false);
    Extend([NEW_MACHINE], [], Boot(START, false), booted);
    lives, events := [NEW_MACHINE] + [booted], [] + [Boot(START, false)];
    Extend(lives, events, Event.Round(Fetching([1], 1, false), Ok(Updated)), first);
    lives, events := lives + [first], events + [Event.Round(Fetching([1], 1, false), Ok(Updated))];
  }

  /** And then one that writes `body`. */
  lemma TwoRounds(body: Bytes, openFails: bool) returns (lives: seq<Life>, events: seq<Event>)
    ensures IsHistory(lives, events) && |events| == 3
    ensures events[1] == Event.Round(Fetching([1], 1, false), Ok(Updated))
    ensures events[2] == Event.Round(Fetching(body, 2, openFails), ResultOf(body, openFails))
    ensures WellFormed(DiskOf(lives[3])) && lives[3].host.Running? && lives[3].host.w == EXAMPLE
    ensures lives[3].host.daemon.blocklist ==
            if ResultOf(body, openFails).Ok? then Built(EXAMPLE, body) else Built(EXAMPLE, [1])
    ensures lives[3].base == None && lives[3].puts == [Some(File([1], 1)), Some(File(body, 2))]
  {
    lives, events := FirstRound();
    var second := OneRound(lives[2], 1, body, 2, openFails);
    var e := Event.Round(Fetching(body, 2, openFails), ResultOf(body, openFails));
    Extend(lives, events, e, second);
    lives, events := lives + [second], events + [e];
  }

  lemma SomeSurvivor(d: Disk, v: Option<File>) returns (l': Life)
    requires CanBeLeft(d, v)
    ensures Survived(d, l') && l'.base == v
  {
    l' :| Survived(d, l') && l'.base == v;
  }

  /** Two successful writes and a loss of power, after which the cache path holds the first file again. */
  lemma FirstFileComesBack() returns (lives: seq<Life>, events: seq<Event>)
    ensures IsHistory(lives, events) && |events| == 4 && events[3] == PowerLoss
    ensures events[1].Round? && events[1].r == Ok(Updated) && events[2].Round? && events[2].r == Ok(Updated)
    ensures Latest(lives[3]) == Some(File([0], 2)) && Latest(lives[4]) == Some(File([1], 1))
  {
    lives, events := TwoRounds([0], false);
    var l := lives[3];
    CacheIsLastWrite(lives, events, 3);
    assert l.puts[0] == Some(File([1], 1));
    LeftIffSurviving(l, Some(File([1], 1)));
    var l' := SomeSurvivor(DiskOf(l), Some(File([1], 1)));
    Extend(lives, events, PowerLoss, l');
    lives, events := lives + [l'], events + [PowerLoss];
  }

  /** A stop and a boot after the two refreshes. */
  lemma ThenRestart(body: Bytes, openFails: bool) returns (lives: seq<Life>, events: seq<Event>)
    ensures IsHistory(lives, events) && |events| == 5 && events[3] == Stop && events[4] == Boot(START, false)
    ensures events[1] == Event.Round(Fetching([1], 1, false), Ok(Updated))
    ensures events[2] == Event.Round(Fetching(body, 2, openFails), ResultOf(body, openFails))
    ensures lives[3].host.Running? && lives[5].host.Running?
    ensures lives[3].host.daemon.blocklist ==
            if ResultOf(body, openFails).Ok? then Built(EXAMPLE, body) else Built(EXAMPLE, [1])
    ensures lives[5].host.daemon.blocklist == Built(EXAMPLE, body)
  {
    lives, events := TwoRounds(body, openFails);
    var l := lives[3];
    CacheIsLastWrite(lives, events, 3);
    LoadOf(body, false);
    var down := l.(host := Down(l.host.daemon.disk));
    var served := if Built(EXAMPLE, body).Some? then Some(File(body, 2)) else None;
    var booted := l.(host := Running(EXAMPLE, Daemon(Built(EXAMPLE, body), NO_VALIDATORS, l.host.daemon.disk), served));
    assert l.puts + [] == l.puts;
    assert Next(down, Boot(START, false), booted);
    Extend(lives, events, Stop, down);
    lives, events := lives + [down], events + [Stop];
    Extend(lives, events, Boot(START, false), booted);
    lives, events := lives + [booted], events + [Boot(START, false)];
  }

  /**
   The daemon serves the first file, and opening the second fails once: the refresh reports
   an error, the first stays in force, and the next process publishes the second.
   */
  lemma FailedOpenChangesService() returns (lives: seq<Life>, events: seq<Event>)
    ensures IsHistory(lives, events) && |events| == 5
    ensures events[2].Round? && events[2].r == Err(LoadFailed(Loader.OpenFailed)) && events[3] == Stop && events[4].Boot?
    ensures lives[3].host.Running? && lives[3].host.daemon.blocklist == Built(EXAMPLE, [1])
    ensures lives[5].host.Running? && lives[5].host.daemon.blocklist == Some({})
    ensures Built(EXAMPLE, [1]).Some? && Built(EXAMPLE, [1]) != Some({})
  {
    ExampleBlocklist();
    lives, events := ThenRestart([0], true);
  }

  /** The same with a file that does not load: the next process publishes nothing. */
  lemma FailedLoadLosesCache() returns (lives: seq<Life>, events: seq<Event>)
    ensures IsHistory(lives, events) && |events| == 5
    ensures events[2].Round? && events[2].r == Err(LoadFailed(Loader.OpenFailed)) && !events[2].a.openFails
    ensures events[3] == Stop && events[4].Boot?
    ensures lives[3].host.Running? && lives[3].host.daemon.blocklist == Built(EXAMPLE, [1]) && Built(EXAMPLE, [1]).Some?
    ensures lives[5].host.Running? && lives[5].host.daemon.blocklist == None
  {
    ExampleBlocklist();
    lives, events := ThenRestart([2], false);
  }
}
