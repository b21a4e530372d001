/**
 Why a 304 can be trusted: the remembered validators always name the bytes of the
 published trie, so a conditional refresh publishes what an unconditional one would.
 */
module FetcherTheorems {
  import opened Wrappers
  import opened Netip
  import opened Canonical
  import opened FileSystem
  import opened Calendar
  import opened Fetcher
  import Loader
  import DiskCache

  /** A published file: its headers and its compressed bytes. */
  datatype Object = Object(v: Validators, gz: Bytes)

  /** What the origin serves at one instant. */
  type Catalogue = map<Month, Object>

  /** Which bytes a pair of validators was issued for, over the life of the process. */
  type Naming = Validators -> Option<Bytes>

  /**
   The origin's answer to a request carrying `v` for month `m` while it serves `c`: 404 only
   for what it does not publish, 200 with the file and the headers it is named by, and 304
   only when the validators sent name the bytes it would now serve (sections 13.1.2, 13.1.3
   and 15.4.5 of RFC 9110).  Other statuses and network errors may come at any time.
   */
  ghost predicate Honest(o: Origin, c: Catalogue, v: Validators, m: Month, name: Naming) {
    var resp := o(Ask(v, m));
    resp.Response? ==>
    && (resp.status == 404 ==> m !in c)
    && (resp.status == 200 ==>
          m in c && resp.v == c[m].v && resp.body == c[m].gz
          && (resp.v != NO_VALIDATORS ==> name(resp.v) == Some(resp.body)))
    && (resp.status == 304 ==> m in c && v != NO_VALIDATORS && name(v) == Some(c[m].gz))
  }

  /** The validators, when there are any, name compressed bytes the published trie was built from. */
  ghost predicate Tied(w: World, d: Daemon, name: Naming) {
    d.v != NO_VALIDATORS ==>
    && name(d.v).Some?
    && w.gunzip(name(d.v).value).Some?
    && d.blocklist.Some?
    && d.blocklist == Built(w, w.gunzip(name(d.v).value).value)
  }

  /** The origin's file an unconditional refresh would use: this month's, else last month's. */
  function Selected(c1: Catalogue, c2: Catalogue, today: Date): Option<Object>
    requires IsDate(today)
  {
    var m := Month(today.year, today.month);
    if m in c1 then Some(c1[m])
    else if MonthBefore(m) in c2 then Some(c2[MonthBefore(m)])
    else None
  }

  /** The blocklist of an unconditional download of that file. */
  function Unconditional(w: World, c1: Catalogue, c2: Catalogue, today: Date): Option<set<Prefix>>
    requires IsDate(today)
  {
    match Selected(c1, c2, today)
    case None => None
    case Some(obj) =>
      match w.gunzip(obj.gz)
      case None => None
      case Some(data) => Built(w, data)
  }

  predicate Denied(o: Origin, v: Validators, m: Month) {
    o(Ask(v, m)).Response? && o(Ask(v, m)).status == 404
  }

  /** Honest in what it is asked; the month before is asked for only after a 404. */
  ghost predicate HonestTo(a: Attempt, c1: Catalogue, c2: Catalogue, v: Validators, name: Naming)
    requires IsDate(a.today)
  {
    var m := Month(a.today.year, a.today.month);
    && Honest(a.first, c1, v, m, name)
    && (Denied(a.first, v, m) ==> Honest(a.second, c2, v, MonthBefore(m), name))
  }

  /**
   After every refresh that returns no error, the published blocklist is the one an
   unconditional download of the selected month's current file gives, also when one
   month's validators were sent for the other month's file; the validators stay tied.
   */
  lemma ConditionalIsUnconditional(w: World, a: Attempt, c1: Catalogue, c2: Catalogue, name: Naming,
                                   before: Daemon, after: Daemon, r: Result<Outcome, RefreshError>)
    requires IsDate(a.today) && Refreshed(w, a, before, after, r)
    requires HonestTo(a, c1, c2, before.v, name)
    requires Tied(w, before, name)
    ensures Tied(w, after, name)
    ensures r.Ok? ==> after.blocklist.Some? && after.blocklist == Unconditional(w, c1, c2, a.today)
  {
    BackByDayOfMonth(a.today);
    var f := Fetched(w, a.first, a.second, before.v, a.today);
    if f.Ok? && !f.value.notModified && r.Ok? {
      DownloadIsSelected(w, a, c1, c2, name, before.v);
    }
  }

  /** Without validators an honest origin never answers 304. */
  lemma NothingToConfirm(w: World, a: Attempt, c1: Catalogue, c2: Catalogue, name: Naming)
    requires IsDate(a.today) && HonestTo(a, c1, c2, NO_VALIDATORS, name)
    ensures var f := Fetched(w, a.first, a.second, NO_VALIDATORS, a.today);
      f.Ok? ==> !f.value.notModified
  {
    BackByDayOfMonth(a.today);
  }

  /** A 200 answer carries the selected file, named by its headers. */
  lemma DownloadIsSelected(w: World, a: Attempt, c1: Catalogue, c2: Catalogue, name: Naming, v: Validators)
    requires IsDate(a.today) && HonestTo(a, c1, c2, v, name)
    requires Fetched(w, a.first, a.second, v, a.today).Ok? && !Fetched(w, a.first, a.second, v, a.today).value.notModified
    ensures var f := Fetched(w, a.first, a.second, v, a.today).value;
      var obj := Selected(c1, c2, a.today);
      obj.Some? && w.gunzip(obj.value.gz) == Some(f.body) && f.v == obj.value.v
      && (f.v != NO_VALIDATORS ==> name(f.v) == Some(obj.value.gz))
  {
    BackByDayOfMonth(a.today);
  }

  // ---------------------------------------------------------------------------
  // Runs of refreshes in one process

  datatype Round = Round(a: Attempt, c1: Catalogue, c2: Catalogue, r: Result<Outcome, RefreshError>)

  /** `states[k + 1]` follows from `states[k]` by the k-th refresh. */
  ghost predicate IsRun(w: World, states: seq<Daemon>, rounds: seq<Round>) {
    && |states| == |rounds| + 1
    && forall k | 0 <= k < |rounds| ::
         IsDate(rounds[k].a.today) && Refreshed(w, rounds[k].a, states[k], states[k + 1], rounds[k].r)
  }

  /** A round that succeeded left the unconditional blocklist of its instant. */
  ghost predicate Faithful(w: World, round: Round, after: Daemon) {
    IsDate(round.a.today) && round.r.Ok? ==>
    after.blocklist.Some? && after.blocklist == Unconditional(w, round.c1, round.c2, round.a.today)
  }

  /**
   Over every run that starts without validators, as every process does, each refresh that
   succeeds leaves the unconditional blocklist of its instant.
   */
  lemma {:induction false} RunIsUnconditional(w: World, states: seq<Daemon>, rounds: seq<Round>, name: Naming, n: nat)
    requires IsRun(w, states, rounds) && states[0].v == NO_VALIDATORS && n <= |rounds|
    requires forall k | 0 <= k < |rounds| :: HonestTo(rounds[k].a, rounds[k].c1, rounds[k].c2, states[k].v, name)
    ensures forall k | 0 <= k < n :: Faithful(w, rounds[k], states[k + 1])
    ensures Tied(w, states[n], name)
  {
    if n > 0 {
      RunIsUnconditional(w, states, rounds, name, n - 1);
      LastRound(w, states[n - 1], states[n], rounds[n - 1], name);
    }
  }

  lemma LastRound(w: World, before: Daemon, after: Daemon, round: Round, name: Naming)
    requires IsDate(round.a.today) && Refreshed(w, round.a, before, after, round.r)
    requires HonestTo(round.a, round.c1, round.c2, before.v, name) && Tied(w, before, name)
    ensures Faithful(w, round, after) && Tied(w, after, name)
  {
    ConditionalIsUnconditional(w, round.a, round.c1, round.c2, name, before, after, round.r);
  }

  /** A refresh that failed or found nothing new changed neither blocklist nor validators; a 304 not even the cache. */
  lemma FailureChangesNothing(w: World, a: Attempt, before: Daemon, after: Daemon, r: Result<Outcome, RefreshError>)
    requires IsDate(a.today) && Refreshed(w, a, before, after, r)
    ensures r != Ok(Updated) ==> after.blocklist == before.blocklist && after.v == before.v
    ensures r == Ok(Unchanged) ==> after == before
    ensures r == Ok(Updated) ==> after.blocklist.Some?
  {}

  /**
   Within one process the source never returns to nil, and a usable blocklist becomes
   unusable only through a successful load that matched no network.
   */
  lemma {:induction false} StaysPublished(w: World, states: seq<Daemon>, rounds: seq<Round>, i: nat, n: nat)
    requires IsRun(w, states, rounds) && i <= n <= |rounds|
    ensures states[i].blocklist.Some? ==> states[n].blocklist.Some?
    ensures Usable(states[i]) && !Usable(states[n]) ==>
              exists k :: i <= k < n && rounds[k].r == Ok(Updated) && states[k + 1].blocklist == Some({})
    decreases n
  {
    if i < n {
      StaysPublished(w, states, rounds, i, n - 1);
      FailureChangesNothing(w, rounds[n - 1].a, states[n - 1], states[n], rounds[n - 1].r);
      if Usable(states[n - 1]) && !Usable(states[n]) {
        assert rounds[n - 1].r == Ok(Updated) && states[n - 1 + 1].blocklist == Some({});
      }
    }
  }

  // ---------------------------------------------------------------------------
  // Which origins are honest

  /**
   Whether validators sent for a file make the origin answer 304: an entity tag decides
   alone, and without one the file must be dated no later than the stamp.
   */
  predicate Confirms(v: Validators, obj: Object, date: string -> int) {
    if v.etag != "" then v.etag == obj.v.etag
    else v.lastModified != "" && obj.v.lastModified != "" && date(obj.v.lastModified) <= date(v.lastModified)
  }

  /** An origin that evaluates the preconditions as section 13.2.2 of RFC 9110 orders them. */
  function ByTheRules(c: Catalogue, date: string -> int): Origin {
    (req: Request) =>
      if req.month !in c then Response(404, NO_VALIDATORS, [])
      else
        var obj := c[req.month];
        if Confirms(Validators(req.ifNoneMatch, req.ifModifiedSince), obj, date) then Response(304, obj.v, [])
        else Response(200, obj.v, obj.gz)
  }

  /**
   One refresh from such origins, exactly: a refresh that returns no error found the
   selected file; it downloads it unless the validators confirm it; and it leaves that
   file's blocklist published if and only if it downloaded, or that was published already.
   */
  lemma RulesExactly(w: World, c1: Catalogue, c2: Catalogue, date: string -> int, today: Date, now: int, openFails: bool,
                     before: Daemon, after: Daemon, r: Result<Outcome, RefreshError>)
    requires IsDate(today)
    requires Refreshed(w, Attempt(ByTheRules(c1, date), ByTheRules(c2, date), today, now, openFails), before, after, r)
    requires r.Ok?
    ensures Selected(c1, c2, today).Some?
    ensures var obj, u := Selected(c1, c2, today).value, Unconditional(w, c1, c2, today);
      && (r == Ok(Unchanged) <==> Confirms(before.v, obj, date))
      && (r == Ok(Updated) ==> after.v == obj.v && u.Some?)
      && (after.blocklist == u <==> !Confirms(before.v, obj, date) || before.blocklist == u)
  {
    BackByDayOfMonth(today);
    assert Validators(before.v.etag, before.v.lastModified) == before.v;
  }

  /** A file that can be published: it decompresses and loads. */
  predicate Loadable(w: World, obj: Object) {
    w.gunzip(obj.gz).Some? && Built(w, w.gunzip(obj.gz).value).Some?
  }

  /**
   When a refresh from such origins succeeds: exactly when a file is selected and either the
   validators confirm it or it decompresses and loads, opening it works and no call of the
   write failed; `failed` is what the record of the calls says.
   */
  lemma RulesSucceed(w: World, c1: Catalogue, c2: Catalogue, date: string -> int, today: Date, now: int, openFails: bool,
                     before: Daemon, after: Daemon, failed: bool, r: Result<Outcome, RefreshError>)
    requires IsDate(today)
    requires Refreshed(w, Attempt(ByTheRules(c1, date), ByTheRules(c2, date), today, now, openFails), before, after, r)
    requires r == Err(WriteFailed) <==> failed
    ensures r.Ok? <==>
            && Selected(c1, c2, today).Some?
            && var obj := Selected(c1, c2, today).value;
               Confirms(before.v, obj, date) || (Loadable(w, obj) && !openFails && !failed)
  {
    BackByDayOfMonth(today);
    assert Validators(before.v.etag, before.v.lastModified) == before.v;
  }

  /**
   When the fetch gives no answer: the answering request, which is the second one exactly
   after a 404, met a network error, a body that does not decompress, or a status that is
   none of 200 and 304.
   */
  lemma FetchFailsIff(w: World, first: Origin, second: Origin, v: Validators, today: Date)
    requires IsDate(today)
    ensures var m := Month(today.year, today.month);
      var answer := if Denied(first, v, m) then second(Ask(v, MonthBefore(m))) else first(Ask(v, m));
      var f := Fetched(w, first, second, v, today);
      && (f == Err(NotPublished) <==> Denied(first, v, m) && Denied(second, v, MonthBefore(m)))
      && AnswerOf(w, answer, f)
  {
    BackByDayOfMonth(today);
    var m := Month(today.year, today.month);
    GotAnswer(w, first, v, m);
    GotAnswer(w, second, v, MonthBefore(m));
  }

  /** What becomes of the answering response: a body and headers, a 304, or a failure. */
  ghost predicate AnswerOf(w: World, answer: Response, f: Result<Answer, FetchError>) {
    && (f.Err? <==> || answer.NetworkError?
                    || (answer.status == 200 && w.gunzip(answer.body) == None)
                    || (answer.status != 200 && answer.status != 304))
    && (f.Ok? ==>
          && f.value.notModified == (answer.status == 304)
          && (answer.status == 200 ==> w.gunzip(answer.body) == Some(f.value.body) && f.value.v == answer.v))
  }

  lemma GotAnswer(w: World, o: Origin, v: Validators, m: Month)
    ensures var answer, g := o(Ask(v, m)), Got(w, o, v, m);
      && (Denied(o, v, m) <==> g.Ok? && g.value.status == 404)
      && (!Denied(o, v, m) ==> AnswerOf(w, answer, g))
      && g != Err(NotPublished)
  {}

  /** All origins of a run follow the rules. */
  ghost predicate Ruled(rounds: seq<Round>, date: string -> int) {
    forall k | 0 <= k < |rounds| ::
      rounds[k].a.first == ByTheRules(rounds[k].c1, date) && rounds[k].a.second == ByTheRules(rounds[k].c2, date)
  }

  function FileOf(round: Round): Option<Object>
    requires IsDate(round.a.today)
  {
    Selected(round.c1, round.c2, round.a.today)
  }

  function BlocklistOf(w: World, round: Round): Option<set<Prefix>>
    requires IsDate(round.a.today)
  {
    Unconditional(w, round.c1, round.c2, round.a.today)
  }

  /** The last of the first `n` rounds that downloaded. */
  function LastUpdate(rounds: seq<Round>, n: nat): Option<nat>
    requires n <= |rounds|
  {
    if n == 0 then None
    else if rounds[n - 1].r == Ok(Updated) then Some(n - 1)
    else LastUpdate(rounds, n - 1)
  }

  /** What is published and remembered comes from the last round that downloaded. */
  ghost predicate FromLastUpdate(w: World, states: seq<Daemon>, rounds: seq<Round>, n: nat)
    requires n <= |rounds| < |states|
  {
    match LastUpdate(rounds, n)
    case None => states[n].v == NO_VALIDATORS
    case Some(j) =>
      && j < n && IsDate(rounds[j].a.today) && FileOf(rounds[j]).Some?
      && states[n].v == FileOf(rounds[j]).value.v
      && states[n].blocklist.Some? && states[n].blocklist == BlocklistOf(w, rounds[j])
  }

  lemma {:induction false} PublishedFromLastUpdate(w: World, states: seq<Daemon>, rounds: seq<Round>, date: string -> int, n: nat)
    requires IsRun(w, states, rounds) && Ruled(rounds, date) && states[0].v == NO_VALIDATORS && n <= |rounds|
    ensures FromLastUpdate(w, states, rounds, n)
  {
    if n > 0 {
      PublishedFromLastUpdate(w, states, rounds, date, n - 1);
      var last := rounds[n - 1];
      FailureChangesNothing(w, last.a, states[n - 1], states[n], last.r);
      if last.r == Ok(Updated) {
        RulesExactly(w, last.c1, last.c2, date, last.a.today, last.a.now, last.a.openFails, states[n - 1], states[n], last.r);
      }
    }
  }

  /**
   Over every run of a process against origins that follow the rules, exactly when a
   successful round leaves the selected file's blocklist: when nothing was downloaded
   before, or the headers of the file downloaded last do not confirm the selected one, or
   both files build the same blocklist.
   */
  lemma RulesRunExactly(w: World, states: seq<Daemon>, rounds: seq<Round>, date: string -> int, n: nat)
    requires IsRun(w, states, rounds) && Ruled(rounds, date) && states[0].v == NO_VALIDATORS
    requires n < |rounds| && rounds[n].r.Ok?
    ensures FileOf(rounds[n]).Some?
    ensures FromLastUpdate(w, states, rounds, n)
    ensures Faithful(w, rounds[n], states[n + 1]) <==>
            match LastUpdate(rounds, n)
            case None => true
            case Some(j) =>
              || !Confirms(FileOf(rounds[j]).value.v, FileOf(rounds[n]).value, date)
              || BlocklistOf(w, rounds[j]) == BlocklistOf(w, rounds[n])
  {
    PublishedFromLastUpdate(w, states, rounds, date, n);
    var round := rounds[n];
    RulesExactly(w, round.c1, round.c2, date, round.a.today, round.a.now, round.a.openFails, states[n], states[n + 1], round.r);
    FailureChangesNothing(w, round.a, states[n], states[n + 1], round.r);
  }

  /** No file carries a tag, and none that comes later with other bytes is dated no later. */
  ghost predicate DatedInOrder(rounds: seq<Round>, date: string -> int) {
    forall j, k | 0 <= j < k < |rounds| && IsDate(rounds[j].a.today) && IsDate(rounds[k].a.today)
                  && FileOf(rounds[j]).Some? && FileOf(rounds[k]).Some? ::
      var old_, new_ := FileOf(rounds[j]).value, FileOf(rounds[k]).value;
      && old_.v.etag == ""
      && (date(new_.v.lastModified) <= date(old_.v.lastModified) ==> new_.gz == old_.gz)
  }

  /** Dates alone are enough when they are in order. */
  lemma DatedRunIsFaithful(w: World, states: seq<Daemon>, rounds: seq<Round>, date: string -> int, n: nat)
    requires IsRun(w, states, rounds) && Ruled(rounds, date) && states[0].v == NO_VALIDATORS
    requires DatedInOrder(rounds, date) && n < |rounds|
    ensures Faithful(w, rounds[n], states[n + 1])
  {
    if rounds[n].r.Ok? {
      RulesRunExactly(w, states, rounds, date, n);
    }
  }

  /** Every file carries an entity tag, and a tag stands for one content, whatever the month. */
  ghost predicate Tagged(c: Catalogue, content: string -> Option<Bytes>) {
    forall m | m in c :: c[m].v.etag != "" && content(c[m].v.etag) == Some(c[m].gz)
  }

  /** With such tags an origin that follows the rules is honest to a client that remembers a tag or nothing. */
  lemma TagsMakeHonest(c: Catalogue, date: string -> int, content: string -> Option<Bytes>, v: Validators, m: Month)
    requires Tagged(c, content) && (v == NO_VALIDATORS || v.etag != "")
    ensures Honest(ByTheRules(c, date), c, v, m, (x: Validators) => content(x.etag))
  {}

  /** A process that has only ever been served tagged files remembers a tag or nothing. */
  lemma {:induction false} TagsRemembered(w: World, states: seq<Daemon>, rounds: seq<Round>, date: string -> int,
                                          content: string -> Option<Bytes>, n: nat)
    requires IsRun(w, states, rounds) && Ruled(rounds, date) && states[0].v == NO_VALIDATORS && n <= |rounds|
    requires forall k | 0 <= k < |rounds| :: Tagged(rounds[k].c1, content) && Tagged(rounds[k].c2, content)
    ensures states[n].v == NO_VALIDATORS || states[n].v.etag != ""
  {
    PublishedFromLastUpdate(w, states, rounds, date, n);
  }

  /** With tags from the first download on, every successful round is faithful, whatever the dates. */
  lemma TaggedRunIsFaithful(w: World, states: seq<Daemon>, rounds: seq<Round>, date: string -> int,
                            content: string -> Option<Bytes>)
    requires IsRun(w, states, rounds) && Ruled(rounds, date) && states[0].v == NO_VALIDATORS
    requires forall k | 0 <= k < |rounds| :: Tagged(rounds[k].c1, content) && Tagged(rounds[k].c2, content)
    ensures forall k | 0 <= k < |rounds| :: Faithful(w, rounds[k], states[k + 1])
  {
    var name := (x: Validators) => content(x.etag);
    forall k | 0 <= k < |rounds| ensures HonestTo(rounds[k].a, rounds[k].c1, rounds[k].c2, states[k].v, name) {
      TagsRemembered(w, states, rounds, date, content, k);
      TagsMakeHonest(rounds[k].c1, date, content, states[k].v, Month(rounds[k].a.today.year, rounds[k].a.today.month));
      TagsMakeHonest(rounds[k].c2, date, content, states[k].v, MonthBefore(Month(rounds[k].a.today.year, rounds[k].a.today.month)));
    }
    RunIsUnconditional(w, states, rounds, name, |rounds|);
  }

  /**
   Otherwise the rules are not enough.  While the client remembers a stamp and no tag, a
   file of the current month dated no later is not downloaded, whether it carries a tag or
   not: the origin answers 304 to the older month's stamp, and the refresh keeps the older
   blocklist although it reports success.
   */
  lemma DatesAloneMislead(w: World, c: Catalogue, date: string -> int, today: Date, before: Daemon, stamp: string, now: int, openFails: bool)
    requires IsDate(today) && MonthOf(today) in c && c[MonthOf(today)].v.lastModified != ""
    requires stamp != "" && before.v == Validators("", stamp) && WellFormed(before.disk)
    requires date(c[MonthOf(today)].v.lastModified) <= date(stamp)
    ensures var o := ByTheRules(c, date);
      forall after, r :: Refreshed(w, Attempt(o, o, today, now, openFails), before, after, r) ==> r == Ok(Unchanged) && after == before
  {}

  /** A database that lists 1.0.0.0/8 under "XX" when its only byte is 1, does not open when it is 2, and is empty otherwise. */
  const EXAMPLE := World(
    b => Some(b),
    b => if b == [2] then None
         else Some(Loader.Database(
                if b == [1] then [Loader.Row(Some(Loader.IPNet([1, 0, 0, 0], 8)), "XX")] else [], false)),
    ["XX"])

  lemma ExampleBlocklist()
    ensures Built(EXAMPLE, [0]) == Some({})
    ensures Built(EXAMPLE, [1]).Some? && Built(EXAMPLE, [1]) != Some({})
    ensures Built(EXAMPLE, [2]) == None
  {
    var rows := [Loader.Row(Some(Loader.IPNet([1, 0, 0, 0], 8)), "XX")];
    var wanted := set c | c in ["XX"];
    assert "XX" in ["XX"];
    assert rows[..0] == [] && Loader.Selected(rows[..0], wanted) == Ok([]);
    assert "XX" in wanted;
    var p := Loader.PrefixFromIPNet(rows[0].net).value;
    assert [] + [p] == [p];
    assert Loader.Selected(rows, wanted) == Ok([p]);
    OtherPrefixIsKept(p);
    RecordedOne(p);
    assert Masked(p) in Recorded([p]);
    assert Recorded([]) == {};
  }

  const JULY := Month(2026, 7)
  const AUGUST := Month(2026, 8)
  const FIRST_CATALOGUE: Catalogue := map[JULY := Object(Validators("", "jul"), [0])]
  const SECOND_CATALOGUE: Catalogue :=
    map[JULY := Object(Validators("", "jul"), [0]), AUGUST := Object(Validators("", "au"), [1])]
  const BY_LENGTH: string -> int := s => |s|

  const BLANK := Disk(map[], map[], {}, {})

  lemma JulyIsDownloaded(full: Disk)
    requires full == DiskCache.PutFile(BLANK, 0, File([0], 0))
    ensures var o := ByTheRules(FIRST_CATALOGUE, BY_LENGTH);
      Refreshed(EXAMPLE, Attempt(o, o, Date(2026, 7, 2), 0, false), Daemon(None, NO_VALIDATORS, BLANK),
                Daemon(Some({}), Validators("", "jul"), full), Ok(Updated))
  {
    var o := ByTheRules(FIRST_CATALOGUE, BY_LENGTH);
    assert o(Ask(NO_VALIDATORS, JULY)) == Response(200, Validators("", "jul"), [0]);
    DiskCache.PutReplaces(BLANK, 0, File([0], 0));
    ExampleBlocklist();
  }

  lemma AugustIsNotDownloaded(d: Daemon)
    requires WellFormed(d.disk) && d.v == Validators("", "jul")
    ensures var o := ByTheRules(SECOND_CATALOGUE, BY_LENGTH);
      Refreshed(EXAMPLE, Attempt(o, o, Date(2026, 8, 1), 0, false), d, d, Ok(Unchanged))
    ensures Unconditional(EXAMPLE, SECOND_CATALOGUE, SECOND_CATALOGUE, Date(2026, 8, 1)) == Built(EXAMPLE, [1])
  {
    var o := ByTheRules(SECOND_CATALOGUE, BY_LENGTH);
    assert o(Ask(d.v, AUGUST)).status == 304;
  }

  /**
   A concrete run: July's download, then August's file dated before it.  Both refreshes
   report success, and the second leaves July's blocklist in force.
   */
  lemma DatesAloneExample()
    returns (states: seq<Daemon>, rounds: seq<Round>)
    ensures IsRun(EXAMPLE, states, rounds) && |rounds| == 2 && states[0].v == NO_VALIDATORS
    ensures Ruled(rounds, BY_LENGTH) && forall k | 0 <= k < 2 :: rounds[k].c1 == rounds[k].c2
    ensures rounds[0].r == Ok(Updated) && rounds[1].r == Ok(Unchanged)
    ensures states[2].blocklist != Unconditional(EXAMPLE, rounds[1].c1, rounds[1].c2, rounds[1].a.today)
  {
    var o0, o1 := ByTheRules(FIRST_CATALOGUE, BY_LENGTH), ByTheRules(SECOND_CATALOGUE, BY_LENGTH);
    var full := DiskCache.PutFile(BLANK, 0, File([0], 0));
    var d1 := Daemon(Some({}), Validators("", "jul"), full);
    states := [Daemon(None, NO_VALIDATORS, BLANK), d1, d1];
    rounds := [Round(Attempt(o0, o0, Date(2026, 7, 2), 0, false), FIRST_CATALOGUE, FIRST_CATALOGUE, Ok(Updated)),
               Round(Attempt(o1, o1, Date(2026, 8, 1), 0, false), SECOND_CATALOGUE, SECOND_CATALOGUE, Ok(Unchanged))];
    JulyIsDownloaded(full);
    AugustIsNotDownloaded(d1);
    ExampleBlocklist();
  }
}
