# BitBlocker: a verified model

BitBlocker is a forwardAuth daemon: it downloads an IP-to-country database, builds a CIDR
trie of the blocked countries, and answers `/check` from the published trie. This project
models its five working parts and proves properties of them that span functions, threads,
refreshes and restarts.

| part | modules | what is proved |
|---|---|---|
| blocklist trie and loader | `Bits`, `Netip`, `Octets`, `Canonical`, `Trie`, `Loader` | the in-place heap trie decides exactly what the inserted prefixes hold, by the bytes of networks and client; its nodes are two unshared trees; `Len` counts distinct prefixes; a load is independent of traversal order and all-or-nothing |
| readiness tracker | `Readiness`, `ReadinessSteps`, `ReadinessHistory`, `ReadinessTheorems`, `ReadinessOnce`, `ReadinessCounters`, `ReadinessWindows`, `ReadinessSolo` | the tracker writes exactly what the history of events calls for; over all interleavings of single atomic operations: alternation, flag and timestamp agreement, exactly when the latch is set, exactly when a change is announced exactly once, the exact bound on lines caused by stale observers, conservation of the counters, the exact window of every recovery line; the methods of the class are these operations run without interference |
| fetcher and disk cache | `Calendar`, `FileSystem`, `DiskCache`, `Publication`, `Fetcher`, `FetcherTheorems`, `Lives`, `Histories` | conditional refreshes give what unconditional ones would, exactly when the validators allow it; a write survives every failure and crash, and a temporary file stays exactly when its removal failed; over every history of boots under changing configurations, refreshes, kills and losses of power: the cache holds the last successful write, exactly what a loss of power can leave, when the cached file builds what is served, and a boot publishes a download no older than the limit |
| cold start | `Scheduler` | the wrapping shift, exactly when it equals the documented backoff; the refreshes and sleeps of the retry budget and how they decide its ending |
| request path | `ClientIp`, `Server`, `Snapshots` | the header scan; one snapshot per reply in every interleaving |
| all together | `EndToEnd` | one process from its start-up on, warm or cold: a /check is blocked iff the network holding the client in the database in force has a blocked country |

How the parts are represented:

- A trie is a graph of heap nodes with child pointers. The ghost map `nodes` names the node
  at every bit path and `entries` is the abstract value, a set of canonical prefixes; the
  methods keep both in step with the pointers. `Canonical` says what such a set means, with
  integer division by powers of two and without tries; `Octets` says when a network of some
  bytes holds an address of some bytes, without `Unmap`, masks or division, and the results
  about blocking are stated on that.
- The readiness tracker appears twice. `Readiness.ReadinessTracker` is the object with its
  methods, specified by functions on its fields. `ReadinessSteps` takes the same calls
  apart: one atomic load, store, add or swap, one mutex operation or one log line per step,
  any number of threads, and the publication of blocklists as steps of its own. Reading the
  lookup is a separate step before `observe`. `ReadinessSolo` proves that a thread running
  alone adds up to the whole call.
- A file system has what programs see and what the platter is sure to hold. Directory
  changes may or may not survive a crash, name by name; content survives once synced.
  Every operation may fail. The ghost `history` records every call with its outcome and
  the state it left, so a statement about all of it is a statement about every crash point
  and every reader, and what a method says of the record binds it to the calls it made.
  Likewise the fetcher records its refreshes and the injected sleeper its delays.
- The origin is a function from requests to responses, which may differ between the two
  requests of one refresh. Decompression and the database reader are arbitrary partial
  functions on bytes; address parsing is an arbitrary partial function on text.
- Clocks are parameters. The readings the tracker stores are positive, that is after 1970.

Where the code and its documentation disagree, the model follows the code:

- `internal/server/readiness.go:59-61` says a transition is emitted exactly once. That
  holds when reading the blocklist and observing it are one step (`ExactlyOncePerChange`).
  In the code they are two steps, and the line and the store of the flag are two more. The
  exact condition is `OnceIffNoHarm`: a change to q is announced by exactly the line due,
  in every continuation in which an observer of q reports, if and only if no thread that
  saw the opposite is on its way to a line or between its line and its store of the flag.
  It fails in both directions: a thread about to store the flag can leave a change without
  any line (`NoLineAtAll`), and one stale reader can cause three (`BoundIsReached`). With n
  stale readers at most 2n + 1 lines ever follow a change (`StaleObserverBound`).
- The repository's README.md:114-118 and the heartbeat's cause text read `ever_ready: false`
  as "no fetch has succeeded". The flag is set if and only if some observer got past the
  latch with a usable blocklist in hand (`LatchFromStart`); after a successful fetch that
  matched no network, published and observed, it is still false (`EmptyFetchLeavesLatch`,
  `LatchNeedsUsableBlocklist`).
- `internal/scheduler/scheduler.go:203-206` gives the backoff as the doubled delay, capped.
  The shift can also wrap to a small positive delay (`BackoffWraps`); `BackoffExactly` is
  the exact condition and `OddPartBound` one on the policy alone, which the defaults meet.
- `internal/fetcher/fetcher.go:178-182` sends the remembered validators for whichever month
  it asks, and `internal/fetcher/fetcher.go:53-55` takes a 304 to mean that the published
  blocklist is current. For origins that follow RFC 9110 that is so, in any run, if and
  only if the headers of the file downloaded last do not confirm the selected file or both
  build the same blocklist (`RulesExactly`, `RulesRunExactly`). Entity tags on every file
  from the first download on are enough (`TaggedRunIsFaithful`), and so are dates alone
  when no later file with other bytes is dated no later (`DatedRunIsFaithful`). A stamp
  remembered without a tag confirms any file dated no later, tagged or not
  (`DatesAloneMislead`, `DatesAloneExample`).
- `internal/scheduler/scheduler.go:25-28` takes a refresh without error to mean that the
  source is current. A cold start can succeed with nothing published (`EmptySuccess`):
  exactly when nothing was published at its beginning and the origin answers 304 to the
  validators remembered then (`SuccessPublishes`); an honest origin never does
  (`HonestSuccessPublishes`).
- `internal/server/clientip.go:21` speaks of the rightmost entry of X-Forwarded-For; the code
  takes the rightmost entry that parses (`LastIsLast`, `ForgedPrefixIsIgnored`).
- `internal/diskcache/cache.go:61-68` removes the temporary file after a failure, but
  ignores a failing removal; then, and only then, the file stays (`Write`, `TempFileStays`).
- `internal/diskcache/cache.go:34-35` says a crash leaves the prior cache or none. The
  directory itself is not synced, so a loss of power can leave whatever the path held when
  the machine came up, any change since and, after the rename, the new file, always whole;
  that is exactly what it can leave (`PowerLossLeaves`), as when the first of two written
  files comes back (`FirstFileComesBack`). The claim holds in the middle of a write exactly
  when every state of the path since the machine came up was the latest one or none and,
  after the rename, the new file equals the old (`PriorOrNone`).
- `internal/fetcher/fetcher.go:136-138` says a failed refresh leaves the active blocklist. It
  does, but a download that could not be loaded has already replaced the cache file. If its
  bytes do not load, the next process publishes nothing (`FailedLoadLosesCache`); if only
  opening it failed, the next process publishes it in place of what was served
  (`FailedOpenChangesService`). The cached file builds what is served if and only if the
  file written last was loaded or builds the same (`CacheMatchesService`).

## Model

| member | source | states |
|---|---|---|
| Bits.AgreeIffTop | internal/blocklist/trie.go:124-128 | two words agree on their first n bits exactly when they are equal after division by 2^(w-n) |
| Netip.BitAtIsBit | internal/blocklist/trie.go:115-128 | reading bit i of the big-endian byte form is reading bit i of the 32- or 128-bit address |
| Netip.BytesRoundTrip | internal/mmdb/loader.go:114-126 | the 4- or 16-byte form of an address gives the address back |
| Octets.FromBytesRoundTrip | internal/mmdb/loader.go:112-122 | 4 or 16 bytes are the byte form of the address formed from them |
| Octets.UnmapBytes | internal/blocklist/trie.go:86 | an address is mapped iff its bytes begin with ten zeros and two 255s, and then unmapping gives the IPv4 address of its last four bytes; any other address stays |
| Canonical.MappedPrefixIsDropped | internal/blocklist/trie.go:44-63 | an IPv4-mapped prefix of 96 bits or more is never recorded |
| Canonical.OtherPrefixIsKept | internal/blocklist/trie.go:44-63 | every other valid prefix is recorded in the family it was given in, with its masked address |
| Canonical.MaskedBits | internal/blocklist/trie.go:44 | masking keeps the first bits of the byte form and clears the others |
| Canonical.FourByteTree | internal/blocklist/trie.go:48-61 | the v4 records are exactly the masked valid prefixes that were given in 4-byte form |
| Canonical.BlockedAddresses | internal/blocklist/trie.go:40-113 | after any insertions an address is blocked iff the network of some given valid prefix holds it: a 4-byte network 4-byte clients and the last four bytes of mapped ones, a 16-byte network 16-byte clients that are not mapped, by equal first bits |
| Canonical.OrderAndRepetition | internal/blocklist/trie.go:31-39 | permuting or repeating the insertions changes neither records nor verdicts |
| Canonical.SlotInjective | internal/blocklist/trie.go:65-72 | distinct records sit at distinct places of the trees |
| Canonical.CoverIsOnPath | internal/blocklist/trie.go:99-112 | a set of records covers an address iff it marks a place on the address's bit path |
| Trie.Trie.constructor | internal/blocklist/trie.go:26-29 | a new trie is valid, empty and made of new nodes |
| Trie.Trie.Len | internal/blocklist/trie.go:31-35 | the count is the number of distinct records |
| Trie.Trie.Insert | internal/blocklist/trie.go:37-77 | the records grow by exactly the canonical form of the prefix, existing nodes keep their places, every added node is new |
| Trie.Trie.Reach | internal/blocklist/trie.go:65-72 | the descending loop ends at the node the path spells, keeping tree shape and terminal marks |
| Trie.Trie.Grow | internal/blocklist/trie.go:69-70 | hanging one new node below another keeps two unshared trees linked as the places say |
| Trie.Trie.Record | internal/blocklist/trie.go:73-76 | marking counts a record once |
| Trie.Trie.Contains | internal/blocklist/trie.go:79-113 | true iff the network of some record holds the address, by the bytes of both |
| Trie.Trie.Search | internal/blocklist/trie.go:99-112 | the walk with its two early exits finds a mark on the path iff there is one |
| Trie.Trie.TwoDisjointTrees | internal/blocklist/trie.go:15-24 | following child pointers along two different paths never meets in a node, paths are no longer than the family's width, and the terminal nodes reached are exactly the records |
| Loader.LoadCountryBlocklist | internal/mmdb/loader.go:47-97 | a load gives a new valid trie of exactly the selected prefixes, or the error that ended it and no trie |
| Loader.Traverse | internal/mmdb/loader.go:71-91 | the loop inserts the selected prefixes in order and stops at the first undecodable or unrepresentable row |
| Loader.SelectedIsMatching | internal/mmdb/loader.go:72-91 | the traversal succeeds iff every row decodes and every wanted one has 4 or 16 address bytes, and inserts the prefixes of exactly the wanted rows' bytes and mask lengths |
| Loader.PrefixOfNet | internal/mmdb/loader.go:107-126 | a network of 4 or 16 bytes becomes the prefix of exactly those bytes and that mask length, invalid if too long; any other has none |
| Loader.FirstBadRow | internal/mmdb/loader.go:72-89 | the first row the traversal does not get past decides the error |
| Loader.LoadPublishesIff | internal/mmdb/loader.go:47-97 | a load publishes iff there are countries, the file opens, no row stops the traversal and it meets no error, and then the records of exactly the wanted networks |
| Loader.LoadReports | internal/mmdb/loader.go:48-95 | which loads report missing countries, a failed open and a failed traversal |
| Loader.TraversalOrder | internal/mmdb/loader.go:71-97 | order and repetition of the rows change neither success nor the blocklist |
| Loader.BlockedIffWanted | internal/mmdb/loader.go:35-46 | with disjoint networks an address is blocked iff the network whose first bits it shares has a wanted country |
| Loader.UnheldIsNotBlocked | internal/mmdb/loader.go:35-46 | an address whose bits no network shares is never blocked |
| Loader.LenCountsMatching | internal/mmdb/loader.go:62-91 | with disjoint networks the number of records is the number of matching rows |
| Readiness.ReadinessTracker.constructor | internal/server/readiness.go:95-99 | a tracker starts usable with all counters zero |
| Readiness.ReadinessTracker.Observe | internal/server/readiness.go:126-151 | the new fields and log are those of one observation; the result is the predicate of the lookup alone |
| Readiness.ReadinessTracker.Beat | internal/server/readiness.go:196-223 | a heartbeat observes first, then reports and resets the since-heartbeat counter while unusable |
| Readiness.ExactlyOncePerChange | internal/server/readiness.go:46-61 | when reading and observing are one step, the transition lines are exactly the changes of the observed predicate, in order |
| ReadinessHistory.TrackerTellsHistory | internal/server/readiness.go:62-91 | over every sequence of uninterrupted calls the log and all fields are what the history of events calls for: the lines, the allows since the opening in a recovery, those since the last heartbeat or opening in a heartbeat, the opening time, the latch |
| Readiness.AlternatesByIndex | internal/server/readiness.go:46-49 | line k of an alternating log is "recovered" iff k is odd |
| ReadinessSteps.StepShape | internal/server/readiness.go:126-151 | a step changes its own thread only and takes or frees the mutex exactly at lock and unlock |
| ReadinessSteps.KeepsInv | internal/server/readiness.go:126-187 | every atomic step of every thread keeps mutual exclusion, the latch, alternation and the agreement of flag, timestamp and log |
| ReadinessSteps.RunKeepsInv | internal/server/readiness.go:58-81 | the same over every run, and `everReady` is never reset |
| ReadinessTheorems.EveryInterleaving | internal/server/readiness.go:126-187 | in every interleaving the lines alternate starting with "unusable"; with the mutex free the flag is the last line's direction and the timestamp is set iff it is false; a recovery line implies `everReady` |
| ReadinessTheorems.LatchNeedsUsableBlocklist | internal/server/readiness.go:71-74 | while only unusable blocklists are published `everReady` stays false, there is no recovery line and at most one transition |
| ReadinessTheorems.LatchFromStart | internal/server/readiness.go:71-74 | in every state of every run `everReady` is set iff some observer has got past the latch with a usable lookup |
| ReadinessOnce.EmptyFetchLeavesLatch | internal/server/readiness.go:71-74 | a run that publishes an empty blocklist and observes it, with `everReady` still false |
| ReadinessTheorems.BudgetPaysForLines | internal/server/readiness.go:135-150 | every transition line uses up stale observers or settles the announced direction |
| ReadinessTheorems.StaleObserverBound | internal/server/server.go:224-227 | once the predicate has settled at most two lines per stale observer and one more are ever written |
| ReadinessOnce.OnceIffNoHarm | internal/server/readiness.go:59-61 | from every reachable state a change to q is announced by exactly the due line in all settled continuations in which an observer of q reports, iff no thread that saw the opposite can still write a line or store the flag of one |
| ReadinessOnce.HarmDone | internal/server/readiness.go:126-151 | from every state with such a thread there is a continuation in which an observer reports q and the number of lines is wrong |
| ReadinessOnce.HarmlessRun | internal/server/readiness.go:126-151 | without such a thread lines written and lines due keep their sum over every settled run, and who is past the flag with q in hand was told q |
| ReadinessOnce.SomeoneReports | internal/server/readiness.go:126-151 | from every reachable state some continuation has an observer report the published predicate |
| ReadinessOnce.NoLineAtAll | internal/server/readiness.go:126-172 | a run from start-up in which a health probe reads a usable blocklist and finishes while the last line says unusable, no stale reader being left |
| ReadinessCounters.KeepsConserved | internal/server/readiness.go:158-161 | every step keeps total = reported since-last counts + current counter + discarded + in hand |
| ReadinessCounters.KeepsWindows | internal/server/readiness.go:158-187 | every step keeps the reported windows in order and the snapshots below the total |
| ReadinessCounters.CountersInEveryInterleaving | internal/server/readiness.go:82-91 | in every interleaving allows are conserved, the recovery difference never underflows, no allow is in two windows, and the windows sum to at most the total |
| ReadinessWindows.WindowIsExact | internal/server/readiness.go:158-187 | in every interleaving a recovery line reports exactly the allows counted between the opener's read of the total, made before the last "unusable" line, and the closer's read after it |
| ReadinessWindows.TotalCountsAdds | internal/server/readiness.go:229-232 | over any stretch of a run the total grows by the number of counted allows |
| ReadinessSolo.ObserveAlone | internal/server/readiness.go:126-151 | without interference the atomic operations of `observe` add up to the whole call |
| ReadinessSolo.BeatAlone | internal/server/readiness.go:196-223 | without interference a heartbeat's operations add up to the whole call |
| ReadinessSolo.CheckAlone | internal/server/server.go:226-241 | without interference a /check observes and then counts iff it is let through fail-open |
| ReadinessSolo.BoundIsReached | internal/server/server.go:224-227 | for every n there is a run with n stale observers in which one change is followed by 2n + 1 lines |
| DiskCache.Write | internal/diskcache/cache.go:41-80 | it makes the calls of one write in order up to the rename or the first failure, then those of the clean-up, and no others; success shows the whole new file and leaves no name but the cache path's; it fails iff one of its calls failed, and then shows to readers and after any crash exactly what it showed; every state passed through is one or the other; a temporary file stays iff the call to remove it was made and failed |
| DiskCache.FillAndRename | internal/diskcache/cache.go:61-80 | from the temporary file to the renamed cache with no other new name, or to the clean-up, with the calls in order and the outcome read off them |
| DiskCache.Fill | internal/diskcache/cache.go:70-77 | copy, sync and close leave the cache path alone and end with the synced body |
| DiskCache.Copy | internal/diskcache/cache.go:70-72 | the piecewise copy ends with the body or a failure, touching only the temporary file |
| DiskCache.Discard | internal/diskcache/cache.go:61-68 | the clean-up closes and removes, on the record; the directory is restored unless that removal failed, and the cache path shows what it showed |
| DiskCache.RenameProtects | internal/diskcache/cache.go:76-78 | after the rename a crash can leave the new file or exactly what it could leave before |
| DiskCache.TempFileStays | internal/diskcache/cache.go:64-68 | a possible run of a failed write after which the temporary file is still there |
| DiskCache.CrashAtAnyPoint | internal/diskcache/cache.go:30-35 | from a settled cache path a crash at any point of a write leaves exactly the previous contents or exactly the new file |
| Calendar.DateRoundTrip | internal/fetcher/fetcher.go:184-186 | every proleptic Gregorian date is recovered from its day number |
| Calendar.BackByDayOfMonth | internal/fetcher/fetcher.go:184-186 | going back by the day of the month lands on the last day of the month before, year ends and leap years included |
| Fetcher.Fetcher.Fetch | internal/fetcher/fetcher.go:183-204 | the current month's answer, or on 404 the prior month's |
| FetcherTheorems.FetchFailsIff | internal/fetcher/fetcher.go:183-249 | the fetch fails iff the answering request, the second exactly after a 404, met a network error, a corrupt body or a status other than 200 and 304; otherwise it brings that answer's body and headers or its 304 |
| Fetcher.Fetcher.Refresh | internal/fetcher/fetcher.go:139-171 | the new source, validators and disk are those the outcome allows; a downloaded file gets the calls of one write and nothing else any call, and the write is reported failed iff one of them failed; the load fails on the bytes or on a failure of the moment to open the file; a failed write leaves what the cache path shows, also after a crash; only an update replaces the trie, by a new one; the old trie and its nodes are unchanged; every disk state in between is protected |
| FetcherTheorems.ConditionalIsUnconditional | internal/fetcher/fetcher.go:139-249 | with an honest origin a successful refresh leaves the blocklist of an unconditional download of the selected month's current file, and the validators name its bytes |
| FetcherTheorems.RunIsUnconditional | internal/fetcher/fetcher.go:58-75 | the same for every successful refresh of every run of a process |
| FetcherTheorems.FailureChangesNothing | internal/fetcher/fetcher.go:136-155 | an error leaves blocklist and validators as they were, a 304 leaves also the disk |
| FetcherTheorems.StaysPublished | internal/fetcher/fetcher.go:136-170 | over a run the source never returns to nil, and usable becomes unusable only through a successful load that matched nothing |
| FetcherTheorems.RulesExactly | internal/fetcher/fetcher.go:183-249 | against origins that follow RFC 9110 a refresh without error downloads iff the validators do not confirm the selected file, and leaves that file's blocklist iff it downloaded or that was published |
| FetcherTheorems.RulesSucceed | internal/fetcher/fetcher.go:139-171 | against origins that follow RFC 9110 a refresh succeeds iff a file is selected and the validators confirm it, or it decompresses and loads, opening works and no call of the write failed |
| FetcherTheorems.RulesRunExactly | internal/fetcher/fetcher.go:139-249 | over every run from process start: a round is faithful iff nothing was downloaded before, or the last downloaded file's headers do not confirm the selected file, or both build the same blocklist |
| FetcherTheorems.DatedRunIsFaithful | internal/fetcher/fetcher.go:219-221 | with dates only, every round is faithful when no later file with other bytes is dated no later |
| FetcherTheorems.TagsMakeHonest | internal/fetcher/fetcher.go:216-221 | an origin following RFC 9110 whose files carry content-naming entity tags is honest to a client that remembers a tag or nothing |
| FetcherTheorems.TaggedRunIsFaithful | internal/fetcher/fetcher.go:216-221 | with content-naming tags on every file since process start every successful round is faithful |
| FetcherTheorems.DatesAloneMislead | internal/fetcher/fetcher.go:219-221 | while a stamp and no tag is remembered a file dated no later is never downloaded, tagged or not, and the refresh reports success |
| FetcherTheorems.DatesAloneExample | internal/fetcher/fetcher.go:219-221 | a concrete two-refresh run from an empty disk that ends with the wrong month's blocklist |
| Lives.Load | internal/diskcache/cache.go:99-120 | a new trie of what the file builds iff it can be seen and opened, is no older than the limit by the difference of the clocks and loads; absent and stale exactly when nothing is there and when it is older |
| Lives.LoadOutcomes | internal/diskcache/cache.go:109-111 | the saturating age against the limit is the plain difference against it, except that nothing is too old for the greatest duration |
| Lives.LoadDiskCache | cmd/bitblocker/main.go:190-221 | start-up publishes what a serviceable file builds and otherwise nothing; it makes no call that changes the disk unless it cannot see or cannot use what is there, and then exactly one, the removal, so that the file is gone unless that call failed |
| Lives.KeepsCached | internal/diskcache/cache.go:26-40 | boots, refreshes, stops, kills and losses of power, each at any instant, keep the cache path at its last change and its crash views equal to the changes since the machine came up |
| Lives.CacheIsLastWrite | internal/diskcache/cache.go:26-40 | over every history from an empty disk the path holds exactly the last successful write, or nothing after a removal; a failed write never shows |
| Lives.PowerLossLeaves | internal/diskcache/cache.go:30-35 | a loss of power can leave v iff v is what the machine came up with, a change since, or, in the middle of a write after the rename, the new file |
| Lives.PriorOrNone | internal/diskcache/cache.go:34-35 | in the middle of a write a crash leaves the prior cache or none iff every state of the path since the machine came up was the latest or none and, after the rename, the new file equals the old |
| Histories.FirstFileComesBack | internal/diskcache/cache.go:34-35 | a history of two successful writes and a loss of power that ends with the first file in the cache |
| Lives.EverythingWasDownloaded | internal/fetcher/fetcher.go:157-161 | every file the path can hold was downloaded by an earlier refresh, at the time it bears |
| Lives.BootPublishesDownload | cmd/bitblocker/main.go:190-208 | every boot in every history, whatever its configuration, publishes iff the last change is a file it can read and open, loadable and with now minus its time within the limit, and then what it builds, downloaded earlier at that time |
| Lives.CacheMatchesService | internal/fetcher/fetcher.go:157-170 | while a daemon serves a blocklist the cached file builds it iff the file written last was loaded or builds the same as the served one; it was loaded iff opening it worked and its bytes load |
| Lives.RestartRepublishes | cmd/bitblocker/main.go:190-208 | a stopped daemon's successor with the same configuration publishes nothing if the cached file is unusable, the same blocklist if the file written last was loaded, and otherwise what that file builds |
| Lives.FailedLoadThenBoot | internal/fetcher/fetcher.go:157-164 | after a download that was written but not loaded the old blocklist stays in force; the next boot publishes the new file if that is serviceable, which under the same configuration means only opening it had failed, and nothing otherwise |
| Histories.FailedOpenChangesService | internal/mmdb/loader.go:57-60 | a history in which opening the second file fails once, the first stays in force, and the next process publishes the second |
| Histories.FailedLoadLosesCache | internal/fetcher/fetcher.go:157-164 | a history in which the second file does not load, the first stays in force, and the next process publishes nothing |
| Scheduler.WithDefaults | internal/scheduler/scheduler.go:42-53 | each positive field is kept whatever the others are, and any other becomes 8 attempts, 2 seconds and 300 seconds |
| Scheduler.BackoffInRange | internal/scheduler/scheduler.go:203-216 | the delay is positive and at most the cap |
| Scheduler.BackoffExactly | internal/scheduler/scheduler.go:203-216 | exactly when the returned delay is the doubled base capped at the maximum |
| Scheduler.BackoffWraps | internal/scheduler/scheduler.go:207-216 | a concrete policy for which the shift wraps to two seconds under a five-minute cap |
| Scheduler.OddPartBound | internal/scheduler/scheduler.go:207-216 | below attempt 62 the documented delay is returned whenever the base's odd part times the cap is below 2^63 |
| Scheduler.DefaultsAreExact | internal/scheduler/scheduler.go:19-23 | the default policy meets that bound |
| Scheduler.Scheduler.Ready | cmd/bitblocker/main.go:117 | ready iff a trie with prefixes is published |
| Scheduler.Scheduler.RunColdStart | internal/scheduler/scheduler.go:164-194 | the refreshes and sleeps it records are a cold start: chained refreshes on their turns, each but the last in vain and slept after with its backoff; at most the budget; it ends with success iff the last succeeded, on the cache iff it failed with a usable blocklist, exhausted iff it was the budget's last and in vain, and otherwise only by a cancellation |
| Scheduler.ColdStartOutcome | internal/scheduler/scheduler.go:160-194 | with a usable blocklist at most one refresh and no sleep; the cache serves only if it was usable before; only success changes blocklist and validators; never more sleeps than the budget less one |
| Scheduler.SuccessPublishes | internal/scheduler/scheduler.go:170-173 | success leaves nothing published iff nothing was published at the start and the origin answers the last turn's requests with a 304 to the validators remembered at the start |
| Scheduler.EmptySuccess | internal/scheduler/scheduler.go:170-173 | for every policy and disk a cold start of one refresh, against an origin that always answers 304, that succeeds with nothing published |
| Scheduler.HonestSuccessPublishes | internal/scheduler/scheduler.go:170-173 | with an honest origin a first cold start that succeeds downloaded the selected file and publishes its blocklist |
| Scheduler.TotalWithinBudget | internal/scheduler/scheduler.go:13-23 | the sleeps sum to at most their number times the cap |
| Scheduler.DefaultBudget | internal/scheduler/scheduler.go:19-23 | an exhausted default budget sleeps the doubling sequence, 254 seconds in all |
| ClientIp.JoinOfSplit | internal/server/clientip.go:52 | splitting at commas loses nothing and leaves no comma in an entry |
| ClientIp.TrimSpaceTrims | internal/server/clientip.go:54 | the trimmed entry is the one part with only white space around it that neither begins nor ends with white space |
| ClientIp.SplitOfConcat | internal/server/clientip.go:52 | splitting a comma-joined text is concatenating the splits |
| ClientIp.RightmostXFF | internal/server/clientip.go:47-64 | the result is what the rightmost readable entry stands for: trimmed, not empty, parsed and, if mapped, its last four bytes; none iff no entry is readable |
| ClientIp.LastIsLast | internal/server/clientip.go:47-64 | the scan finds an entry that reads so after which none is readable, and nothing only if none is |
| ClientIp.ForgedPrefixIsIgnored | internal/server/clientip.go:24-27 | text prepended before a comma matters only when nothing after it parses |
| ClientIp.ExtractClientIP | internal/server/clientip.go:31-45 | what X-Real-IP stands for when it is readable, else the rightmost readable entry of X-Forwarded-For |
| ClientIp.ClientFacts | internal/server/clientip.go:17-45 | the client is found so, the empty-header shortcut changing nothing; prepended text never changes a found client; the client is never a mapped address |
| Server.Server.HandleCheck | internal/server/server.go:216-269 | the status is the decision on the one trie read, whatever the tracker's state; the tracker changes by one observation and, fail-open, one count |
| Server.DecisionFacts | internal/server/server.go:222-269 | the startup mode decides alone without a usable blocklist and not at all with one; then a client without an address is blocked, one with an address is let through with 200 iff no record's network holds it; more records block no fewer |
| Server.Server.HandleHealthz | internal/server/server.go:309-340 | 200 with the count iff the trie read is usable, 503 otherwise, under both modes |
| Snapshots.FinishedIsFrozen | internal/blocklist/source.go:9-13 | no step changes a trie once published: the load in progress writes only to the trie it created, and gives it up when it publishes |
| Snapshots.TimelineIsHistory | internal/blocklist/source.go:25-40 | a trie current at some instant has the same contents at every later one |
| Snapshots.RepliesAreSnapshots | internal/server/server.go:222-269 | in every interleaving a reply is the decision on one trie that was current at an instant of the request |
| EndToEnd.DecisionByCountry | internal/server/server.go:216-269 | with disjoint networks and one to block, a client held by one gets the block status or 200 as its country says, one held by none 200, one without an address the block status; with nothing to block the startup mode answers |
| EndToEnd.PublishedAfter | internal/fetcher/fetcher.go:139-171 | after any number of steps of a process the daemon's blocklist is that of the last successful refresh's selected file, or before any of the serviceable cache file |
| EndToEnd.SourceIsDaemon | internal/blocklist/source.go:25-40 | at every instant of every interleaving the published trie holds the daemon's blocklist |
| EndToEnd.CheckFollowsDatabase | internal/server/server.go:216-269 | in every interleaving of a process, warm or cold started, a finished /check decided as the database in force at some instant of the request demands |
| EndToEnd.ProbeFollowsDatabase | internal/server/server.go:309-340 | in every interleaving a finished /healthz reported 200 with the number of wanted networks of the database in force at some instant of the request, or 503 without any |
| EndToEnd.WarmStart | cmd/bitblocker/main.go:190-208 | from every serviceable cache file there is such a process that starts with its blocklist published and answers a /check |

## Left out

- HTTP transport, TLS, method checks, server shutdown, signals and goroutine start-up are I/O plumbing.
- The MMDB format, gzip and CRC: the database is a sequence of rows and decompression a partial function.
- Address parsing and IPv6 zones: parsing is a partial function of the text.
- Cron expressions and tick timing; a scheduled refresh is one more `Refresh`, and overlapping ones are excluded by the fetcher's mutex, so refreshes are modelled one after another.
- Configuration validation, log handlers, redaction and the text of messages.
- Rounded durations in log lines and in the health body; the timestamp behind them is modelled.
- Unsigned wrap-around of the allow counters: they are natural numbers, so the statements hold for fewer than 2^64 requests.
- A trie built as a zero value instead of by its constructor, whose roots are nil; no code of the repository does that.
- A cache path that itself matches the temporary-file pattern; the model keeps the two kinds of names apart.
- Creation of the cache directory itself: `MkdirAll` can fail but is otherwise without effect on the files.
- The clock is read once per cache write and once per observation; time passing between two reads of one call is not modelled.
- Lives.Load: a file that disappears or changes between the status call and the open is not modelled, as only this process writes it.
- Snapshots.RepliesAreSnapshots: the tracker is not part of that state machine; that `observe` returns the predicate of the lookup it was given, whatever the tracker holds, is the contract of `Readiness.ReadinessTracker.Observe`.
- EndToEnd.CheckFollowsDatabase: the insertions of a load in progress are steps of their own with free prefixes; that the trie it publishes holds what the refresh selected is required at the publication, where `Fetcher.Fetcher.Refresh` ensures it.
- FetcherTheorems.DatedRunIsFaithful: the order of dates is sufficient; the exact condition, round by round, is `RulesRunExactly`.
- Temporary files left by a kill or a loss of power in the middle of a write; nothing in the repository removes them, and the statements about leaks are for writes that return.
