/**
 The cold-start retry budget: the exponential backoff in 64-bit arithmetic and the loop
 around the fetcher.
 */
module Scheduler {
  import opened Bits
  import opened Wrappers
  import opened Calendar
  import opened Fetcher
  import FetcherTheorems
  import FileSystem

  const TWO_63 := 0x8000_0000_0000_0000
  const TWO_64 := 0x1_0000_0000_0000_0000

  type Int64 = x: int | -0x8000_0000_0000_0000 <= x < 0x8000_0000_0000_0000

  /** Two's-complement truncation to 64 bits. */
  function Wrap64(x: int): Int64 {
    (x + TWO_63) % TWO_64 - TWO_63
  }

  /** The budget; durations are in nanoseconds. */
  datatype RetryPolicy = RetryPolicy(maxAttempts: Int64, baseDelay: Int64, maxDelay: Int64)

  const SECOND: int := 1_000_000_000
  const DEFAULTS := RetryPolicy(8, 2 * SECOND, 300 * SECOND)

  function WithDefaults(p: RetryPolicy): (q: RetryPolicy)
    ensures q.maxAttempts > 0 && q.baseDelay > 0 && q.maxDelay > 0
    ensures p.maxAttempts > 0 ==> q.maxAttempts == p.maxAttempts
    ensures p.maxAttempts <= 0 ==> q.maxAttempts == 8
    ensures p.baseDelay > 0 ==> q.baseDelay == p.baseDelay
    ensures p.baseDelay <= 0 ==> q.baseDelay == 2_000_000_000
    ensures p.maxDelay > 0 ==> q.maxDelay == p.maxDelay
    ensures p.maxDelay <= 0 ==> q.maxDelay == 300_000_000_000
  {
    RetryPolicy(
      if p.maxAttempts <= 0 then DEFAULTS.maxAttempts else p.maxAttempts,
      if p.baseDelay <= 0 then DEFAULTS.baseDelay else p.baseDelay,
      if p.maxDelay <= 0 then DEFAULTS.maxDelay else p.maxDelay)
  }

  /** `backoff`: a wrapping left shift, guarded on both sides. */
  function Backoff(p: RetryPolicy, attempt: nat): Int64 {
    if attempt >= 62 then p.maxDelay
    else
      var d := Wrap64(p.baseDelay * Pow2(attempt));
      if d <= 0 || d > p.maxDelay then p.maxDelay else d
  }

  /** The documented value: the doubled delay, capped. */
  function CappedDoubling(p: RetryPolicy, attempt: nat): int {
    var d := p.baseDelay * Pow2(attempt);
    if d > p.maxDelay then p.maxDelay else d
  }

  predicate Positive(p: RetryPolicy) {
    p.baseDelay > 0 && p.maxDelay > 0
  }

  lemma WrapFacts(x: int)
    ensures 0 <= x < TWO_63 ==> Wrap64(x) == x
    ensures exists q :: x == Wrap64(x) + TWO_64 * q
  {
    var q := (x + TWO_63) / TWO_64;
    assert x == Wrap64(x) + TWO_64 * q;
  }

  /** The delay is always usable: positive and within the cap. */
  lemma BackoffInRange(p: RetryPolicy, attempt: nat)
    requires Positive(p)
    ensures 0 < Backoff(p, attempt) <= p.maxDelay
  {}

  /**
   When the documented value is what the code returns.  Below 62 attempts: exactly when the
   product fits, or what it wraps to is caught by one of the two guards or equals the cap.
   From 62 on: except for a one-nanosecond base at attempt 62 under a cap above 2^62.
   */
  lemma BackoffExactly(p: RetryPolicy, attempt: nat)
    requires Positive(p)
    ensures attempt < 62 ==>
              (Backoff(p, attempt) == CappedDoubling(p, attempt) <==>
               var product := p.baseDelay * Pow2(attempt);
               product < TWO_63 || Wrap64(product) <= 0 || Wrap64(product) >= p.maxDelay)
    ensures attempt >= 62 ==>
              (Backoff(p, attempt) == CappedDoubling(p, attempt) <==>
               !(attempt == 62 && p.baseDelay == 1 && p.maxDelay > 0x4000_0000_0000_0000))
  {
    var product := p.baseDelay * Pow2(attempt);
    if attempt < 62 {
      MulMono(p.baseDelay, 1, Pow2(attempt));
      WrapFacts(product);
    } else {
      Shift62();
      Pow2Mono(62, attempt);
      LateAttempts(p.baseDelay, p.maxDelay, attempt);
    }
  }

  lemma Shift62()
    ensures Pow2(62) == 0x4000_0000_0000_0000
    ensures Pow2(63) == TWO_63
    ensures Pow2(64) == TWO_64
  {
    ShiftFrom(0);
  }

  lemma ShiftFrom(n: nat)
    requires n == 0
    ensures Pow2(n + 62) == 0x4000_0000_0000_0000
    ensures Pow2(n + 63) == TWO_63
    ensures Pow2(n + 64) == TWO_64
  {
    Pow2Plus15(n);
    Pow2Plus15(n + 15);
    Pow2Plus15(n + 30);
    Pow2Plus15(n + 45);
    assert Pow2(n + 61) == 2 * Pow2(n + 60);
    assert Pow2(n + 62) == 2 * Pow2(n + 61);
    assert Pow2(n + 63) == 2 * Pow2(n + 62);
    assert Pow2(n + 64) == 2 * Pow2(n + 63);
  }

  lemma Pow2Plus15(n: nat)
    ensures Pow2(n + 15) == 0x8000 * Pow2(n)
  {
    Pow2Plus5(n);
    Pow2Plus5(n + 5);
    Pow2Plus5(n + 10);
  }

  lemma Pow2Plus5(n: nat)
    ensures Pow2(n + 5) == 32 * Pow2(n)
  {
    assert Pow2(n + 5) == 2 * Pow2(n + 4);
    assert Pow2(n + 4) == 2 * Pow2(n + 3);
    assert Pow2(n + 3) == 2 * Pow2(n + 2);
    assert Pow2(n + 2) == 2 * Pow2(n + 1);
  }

  lemma LateAttempts(base: nat, cap: nat, attempt: nat)
    requires 0 < base && 0 < cap < TWO_63 && attempt >= 62
    ensures base * Pow2(attempt) < cap <==> attempt == 62 && base == 1 && cap > 0x4000_0000_0000_0000
  {
    Shift62();
    if attempt > 62 {
      Pow2Mono(63, attempt);
      MulMono(Pow2(attempt), 1, base);
    } else if base > 1 {
      MulMono(Pow2(62), 2, base);
    }
  }

  /** A policy the wrap-around makes wrong: after 31 attempts the five-minute cap becomes two seconds. */
  lemma BackoffWraps()
    ensures var p := RetryPolicy(40, 0x2_0000_0001, 300 * SECOND);
      Backoff(p, 31) == 0x8000_0000 && CappedDoubling(p, 31) == 300 * SECOND
  {
    ThirtyOne(0);
    var product := 0x2_0000_0001 * 0x8000_0000;
    assert product == TWO_64 + 0x8000_0000;
    assert Wrap64(product) == 0x8000_0000;
  }

  lemma ThirtyOne(n: nat)
    requires n == 0
    ensures Pow2(n + 31) == 0x8000_0000
  {
    Pow2Plus15(n);
    Pow2Plus15(n + 15);
    assert Pow2(n + 31) == 2 * Pow2(n + 30);
  }

  /**
   A condition on the policy alone: write the base delay as an odd number times a power of
   two; when the odd part times the cap is below 2^63, every attempt below 62 gets the
   documented delay, however far the product overflows.
   */
  lemma OddPartBound(p: RetryPolicy, odd: nat, twos: nat, attempt: nat)
    requires Positive(p) && p.baseDelay == odd * Pow2(twos) && odd % 2 == 1
    requires odd * p.maxDelay < TWO_63
    requires attempt < 62
    ensures Backoff(p, attempt) == CappedDoubling(p, attempt)
  {
    BackoffExactly(p, attempt);
    var j := twos + attempt;
    var product := p.baseDelay * Pow2(attempt);
    Pow2Add(twos, attempt);
    assert product == odd * Pow2(j) by { Associate(odd, Pow2(twos), Pow2(attempt)); }
    if product >= TWO_63 && Wrap64(product) > 0 {
      WrapIsMultiple(odd, j, product);
      PowerAboveCap(odd, p.maxDelay, Pow2(j));
    }
  }

  lemma Associate(a: nat, b: nat, c: nat)
    ensures a * b * c == a * (b * c)
  {}

  /** A product that is a multiple of 2^j wraps to a multiple of 2^j. */
  lemma WrapIsMultiple(odd: nat, j: nat, product: nat)
    requires product == odd * Pow2(j) && Wrap64(product) > 0
    ensures Wrap64(product) >= Pow2(j)
  {
    Shift62();
    if j >= 64 {
      Pow2Add(64, j - 64);
      MultipleWrapsToZero(odd, Pow2(j - 64), product);
    } else {
      Pow2Add(j, 64 - j);
      var q := (product + TWO_63) / TWO_64;
      MultipleStays(odd, Pow2(j), Pow2(64 - j), q, Wrap64(product));
    }
  }

  lemma MultipleWrapsToZero(odd: nat, k: nat, product: nat)
    requires product == odd * (TWO_64 * k)
    ensures Wrap64(product) == 0
  {
    assert product == TWO_64 * (odd * k);
  }

  lemma MultipleStays(odd: int, d: nat, e: nat, q: int, wrapped: int)
    requires d > 0 && wrapped == odd * d - (d * e) * q && wrapped > 0
    ensures wrapped >= d
  {
    var m := odd - e * q;
    assert wrapped == d * m by { Factor(odd, d, e, q); }
    if m < 1 {
      NonPositive(d, m);
    } else {
      AtLeast(d, m);
    }
  }

  lemma Factor(a: int, d: int, e: int, q: int)
    ensures a * d - (d * e) * q == d * (a - e * q)
  {}

  lemma NonPositive(d: int, m: int)
    requires d > 0 && m <= 0
    ensures d * m <= 0
  {}

  lemma AtLeast(d: int, m: int)
    requires d > 0 && m >= 1
    ensures d * m >= d
  {}

  lemma PowerAboveCap(odd: nat, cap: nat, power: nat)
    requires odd > 0 && odd * cap < TWO_63 <= odd * power
    ensures power > cap
  {}

  /** The default policy satisfies the bound: 2 s is 1953125 * 2^10 ns. */
  lemma DefaultsAreExact(attempt: nat)
    requires attempt < 62
    ensures Backoff(DEFAULTS, attempt) == CappedDoubling(DEFAULTS, attempt)
  {
    assert Pow2(10) == 1024 by { TwoToTheTen(0); }
    OddPartBound(DEFAULTS, 1953125, 10, attempt);
  }

  lemma TwoToTheTen(n: nat)
    requires n == 0
    ensures Pow2(n + 10) == 1024
  {
    Pow2Plus5(n);
    Pow2Plus5(n + 5);
  }

  // ---------------------------------------------------------------------------
  // The cold start

  /** What the world does around one attempt. */
  datatype Turn = Turn(a: Attempt, cancelled: bool, sleepCancelled: bool)

  datatype Ending = Cancelled | Succeeded | ServedFromCache | Exhausted

  /** The injected `sleepFunc`, with a record of the delays it was asked for. */
  class Sleeper {
    var slept: seq<int>

    constructor ()
      ensures slept == []
    {
      slept := [];
    }

    /** Sleeps for `d`, or returns early when cancelled. */
    method Sleep(d: int, cancelled: bool) returns (ok: bool)
      modifies this
      ensures ok == !cancelled && slept == old(slept) + [d]
    {
      slept := slept + [d];
      return !cancelled;
    }
  }

  /** A refresh that failed and left nothing usable published. */
  predicate InVain(c: Call) {
    c.r.Err? && !Usable(c.after)
  }

  /** A refresh on that turn may have gone so. */
  ghost predicate Happened(w: World, turn: Turn, c: Call) {
    c.a == turn.a && IsDate(c.a.today) && Refreshed(w, c.a, c.before, c.after, c.r)
  }

  /** The k-th refresh, on the k-th turn, followed the one before it. */
  ghost predicate Follows(w: World, turns: nat -> Turn, before: Daemon, cs: seq<Call>, k: nat)
    requires k < |cs|
  {
    Happened(w, turns(k), cs[k]) && cs[k].before == if k == 0 then before else cs[k - 1].after
  }

  /** `cs` are refreshes one after another from `before` to `after`. */
  ghost predicate Refreshes(w: World, turns: nat -> Turn, before: Daemon, cs: seq<Call>, after: Daemon) {
    && (forall k | 0 <= k < |cs| :: Follows(w, turns, before, cs, k))
    && after == if cs == [] then before else cs[|cs| - 1].after
  }

  /** The k-th refresh was made uncancelled and in vain, and the sleep after it was not cut short. */
  predicate GoesOn(turns: nat -> Turn, cs: seq<Call>, k: nat)
    requires k < |cs|
  {
    !turns(k).cancelled && InVain(cs[k]) && !turns(k).sleepCancelled
  }

  ghost predicate WentOn(turns: nat -> Turn, cs: seq<Call>, n: int)
    requires n <= |cs|
  {
    forall k | 0 <= k < n :: GoesOn(turns, cs, k)
  }

  /** How the refreshes made and the cancellations decide the ending. */
  ghost predicate EndsAs(p: RetryPolicy, turns: nat -> Turn, cs: seq<Call>, end: Ending) {
    var n := |cs|;
    && n <= p.maxAttempts
    && WentOn(turns, cs, n - 1)
    && (n > 0 ==> !turns(n - 1).cancelled)
    && (end == Succeeded <==> n > 0 && cs[n - 1].r.Ok?)
    && (end == ServedFromCache <==> n > 0 && cs[n - 1].r.Err? && Usable(cs[n - 1].after))
    && (end == Exhausted <==> n > 0 && n == p.maxAttempts && InVain(cs[n - 1]))
    && (end == Cancelled ==> turns(n).cancelled || (n > 0 && turns(n - 1).sleepCancelled))
  }

  /** The delays slept: after every refresh, but not after the last unless that was cut short. */
  ghost predicate SleptAs(p: RetryPolicy, cs: seq<Call>, end: Ending, slept: seq<int>) {
    && |slept| == (if end == Cancelled then |cs| else |cs| - 1)
    && forall k | 0 <= k < |slept| :: slept[k] == Backoff(p, k)
  }

  /** A cold start on the record. */
  ghost predicate ColdStart(p: RetryPolicy, w: World, turns: nat -> Turn, before: Daemon, after: Daemon,
                            cs: seq<Call>, slept: seq<int>, end: Ending)
  {
    && p.maxAttempts > 0
    && Refreshes(w, turns, before, cs, after)
    && EndsAs(p, turns, cs, end)
    && SleptAs(p, cs, end, slept)
  }

  class Scheduler {
    const coldStart: RetryPolicy
    const fetcher: Fetcher
    const sleeper: Sleeper

    constructor (policy: RetryPolicy, fetcher: Fetcher, sleeper: Sleeper)
      ensures coldStart == WithDefaults(policy) && this.fetcher == fetcher && this.sleeper == sleeper
    {
      coldStart := WithDefaults(policy);
      this.fetcher := fetcher;
      this.sleeper := sleeper;
    }

    method Ready() returns (r: bool)
      requires fetcher.Valid()
      ensures r <==> Usable(fetcher.State())
    {
      var t := fetcher.source.Current();
      if t == null {
        return false;
      }
      var n := t.Len();
      return n > 0;
    }

    /** `refreshOnce`: one refresh goes on the record; an error leaves the published trie. */
    method RefreshOnce(turn: Turn) returns (ok: bool, ghost call: Call)
      requires fetcher.Valid() && IsDate(turn.a.today)
      modifies fetcher, fetcher.source, fetcher.fs
      ensures fetcher.Valid()
      ensures fetcher.calls == old(fetcher.calls) + [call] && Happened(fetcher.world, turn, call)
      ensures call.before == old(fetcher.State()) && call.after == fetcher.State()
      ensures ok <==> call.r.Ok?
      ensures !ok ==> fetcher.source.current == old(fetcher.source.current)
    {
      ghost var before := fetcher.State();
      var r := fetcher.Refresh(turn.a);
      call := Call(turn.a, before, fetcher.State(), r);
      ok := r.Ok?;
    }

    /**
     `runColdStart`.  The refreshes and sleeps it adds to the records of the fetcher and the
     sleeper, `cs` and `slept`, are those of a cold start that ends as returned.
     */
    method RunColdStart(turns: nat -> Turn) returns (end: Ending, ghost cs: seq<Call>, ghost slept: seq<int>)
      requires fetcher.Valid() && coldStart.maxAttempts > 0
      requires forall k :: IsDate(turns(k).a.today)
      modifies fetcher, fetcher.source, fetcher.fs, sleeper
      ensures fetcher.Valid()
      ensures fetcher.calls == old(fetcher.calls) + cs && sleeper.slept == old(sleeper.slept) + slept
      ensures ColdStart(coldStart, fetcher.world, turns, old(fetcher.State()), fetcher.State(), cs, slept, end)
      ensures end != Succeeded ==> fetcher.source.current == old(fetcher.source.current)
    {
      cs, slept := [], [];
      ghost var start := fetcher.State();
      var attempt := 0;
      var ended: Option<Ending> := None;
      while ended == None
        invariant fetcher.Valid()
        invariant fetcher.calls == old(fetcher.calls) + cs && sleeper.slept == old(sleeper.slept) + slept
        invariant ended == None ==> attempt == |cs| < coldStart.maxAttempts
        invariant Reached(coldStart, fetcher.world, turns, start, fetcher.State(), cs, slept, ended)
        invariant ended != Some(Succeeded) ==> fetcher.source.current == old(fetcher.source.current)
        decreases ended == None, coldStart.maxAttempts - attempt
      {
        ghost var cs0, slept0 := cs, slept;
        ended, cs, slept := Take(turns, attempt, start, cs0, slept0);
        Longer(old(fetcher.calls), cs0, cs);
        Longer(old(sleeper.slept), slept0, slept);
        attempt := attempt + 1;
      }
      end := ended.value;
    }

    /** The body of that loop. */
    method Take(turns: nat -> Turn, attempt: nat, ghost start: Daemon, ghost cs0: seq<Call>, ghost slept0: seq<int>)
      returns (ended: Option<Ending>, ghost cs: seq<Call>, ghost slept: seq<int>)
      requires fetcher.Valid() && attempt == |cs0| < coldStart.maxAttempts && IsDate(turns(attempt).a.today)
      requires Underway(coldStart, fetcher.world, turns, start, fetcher.State(), cs0, slept0)
      modifies fetcher, fetcher.source, fetcher.fs, sleeper
      ensures fetcher.Valid()
      ensures |cs| >= |cs0| && |slept| >= |slept0|
      ensures cs[..|cs0|] == cs0 && fetcher.calls == old(fetcher.calls) + cs[|cs0|..]
      ensures slept[..|slept0|] == slept0 && sleeper.slept == old(sleeper.slept) + slept[|slept0|..]
      ensures ended == None ==> |cs| == attempt + 1 < coldStart.maxAttempts
      ensures Reached(coldStart, fetcher.world, turns, start, fetcher.State(), cs, slept, ended)
      ensures ended != Some(Succeeded) ==> fetcher.source.current == old(fetcher.source.current)
    {
      cs, slept := cs0, slept0;
      var turn := turns(attempt);
      if turn.cancelled {
        NoRefreshLeft(coldStart, fetcher.world, turns, start, fetcher.State(), cs, slept);
        return Some(Cancelled), cs, slept;
      }
      var ok, call := RefreshOnce(turn);
      cs := cs0 + [call];
      if ok {
        LastRefresh(coldStart, fetcher.world, turns, start, cs0, slept, call, Succeeded);
        return Some(Succeeded), cs, slept;
      }
      var ready := Ready();
      if ready {
        LastRefresh(coldStart, fetcher.world, turns, start, cs0, slept, call, ServedFromCache);
        return Some(ServedFromCache), cs, slept;
      }
      if attempt + 1 >= coldStart.maxAttempts {
        LastRefresh(coldStart, fetcher.world, turns, start, cs0, slept, call, Exhausted);
        return Some(Exhausted), cs, slept;
      }
      var delay := Backoff(coldStart, attempt);
      var rested := sleeper.Sleep(delay, turn.sleepCancelled);
      OneMoreSleep(coldStart, fetcher.world, turns, start, cs0, slept, call);
      slept := slept + [delay];
      return if rested then None else Some(Cancelled), cs, slept;
    }
  }

  lemma Longer<T>(record: seq<T>, part: seq<T>, longer: seq<T>)
    requires |part| <= |longer| && longer[..|part|] == part
    ensures record + part + longer[|part|..] == record + longer
  {
    assert longer == longer[..|part|] + longer[|part|..];
  }

  /** A cold start that has ended, or goes on. */
  ghost predicate Reached(p: RetryPolicy, w: World, turns: nat -> Turn, before: Daemon, now: Daemon,
                          cs: seq<Call>, slept: seq<int>, ended: Option<Ending>)
  {
    match ended
    case None => Underway(p, w, turns, before, now, cs, slept)
    case Some(end) => ColdStart(p, w, turns, before, now, cs, slept, end)
  }

  /** A cold start in which every refresh so far was in vain and slept after. */
  ghost predicate Underway(p: RetryPolicy, w: World, turns: nat -> Turn, before: Daemon, now: Daemon,
                           cs: seq<Call>, slept: seq<int>)
  {
    && Refreshes(w, turns, before, cs, now)
    && WentOn(turns, cs, |cs|)
    && |slept| == |cs| && forall k | 0 <= k < |slept| :: slept[k] == Backoff(p, k)
  }

  /** A cancellation before the next refresh ends it. */
  lemma NoRefreshLeft(p: RetryPolicy, w: World, turns: nat -> Turn, before: Daemon, now: Daemon, cs: seq<Call>, slept: seq<int>)
    requires Underway(p, w, turns, before, now, cs, slept) && |cs| < p.maxAttempts && turns(|cs|).cancelled
    ensures ColdStart(p, w, turns, before, now, cs, slept, Cancelled)
  {
    forall k | 0 <= k < |cs| - 1 ensures GoesOn(turns, cs, k) {}
    assert WentOn(turns, cs, |cs| - 1);
    assert |cs| > 0 ==> GoesOn(turns, cs, |cs| - 1);
  }

  /** One more refresh ends it. */
  lemma LastRefresh(p: RetryPolicy, w: World, turns: nat -> Turn, before: Daemon, cs: seq<Call>, slept: seq<int>,
                    call: Call, end: Ending)
    requires Underway(p, w, turns, before, call.before, cs, slept) && |cs| < p.maxAttempts
    requires Happened(w, turns(|cs|), call) && !turns(|cs|).cancelled
    requires match end
             case Succeeded => call.r.Ok?
             case ServedFromCache => call.r.Err? && Usable(call.after)
             case Exhausted => InVain(call) && |cs| + 1 == p.maxAttempts
             case Cancelled => false
    ensures ColdStart(p, w, turns, before, call.after, cs + [call], slept, end)
  {
    OneMoreRefresh(w, turns, before, cs, call.before, call);
    StillWentOn(turns, cs, call);
  }

  /** A refresh in vain and the sleep after it, which may be cut short. */
  lemma OneMoreSleep(p: RetryPolicy, w: World, turns: nat -> Turn, before: Daemon, cs: seq<Call>, slept: seq<int>, call: Call)
    requires Underway(p, w, turns, before, call.before, cs, slept) && |cs| + 1 < p.maxAttempts
    requires Happened(w, turns(|cs|), call) && !turns(|cs|).cancelled && InVain(call)
    ensures var more, longer := cs + [call], slept + [Backoff(p, |cs|) as int];
      if turns(|cs|).sleepCancelled then ColdStart(p, w, turns, before, call.after, more, longer, Cancelled)
      else Underway(p, w, turns, before, call.after, more, longer)
  {
    OneMoreRefresh(w, turns, before, cs, call.before, call);
    StillWentOn(turns, cs, call);
  }

  lemma OneMoreRefresh(w: World, turns: nat -> Turn, before: Daemon, cs: seq<Call>, mid: Daemon, call: Call)
    requires Refreshes(w, turns, before, cs, mid)
    requires Happened(w, turns(|cs|), call) && call.before == mid
    ensures Refreshes(w, turns, before, cs + [call], call.after)
  {
    forall k | 0 <= k <= |cs| ensures Follows(w, turns, before, cs + [call], k) {
      assert k < |cs| ==> Follows(w, turns, before, cs, k);
    }
  }

  lemma StillWentOn(turns: nat -> Turn, cs: seq<Call>, call: Call)
    requires WentOn(turns, cs, |cs|)
    ensures |cs + [call]| - 1 == |cs| && WentOn(turns, cs + [call], |cs + [call]| - 1)
    ensures GoesOn(turns, cs + [call], |cs|) ==> WentOn(turns, cs + [call], |cs + [call]|)
  {
    forall k | 0 <= k < |cs| ensures GoesOn(turns, cs + [call], k) {
      assert GoesOn(turns, cs, k);
    }
  }

  /** Refreshes that fail change neither the blocklist nor the validators. */
  lemma {:induction false} FailuresChangeNothing(w: World, turns: nat -> Turn, before: Daemon, cs: seq<Call>, after: Daemon, n: nat)
    requires Refreshes(w, turns, before, cs, after) && n < |cs|
    requires forall k | 0 <= k < n :: cs[k].r.Err?
    ensures cs[n].before.blocklist == before.blocklist && cs[n].before.v == before.v
    ensures cs[n].r.Err? ==> cs[n].after.blocklist == before.blocklist && cs[n].after.v == before.v
  {
    assert Follows(w, turns, before, cs, n);
    if n > 0 {
      FailuresChangeNothing(w, turns, before, cs, after, n - 1);
    }
    FetcherTheorems.FailureChangesNothing(w, cs[n].a, cs[n].before, cs[n].after, cs[n].r);
  }

  /**
   What the budget means.  With a usable blocklist at the start there is at most one refresh
   and no sleep; without one the cache never serves.  The published blocklist and the
   validators change only by success.  There are never more sleeps than the budget less one.
   */
  lemma ColdStartOutcome(p: RetryPolicy, w: World, turns: nat -> Turn, before: Daemon, after: Daemon,
                         cs: seq<Call>, slept: seq<int>, end: Ending)
    requires ColdStart(p, w, turns, before, after, cs, slept, end)
    ensures Usable(before) ==> |cs| <= 1 && slept == [] && end != Exhausted
    ensures end == ServedFromCache ==> Usable(before) && |cs| == 1
    ensures end != Succeeded ==> after.blocklist == before.blocklist && after.v == before.v
    ensures |slept| <= p.maxAttempts - 1
    ensures end == Exhausted ==> |slept| == p.maxAttempts - 1
    ensures forall k | 0 <= k < |cs| :: cs[k].before.blocklist == before.blocklist && cs[k].before.v == before.v
  {
    AllFailed(turns, cs, |cs| - 1);
    forall k | 0 <= k < |cs| ensures cs[k].before.blocklist == before.blocklist && cs[k].before.v == before.v {
      FailuresChangeNothing(w, turns, before, cs, after, k);
    }
    if cs != [] {
      LastCall(p, w, turns, before, after, cs, slept, end);
    }
  }

  lemma AllFailed(turns: nat -> Turn, cs: seq<Call>, n: int)
    requires n <= |cs| && WentOn(turns, cs, n)
    ensures forall k | 0 <= k < n :: cs[k].r.Err?
  {
    forall k | 0 <= k < n ensures cs[k].r.Err? {
      assert GoesOn(turns, cs, k);
    }
  }

  /** The last refresh began with what was published at the start, and only if that was unusable was there one before it. */
  lemma LastCall(p: RetryPolicy, w: World, turns: nat -> Turn, before: Daemon, after: Daemon,
                 cs: seq<Call>, slept: seq<int>, end: Ending)
    requires ColdStart(p, w, turns, before, after, cs, slept, end) && cs != []
    ensures var c := cs[|cs| - 1];
      && Happened(w, turns(|cs| - 1), c) && after == c.after
      && c.before.blocklist == before.blocklist && c.before.v == before.v
      && (c.r.Err? ==> after.blocklist == before.blocklist && after.v == before.v)
      && (|cs| > 1 ==> !Usable(before))
  {
    var n := |cs| - 1;
    assert Follows(w, turns, before, cs, n);
    AllFailed(turns, cs, n);
    FailuresChangeNothing(w, turns, before, cs, after, n);
    if n > 0 {
      assert GoesOn(turns, cs, 0);
      FailuresChangeNothing(w, turns, before, cs, after, 0);
    }
  }

  /** The origin answers the requests of that refresh with a 304 in the end. */
  predicate NotModified(w: World, a: Attempt, v: Validators) {
    && IsDate(a.today) && Fetched(w, a.first, a.second, v, a.today).Ok?
    && Fetched(w, a.first, a.second, v, a.today).value.notModified
  }

  /**
   Success publishes a blocklist, unless nothing was published at the start and the origin
   answers 304 to the validators remembered then: then the cold start ends well with the
   source still nil.
   */
  lemma SuccessPublishes(p: RetryPolicy, w: World, turns: nat -> Turn, before: Daemon, after: Daemon,
                         cs: seq<Call>, slept: seq<int>, end: Ending)
    requires ColdStart(p, w, turns, before, after, cs, slept, end) && end == Succeeded
    ensures after.blocklist == None <==> before.blocklist == None && NotModified(w, turns(|cs| - 1).a, before.v)
  {
    var n := |cs| - 1;
    LastCall(p, w, turns, before, after, cs, slept, end);
    FetcherTheorems.FailureChangesNothing(w, cs[n].a, cs[n].before, cs[n].after, cs[n].r);
  }

  /** Such an origin: it answers every request with a 304, and one refresh of a fresh process ends the cold start. */
  lemma EmptySuccess(p: RetryPolicy, w: World, disk: FileSystem.Disk) returns (turns: nat -> Turn, cs: seq<Call>)
    requires p.maxAttempts > 0 && FileSystem.WellFormed(disk)
    ensures var d := Daemon(None, NO_VALIDATORS, disk);
      |cs| == 1 && ColdStart(p, w, turns, d, d, cs, [], Succeeded)
  {
    var d := Daemon(None, NO_VALIDATORS, disk);
    var o: Origin := (req: Request) => Response(304, NO_VALIDATORS, []);
    var a := Attempt(o, o, Date(2026, 7, 2), 0, false);
    turns := (k: nat) => Turn(a, false, false);
    cs := [Call(a, d, d, Ok(Unchanged))];
    assert Happened(w, turns(0), cs[0]) && Follows(w, turns, d, cs, 0);
  }

  /**
   In a process that has just booted an honest origin never does that: the cold start that
   succeeds has downloaded the selected file and publishes its blocklist.
   */
  lemma HonestSuccessPublishes(p: RetryPolicy, w: World, turns: nat -> Turn, before: Daemon, after: Daemon,
                               cs: seq<Call>, slept: seq<int>, end: Ending,
                               c1: FetcherTheorems.Catalogue, c2: FetcherTheorems.Catalogue, name: FetcherTheorems.Naming)
    requires ColdStart(p, w, turns, before, after, cs, slept, end) && end == Succeeded && before.v == NO_VALIDATORS
    requires IsDate(cs[|cs| - 1].a.today)
    requires FetcherTheorems.HonestTo(cs[|cs| - 1].a, c1, c2, NO_VALIDATORS, name)
    ensures cs[|cs| - 1].r == Ok(Updated)
    ensures after.blocklist.Some? && after.blocklist == FetcherTheorems.Unconditional(w, c1, c2, cs[|cs| - 1].a.today)
  {
    LastCall(p, w, turns, before, after, cs, slept, end);
    HonestDownload(w, cs[|cs| - 1], c1, c2, name);
  }

  lemma HonestDownload(w: World, c: Call, c1: FetcherTheorems.Catalogue, c2: FetcherTheorems.Catalogue, name: FetcherTheorems.Naming)
    requires IsDate(c.a.today) && Refreshed(w, c.a, c.before, c.after, c.r) && c.r.Ok? && c.before.v == NO_VALIDATORS
    requires FetcherTheorems.HonestTo(c.a, c1, c2, NO_VALIDATORS, name)
    ensures c.r == Ok(Updated)
    ensures c.after.blocklist.Some? && c.after.blocklist == FetcherTheorems.Unconditional(w, c1, c2, c.a.today)
  {
    FetcherTheorems.NothingToConfirm(w, c.a, c1, c2, name);
    FetcherTheorems.ConditionalIsUnconditional(w, c.a, c1, c2, name, c.before, c.after, c.r);
  }

  function Total(delays: seq<int>): int {
    if delays == [] then 0 else Total(delays[..|delays| - 1]) + delays[|delays| - 1]
  }

  lemma {:induction false} TotalWithinBudget(p: RetryPolicy, delays: seq<int>)
    requires Positive(p) && forall k | 0 <= k < |delays| :: delays[k] == Backoff(p, k)
    ensures Total(delays) <= |delays| * p.maxDelay
  {
    if delays != [] {
      var n := |delays| - 1;
      TotalWithinBudget(p, delays[..n]);
      BackoffInRange(p, n);
      OneMore(n, p.maxDelay);
    }
  }

  lemma OneMore(n: int, x: int)
    ensures (n + 1) * x == n * x + x
  {}

  /** With the defaults an exhausted budget has slept 2 + 4 + ... + 128 = 254 seconds. */
  lemma DefaultBudget(delays: seq<int>)
    requires |delays| == DEFAULTS.maxAttempts - 1
    requires forall k | 0 <= k < |delays| :: delays[k] == Backoff(DEFAULTS, k)
    ensures forall k | 0 <= k < |delays| :: delays[k] == 2 * SECOND * Pow2(k)
    ensures Total(delays) == 254 * SECOND
  {
    forall k | 0 <= k < 7 ensures delays[k] == 2 * SECOND * Pow2(k) {
      DefaultsAreExact(k);
      Pow2Mono(k, 6);
      SmallPowers(0);
    }
    SmallPowers(0);
    DoublingTotal(delays, 7);
    assert delays[..7] == delays;
  }

  lemma SmallPowers(n: nat)
    requires n == 0
    ensures Pow2(n + 6) == 64 && Pow2(n + 7) == 128
  {
    Pow2Plus5(n);
    assert Pow2(n + 6) == 2 * Pow2(n + 5);
    assert Pow2(n + 7) == 2 * Pow2(n + 6);
  }

  lemma OneDoubling(unit: int, power: int)
    ensures 2 * unit * (power - 1) + 2 * unit * power == 2 * unit * (2 * power - 1)
  {}

  lemma {:induction false} DoublingTotal(delays: seq<int>, n: nat)
    requires n <= |delays| && forall k | 0 <= k < |delays| :: delays[k] == 2 * SECOND * Pow2(k)
    ensures Total(delays[..n]) == 2 * SECOND * (Pow2(n) - 1)
  {
    if n > 0 {
      DoublingTotal(delays, n - 1);
      assert delays[..n][..n - 1] == delays[..n - 1];
      assert delays[..n][n - 1] == delays[n - 1];
      OneDoubling(SECOND, Pow2(n - 1));
    }
  }
}
