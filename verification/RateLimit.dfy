/**
 The rate limiter of pkg/ratelimit/limiter.go: one leaky bucket per key, kept in a cache that
 forgets a key one minute after its last call. Times are nanoseconds.
 */
module RateLimit {
  import opened Wrappers

  const MILLISECOND := 1_000_000
  const MINUTE := 60_000 * MILLISECOND

  datatype Config = Config(enable: bool, burst: int, rate: int, whiteList: set<string>, blackList: set<string>)

  function TimeStep(cfg: Config): nat
    requires cfg.rate > 0
  {
    (60_000 / cfg.rate) * MILLISECOND
  }

  function MaxTime(cfg: Config): int
    requires cfg.rate > 0
  {
    TimeStep(cfg) * cfg.burst
  }

  /** The clock is read up to four times in one call: by the cache, twice by the bucket, by the cache again. */
  datatype Clock = Clock(get: int, since: int, update: int, set_: int)

  predicate Ticks(now: Clock) {
    now.get <= now.since <= now.update <= now.set_
  }

  datatype Limiter = Limiter(size: int, lastUpdate: int)

  datatype Entry = Entry(limiter: Limiter, expires: int)

  type Buckets = map<string, Entry>

  function Bucket(buckets: Buckets, key: string): Option<Entry> {
    if key in buckets then Some(buckets[key]) else None
  }

  function Drained(l: Limiter, now: int): int {
    if l.size - (now - l.lastUpdate) < 0 then 0 else l.size - (now - l.lastUpdate)
  }

  datatype Verdict = Verdict(accepted: bool, entry: Entry)

  /** A call on a bucket that is remembered. */
  function Pour(step: int, max: int, l: Limiter, now: Clock): Verdict {
    var size := Drained(l, now.since);
    var accepted := size <= max;
    Verdict(accepted, Entry(Limiter(if accepted then size + step else size, now.update), now.set_ + MINUTE))
  }

  /** A call for one key; `forgets` tells whether the bucket is dropped after an idle minute. */
  function Call(step: int, max: int, forgets: bool, e: Option<Entry>, now: Clock): Verdict {
    if e.None? || (forgets && now.get > e.value.expires)
    then Verdict(true, Entry(Limiter(step, now.update), now.set_ + MINUTE))
    else Pour(step, max, e.value.limiter, now)
  }

  predicate Listed(cfg: Config, key: string) {
    !cfg.enable || key in cfg.blackList || key in cfg.whiteList
  }

  /** Calls for any mixture of keys, in order, with the verdict of each. */
  function Serve(cfg: Config, buckets: Buckets, calls: seq<(string, Clock)>): (r: seq<(string, bool)>)
    requires cfg.rate > 0
    ensures |r| == |calls|
    decreases |calls|
  {
    if calls == [] then [] else
      var (key, now) := calls[0];
      if Listed(cfg, key) then
        [(key, !cfg.enable || key !in cfg.blackList)] + Serve(cfg, buckets, calls[1..])
      else
        var v := Call(TimeStep(cfg), MaxTime(cfg), true, Bucket(buckets, key), now);
        [(key, v.accepted)] + Serve(cfg, buckets[key := v.entry], calls[1..])
  }

  class RateLimiter {
    const config: Config
    const timeStep: nat
    const maxTime: int
    var limiters: Buckets

    ghost predicate Valid()
      reads this
    {
      config.rate > 0 && timeStep == TimeStep(config) && maxTime == MaxTime(config)
    }

    constructor (config: Config)
      requires config.rate > 0
      ensures Valid() && limiters == map[] && this.config == config
    {
      this.config := config;
      timeStep, maxTime := TimeStep(config), MaxTime(config);
      limiters := map[];
    }

    /** Listed keys and a disabled limiter touch no bucket; every other call touches one. */
    method CanHandle(key: string, now: Clock) returns (res: bool)
      requires Valid()
      modifies this
      ensures Valid()
      ensures Listed(config, key) ==> limiters == old(limiters) && res == (!config.enable || key !in config.blackList)
      ensures !Listed(config, key) ==>
                var v := Call(timeStep, maxTime, true, Bucket(old(limiters), key), now);
                res == v.accepted && limiters == old(limiters)[key := v.entry]
    {
      if !config.enable {
        return true;
      }
      if key in config.blackList {
        return false;
      }
      if key in config.whiteList {
        return true;
      }
      var l: Limiter;
      if key in limiters && now.get <= limiters[key].expires {
        l := limiters[key].limiter;
        l := l.(size := l.size - (now.since - l.lastUpdate));
        l := l.(lastUpdate := now.update);
        if l.size < 0 {
          l := l.(size := 0);
        }
        if l.size > maxTime {
          res := false;
        } else {
          l := l.(size := l.size + timeStep);
          res := true;
        }
      } else {
        l := Limiter(timeStep, now.update);
        res := true;
      }
      limiters := limiters[key := Entry(l, now.set_ + MINUTE)];
    }

    /** The requests of a server, one after another. */
    method HandleAll(calls: seq<(string, Clock)>) returns (verdicts: seq<(string, bool)>)
      requires Valid()
      modifies this
      ensures Valid() && verdicts == Serve(config, old(limiters), calls)
    {
      hide Call;
      verdicts := [];
      for i := 0 to |calls|
        invariant Valid()
        invariant Serve(config, old(limiters), calls) == verdicts + Serve(config, limiters, calls[i..])
      {
        var (key, now) := calls[i];
        assert calls[i..][1..] == calls[i + 1..];
        ghost var before, was := limiters, verdicts;
        var res := CanHandle(key, now);
        verdicts := verdicts + [(key, res)];
        assert Serve(config, before, calls[i..]) == [(key, res)] + Serve(config, limiters, calls[i + 1..]);
        Regrouped(was, [(key, res)], Serve(config, limiters, calls[i + 1..]));
      }
      assert calls[|calls|..] == [];
    }
  }

  lemma Regrouped<T>(a: seq<T>, b: seq<T>, c: seq<T>)
    ensures a + (b + c) == (a + b) + c
  {
  }

  // ---------------------------------------------------------------- histories of one key

  /** The calls follow one another. */
  predicate Ordered(times: seq<Clock>) {
    && (forall i | 0 <= i < |times| :: Ticks(times[i]))
    && (forall i, j | 0 <= i < j < |times| :: times[i].set_ <= times[j].get)
  }

  function Final(step: int, max: int, forgets: bool, e: Option<Entry>, times: seq<Clock>): Option<Entry>
    decreases |times|
  {
    if times == [] then e
    else Final(step, max, forgets, Some(Call(step, max, forgets, e, times[0]).entry), times[1..])
  }

  function Verdicts(step: int, max: int, forgets: bool, e: Option<Entry>, times: seq<Clock>): (r: seq<bool>)
    ensures |r| == |times|
    decreases |times|
  {
    if times == [] then [] else
      var v := Call(step, max, forgets, e, times[0]);
      [v.accepted] + Verdicts(step, max, forgets, Some(v.entry), times[1..])
  }

  lemma FirstCall(step: int, max: int, forgets: bool, e: Option<Entry>, now: Clock, times: seq<Clock>)
    ensures var v := Call(step, max, forgets, e, now);
            && Verdicts(step, max, forgets, e, [now] + times) ==
               [v.accepted] + Verdicts(step, max, forgets, Some(v.entry), times)
            && Final(step, max, forgets, e, [now] + times) == Final(step, max, forgets, Some(v.entry), times)
  {
    hide Call;
    assert ([now] + times)[1..] == times;
  }

  lemma {:induction false} VerdictsConcat(
    step: int, max: int, forgets: bool, e: Option<Entry>, a: seq<Clock>, b: seq<Clock>)
    ensures Verdicts(step, max, forgets, e, a + b) ==
            Verdicts(step, max, forgets, e, a) + Verdicts(step, max, forgets, Final(step, max, forgets, e, a), b)
    decreases |a|
  {
    hide Call;
    if a == [] {
      assert a + b == b;
    } else {
      hide Verdicts, Final;
      var v := Call(step, max, forgets, e, a[0]);
      VerdictsConcat(step, max, forgets, Some(v.entry), a[1..], b);
      FirstCall(step, max, forgets, e, a[0], a[1..]);
      FirstCall(step, max, forgets, e, a[0], a[1..] + b);
      assert a == [a[0]] + a[1..] && a + b == [a[0]] + (a[1..] + b);
    }
  }

  /** A bucket that a history can leave behind at time `now` or earlier. */
  predicate Sane(step: int, max: int, e: Option<Entry>, now: int) {
    e.Some? ==>
      && 0 <= e.value.limiter.size <= max + step
      && e.value.limiter.lastUpdate + MINUTE <= e.value.expires <= now + MINUTE
  }

  // ---------------------------------------------------------------- the bound without forgetting

  function Accepted(verdicts: seq<bool>): nat {
    if verdicts == [] then 0 else (if verdicts[0] then 1 else 0) + Accepted(verdicts[1..])
  }

  lemma {:induction false} AcceptedConcat(a: seq<bool>, b: seq<bool>)
    ensures Accepted(a + b) == Accepted(a) + Accepted(b)
  {
    if a == [] {
      assert a + b == b;
    } else {
      AcceptedConcat(a[1..], b);
      assert (a + b)[1..] == a[1..] + b;
    }
  }

  lemma {:induction false} AcceptedAll(verdicts: seq<bool>)
    requires forall i | 0 <= i < |verdicts| :: verdicts[i]
    ensures Accepted(verdicts) == |verdicts|
  {
    if verdicts != [] {
      AcceptedAll(verdicts[1..]);
    }
  }

  lemma Times(n: nat, step: int)
    ensures (n + 1) * step == n * step + step
  {
  }

  /** What has been accepted, plus what is left in the bucket, fits into its height and the time. */
  lemma {:induction false} Potential(step: nat, max: nat, e: Option<Entry>, times: seq<Clock>)
    requires times != [] && Ordered(times) && Sane(step, max, e, times[0].get)
    ensures Accepted(Verdicts(step, max, false, e, times)) * step
            + (if e.Some? then Drained(e.value.limiter, times[0].since) else 0)
            <= max + step + (times[|times| - 1].since - times[0].since)
    decreases |times|
  {
    var v := Call(step, max, false, e, times[0]);
    var rest := Verdicts(step, max, false, Some(v.entry), times[1..]);
    var all := Verdicts(step, max, false, e, times);
    assert all == [v.accepted] + rest && all[1..] == rest;
    Times(Accepted(rest), step);
    if |times| > 1 {
      Potential(step, max, Some(v.entry), times[1..]);
      assert times[1..][|times| - 2] == times[|times| - 1];
      assert Ticks(times[0]) && Ticks(times[1]);
    } else {
      assert rest == [];
    }
  }

  lemma {:induction false} SaneFinal(
    step: nat, max: nat, forgets: bool, e: Option<Entry>, times: seq<Clock>, now: int)
    requires Ordered(times) && Sane(step, max, e, if times == [] then now else times[0].get)
    requires times != [] ==> times[|times| - 1].set_ <= now
    ensures Sane(step, max, Final(step, max, forgets, e, times), now)
    decreases |times|
  {
    if times != [] {
      assert Ticks(times[0]);
      SaneFinal(step, max, forgets, Some(Call(step, max, forgets, e, times[0]).entry), times[1..], now);
    }
  }

  lemma Middle(a: seq<bool>, b: seq<bool>, c: seq<bool>)
    ensures (a + (b + c))[|a|..|a| + |b|] == b
  {
  }

  lemma VerdictsSlice(step: int, max: int, forgets: bool, times: seq<Clock>, i: nat, j: nat)
    requires i <= j <= |times|
    ensures Verdicts(step, max, forgets, None, times)[i..j] ==
            Verdicts(step, max, forgets, Final(step, max, forgets, None, times[..i]), times[i..j])
  {
    hide Verdicts, Final;
    var a, b, c := times[..i], times[i..j], times[j..];
    assert times == a + (b + c);
    var e := Final(step, max, forgets, None, a);
    VerdictsConcat(step, max, forgets, None, a, b + c);
    VerdictsConcat(step, max, forgets, e, b, c);
    Middle(Verdicts(step, max, forgets, None, a), Verdicts(step, max, forgets, e, b),
           Verdicts(step, max, forgets, Final(step, max, forgets, e, b), c));
  }

  /** What the calls accepted in a window cost, against what the bucket holds and the window drains. */
  predicate Affordable(step: int, max: int, verdicts: seq<bool>, times: seq<Clock>, i: nat, j: nat)
    requires |verdicts| == |times| && i < j <= |times|
  {
    Accepted(verdicts[i..j]) * step <= max + step + (times[j - 1].since - times[i].since)
  }

  /** A bucket that is never forgotten keeps within the bound in any window of any history. */
  lemma RememberedBound(step: nat, max: nat, times: seq<Clock>, i: nat, j: nat)
    requires Ordered(times) && i < j <= |times|
    ensures Affordable(step, max, Verdicts(step, max, false, None, times), times, i, j)
  {
    hide Verdicts, Final, Accepted, Drained;
    var a, b := times[..i], times[i..j];
    VerdictsSlice(step, max, false, times, i, j);
    assert Ordered(a) && Ordered(b) && b[0] == times[i] && b[|b| - 1] == times[j - 1];
    SaneFinal(step, max, false, None, a, times[i].get);
    var e := Final(step, max, false, None, a);
    Potential(step, max, e, b);
    DrainedNonNegative(e, b[0].since);
  }

  lemma DrainedNonNegative(e: Option<Entry>, now: int)
    ensures e.Some? ==> Drained(e.value.limiter, now) >= 0
  {
  }

  // ---------------------------------------------------------------- forgetting

  lemma {:induction false} ForgettingInvisible(step: nat, max: nat, e: Option<Entry>, times: seq<Clock>)
    requires max + step <= MINUTE && Ordered(times)
    requires times != [] ==> Sane(step, max, e, times[0].get)
    ensures Verdicts(step, max, true, e, times) == Verdicts(step, max, false, e, times)
    decreases |times|
  {
    if times != [] {
      assert Ticks(times[0]);
      var v := Call(step, max, false, e, times[0]);
      assert v == Call(step, max, true, e, times[0]);
      ForgettingInvisible(step, max, Some(v.entry), times[1..]);
    }
  }

  /** All readings of a call at one instant. */
  function At(t: int): Clock {
    Clock(t, t, t, t)
  }

  function Repeat(n: nat, t: int): seq<Clock> {
    seq(n, _ => At(t))
  }

  function Filled(size: int, t: int): Entry {
    Entry(Limiter(size, t), t + MINUTE)
  }

  /** Calls at one instant, with room for all of them, stack up in the bucket. */
  lemma {:induction false} Fill(step: nat, max: int, forgets: bool, n: nat, t: int)
    requires n == 1 || (n > 1 && (n - 1) * step <= max)
    ensures Final(step, max, forgets, None, Repeat(n, t)) == Some(Filled(n * step, t))
    ensures forall i | 0 <= i < n :: Verdicts(step, max, forgets, None, Repeat(n, t))[i]
  {
    Stack(step, max, forgets, step, t, n - 1);
    Times(n - 1, step);
    FirstCall(step, max, forgets, None, At(t), Repeat(n - 1, t));
    assert Repeat(n, t) == [At(t)] + Repeat(n - 1, t);
  }

  lemma {:induction false} Stack(step: nat, max: int, forgets: bool, size: nat, t: int, n: nat)
    requires n > 0 ==> size + (n - 1) * step <= max
    ensures Final(step, max, forgets, Some(Filled(size, t)), Repeat(n, t)) == Some(Filled(size + n * step, t))
    ensures forall i | 0 <= i < n :: Verdicts(step, max, forgets, Some(Filled(size, t)), Repeat(n, t))[i]
    decreases n
  {
    if n > 0 {
      Times(n - 1, step);
      if n > 1 {
        Times(n - 2, step);
      }
      assert size <= max;
      Stack(step, max, forgets, size + step, t, n - 1);
      FirstCall(step, max, forgets, Some(Filled(size, t)), At(t), Repeat(n - 1, t));
      assert Repeat(n, t) == [At(t)] + Repeat(n - 1, t);
    }
  }

  /** The limiter never needs to remember a bucket for longer than the cache keeps it. */
  predicate DrainsInTime(cfg: Config)
    requires cfg.rate > 0
  {
    MaxTime(cfg) >= 0 && MaxTime(cfg) + TimeStep(cfg) <= MINUTE
  }

  function KeyVerdicts(cfg: Config, forgets: bool, times: seq<Clock>): (r: seq<bool>)
    requires cfg.rate > 0
    ensures |r| == |times|
  {
    Verdicts(TimeStep(cfg), MaxTime(cfg), forgets, None, times)
  }

  lemma WholeMilliseconds(cfg: Config)
    requires cfg.rate > 0 && MaxTime(cfg) + TimeStep(cfg) > MINUTE
    ensures MaxTime(cfg) + TimeStep(cfg) >= MINUTE + MILLISECOND
    ensures MaxTime(cfg) + TimeStep(cfg) == (cfg.burst + 1) * TimeStep(cfg) && TimeStep(cfg) > 0
  {
    var k := 60_000 / cfg.rate;
    Regroup(k, MILLISECOND, cfg.burst);
    assert MaxTime(cfg) + TimeStep(cfg) == (cfg.burst + 1) * TimeStep(cfg);
  }

  lemma NonNegativeFactor(step: int, burst: int)
    requires step > 0 && step * burst >= 0
    ensures burst >= 0
  {
  }

  lemma ForgottenIsFresh(step: nat, max: int, e: Entry, times: seq<Clock>)
    requires times != [] && times[0].get > e.expires
    ensures Verdicts(step, max, true, Some(e), times) == Verdicts(step, max, true, None, times)
  {
  }

  lemma RepeatsOrdered(n: nat, m: nat, t: int)
    requires t >= 0
    ensures Ordered(Repeat(n, 0) + Repeat(m, t))
  {
  }

  /** Fill the bucket, wait until the cache forgets it, and fill it again: everything gets through. */
  lemma Refilled(step: nat, max: int, n: nat, t: int)
    requires n == 1 || (n > 1 && (n - 1) * step <= max)
    requires t > MINUTE
    ensures Accepted(Verdicts(step, max, true, None, Repeat(n, 0) + Repeat(n, t))) == 2 * n
  {
    hide Verdicts, Final, Accepted;
    var a, b := Repeat(n, 0), Repeat(n, t);
    Fill(step, max, true, n, 0);
    Fill(step, max, true, n, t);
    VerdictsConcat(step, max, true, None, a, b);
    ForgottenIsFresh(step, max, Filled(n * step, 0), b);
    AcceptedConcat(Verdicts(step, max, true, None, a), Verdicts(step, max, true, None, b));
    AcceptedAll(Verdicts(step, max, true, None, a));
    AcceptedAll(Verdicts(step, max, true, None, b));
  }

  /** The limiter keeps within the bound in every window of every history. */
  ghost predicate KeepsBound(cfg: Config, forgets: bool)
    requires cfg.rate > 0
  {
    forall times: seq<Clock>, i: nat, j: nat | Ordered(times) && i < j <= |times| ::
      Affordable(TimeStep(cfg), MaxTime(cfg), KeyVerdicts(cfg, forgets, times), times, i, j)
  }

  /** A history that breaks the bound: a bucket's worth of calls, and another a minute later. */
  function Breaker(cfg: Config): seq<Clock>
    requires cfg.rate > 0
  {
    if cfg.burst < 0 then [At(0)] else Repeat(cfg.burst + 1, 0) + Repeat(cfg.burst + 1, MINUTE + 1)
  }

  /** With a negative height a single call is too much. */
  lemma OneIsTooMany(step: nat, max: int)
    requires max < 0
    ensures !Affordable(step, max, Verdicts(step, max, true, None, [At(0)]), [At(0)], 0, 1)
  {
    var verdicts := Verdicts(step, max, true, None, [At(0)]);
    assert verdicts[0] && verdicts[0..1] == verdicts;
    AcceptedAll(verdicts);
    assert Accepted(verdicts) * step == step;
  }

  lemma RefillBreaks(step: nat, max: nat, n: nat)
    requires n > 0 && (n - 1) * step == max && n * step == max + step > MINUTE + 1
    ensures var times := Repeat(n, 0) + Repeat(n, MINUTE + 1);
            !Affordable(step, max, Verdicts(step, max, true, None, times), times, 0, |times|)
  {
    hide Verdicts, Accepted;
    var times := Repeat(n, 0) + Repeat(n, MINUTE + 1);
    Refilled(step, max, n, MINUTE + 1);
    var verdicts := Verdicts(step, max, true, None, times);
    assert verdicts[0..|times|] == verdicts;
    assert (2 * n) * step == n * step + n * step;
    assert times[|times| - 1] == At(MINUTE + 1) && times[0] == At(0);
  }

  lemma BreaksBound(cfg: Config)
    requires cfg.rate > 0 && !DrainsInTime(cfg)
    ensures var times := Breaker(cfg);
            && times != [] && Ordered(times)
            && !Affordable(TimeStep(cfg), MaxTime(cfg), KeyVerdicts(cfg, true, times), times, 0, |times|)
  {
    hide Verdicts, Affordable;
    var step, max := TimeStep(cfg), MaxTime(cfg);
    if max < 0 {
      NegativeProduct(step, cfg.burst);
      OneIsTooMany(step, max);
    } else {
      WholeMilliseconds(cfg);
      NonNegativeFactor(step, cfg.burst);
      var n := cfg.burst + 1;
      assert (n - 1) * step == max;
      RepeatsOrdered(n, n, MINUTE + 1);
      RefillBreaks(step, max, n);
    }
  }

  lemma NegativeProduct(step: nat, burst: int)
    requires step * burst < 0
    ensures burst < 0
  {
  }

  /** The limiter as deployed keeps within the bound in all histories exactly when every bucket drains in time. */
  lemma WindowBoundTheorem(cfg: Config)
    requires cfg.rate > 0
    ensures KeepsBound(cfg, true) <==> DrainsInTime(cfg)
  {
    hide Verdicts, Affordable;
    if DrainsInTime(cfg) {
      forall times: seq<Clock>, i: nat, j: nat | Ordered(times) && i < j <= |times|
        ensures Affordable(TimeStep(cfg), MaxTime(cfg), KeyVerdicts(cfg, true, times), times, i, j)
      {
        ForgettingInvisible(TimeStep(cfg), MaxTime(cfg), None, times);
        RememberedBound(TimeStep(cfg), MaxTime(cfg), times, i, j);
      }
    } else {
      BreaksBound(cfg);
    }
  }

  /** Sixty calls a minute with bursts of a hundred: 202 calls get through in a minute and a nanosecond. */
  lemma SixtyPerMinuteBreaks(cfg: Config)
    requires cfg.rate == 60 && cfg.burst == 100
    ensures Ordered(Breaker(cfg)) && |Breaker(cfg)| == 202
    ensures Accepted(KeyVerdicts(cfg, true, Breaker(cfg))) == 202
    ensures !KeepsBound(cfg, true)
  {
    hide Verdicts, Accepted;
    assert TimeStep(cfg) == 1000 * MILLISECOND && MaxTime(cfg) == 100_000 * MILLISECOND;
    RepeatsOrdered(101, 101, MINUTE + 1);
    Refilled(TimeStep(cfg), MaxTime(cfg), 101, MINUTE + 1);
    hide KeepsBound;
    WindowBoundTheorem(cfg);
  }

  lemma Scaled(a: int, b: int, step: nat)
    requires a >= b
    ensures a * step >= b * step
  {
    assert (a - b) * step >= 0;
  }

  lemma DivisionBound(a: nat, step: nat, b: int)
    requires step > 0
    ensures a * step <= b <==> a <= b / step
  {
    var q := b / step;
    assert q * step <= b < (q + 1) * step;
    if a > q {
      Scaled(a, q + 1, step);
    } else {
      Scaled(q, a, step);
    }
  }

  /** As a number of calls, for a step that is not zero. */
  predicate FewEnough(step: nat, max: int, verdicts: seq<bool>, times: seq<Clock>, i: nat, j: nat)
    requires step > 0 && |verdicts| == |times| && i < j <= |times|
  {
    Accepted(verdicts[i..j]) <= (max + step + (times[j - 1].since - times[i].since)) / step
  }

  lemma FewEnoughIsAffordable(step: nat, max: int, verdicts: seq<bool>, times: seq<Clock>, i: nat, j: nat)
    requires step > 0 && |verdicts| == |times| && i < j <= |times|
    ensures FewEnough(step, max, verdicts, times, i, j) <==> Affordable(step, max, verdicts, times, i, j)
  {
    DivisionBound(Accepted(verdicts[i..j]), step, max + step + (times[j - 1].since - times[i].since));
  }

  /** Up to 60000 calls a minute: the number of accepted calls is bounded exactly when buckets drain in time. */
  lemma WindowCountTheorem(cfg: Config)
    requires 0 < cfg.rate <= 60_000
    ensures TimeStep(cfg) > 0
    ensures (forall times: seq<Clock>, i: nat, j: nat | Ordered(times) && i < j <= |times| ::
               FewEnough(TimeStep(cfg), MaxTime(cfg), KeyVerdicts(cfg, true, times), times, i, j))
            <==> DrainsInTime(cfg)
  {
    hide KeyVerdicts, Affordable, FewEnough, DrainsInTime;
    StepIsPositive(cfg);
    WindowBoundTheorem(cfg);
    forall times: seq<Clock>, i: nat, j: nat | Ordered(times) && i < j <= |times|
      ensures FewEnough(TimeStep(cfg), MaxTime(cfg), KeyVerdicts(cfg, true, times), times, i, j)
              <==> Affordable(TimeStep(cfg), MaxTime(cfg), KeyVerdicts(cfg, true, times), times, i, j)
    {
      FewEnoughIsAffordable(TimeStep(cfg), MaxTime(cfg), KeyVerdicts(cfg, true, times), times, i, j);
    }
  }

  lemma StepIsPositive(cfg: Config)
    requires cfg.rate > 0
    ensures TimeStep(cfg) > 0 <==> cfg.rate <= 60_000
  {
    var k := 60_000 / cfg.rate;
    if cfg.rate <= 60_000 {
      assert k * cfg.rate + 60_000 % cfg.rate == 60_000;
      assert k > 0;
    }
  }

  // ---------------------------------------------------------------- after a rejection

  /** Not below zero, and last touched by `now`: so much holds of the bucket whatever the height. */
  predicate Level(e: Option<Entry>, now: int) {
    e.Some? ==> e.value.limiter.size >= 0 && e.value.limiter.lastUpdate <= now
  }

  lemma {:induction false} LevelFinal(
    step: nat, max: int, forgets: bool, e: Option<Entry>, times: seq<Clock>, now: int)
    requires Ordered(times) && Level(e, if times == [] then now else times[0].get)
    requires times != [] ==> times[|times| - 1].set_ <= now
    ensures Level(Final(step, max, forgets, e, times), now)
    decreases |times|
  {
    if times != [] {
      assert Ticks(times[0]);
      LevelFinal(step, max, forgets, Some(Call(step, max, forgets, e, times[0]).entry), times[1..], now);
    }
  }

  /** The bucket of a key after a history. */
  function KeyBucket(cfg: Config, times: seq<Clock>): Option<Entry>
    requires cfg.rate > 0
  {
    Final(TimeStep(cfg), MaxTime(cfg), true, None, times)
  }

  lemma {:induction false} FinalConcat(
    step: int, max: int, forgets: bool, e: Option<Entry>, a: seq<Clock>, b: seq<Clock>)
    ensures Final(step, max, forgets, e, a + b) == Final(step, max, forgets, Final(step, max, forgets, e, a), b)
    decreases |a|
  {
    hide Call;
    if a == [] {
      assert a + b == b;
    } else {
      FinalConcat(step, max, forgets, Some(Call(step, max, forgets, e, a[0]).entry), a[1..], b);
      assert (a + b)[1..] == a[1..] + b;
    }
  }

  /** In any history, for any configuration, a rejected call never raises the bucket. */
  lemma RejectionLowers(cfg: Config, times: seq<Clock>, k: nat)
    requires cfg.rate > 0 && Ordered(times) && k < |times| && !KeyVerdicts(cfg, true, times)[k]
    ensures var before, after := KeyBucket(cfg, times[..k]), KeyBucket(cfg, times[..k + 1]);
            before.Some? && after.Some? && after.value.limiter.size <= before.value.limiter.size
  {
    hide Final;
    var step, max, a, now := TimeStep(cfg), MaxTime(cfg), times[..k], times[k];
    var e := Final(step, max, true, None, a);
    assert Ticks(now) && Ordered(a);
    LevelFinal(step, max, true, None, a, now.get);
    assert times[..k + 1] == a + [now];
    FinalConcat(step, max, true, None, a, [now]);
    FirstCall(step, max, true, e, now, []);
    assert [now] + [] == [now] == times[k..k + 1];
    assert Final(step, max, true, Some(Call(step, max, true, e, now).entry), [])
           == Some(Call(step, max, true, e, now).entry) by {
      NoCalls(step, max, Some(Call(step, max, true, e, now).entry));
    }
    VerdictsSlice(step, max, true, times, k, k + 1);
    assert KeyVerdicts(cfg, true, times)[k] == KeyVerdicts(cfg, true, times)[k..k + 1][0];
  }

  lemma NoCalls(step: int, max: int, e: Option<Entry>)
    ensures Final(step, max, true, e, []) == e
  {
  }

  /** A call that comes a TimeStep after a rejected one is accepted, in every history. */
  ghost predicate Heals(cfg: Config)
    requires cfg.rate > 0
  {
    forall times: seq<Clock>, k: nat | Ordered(times) && k + 1 < |times| && !KeyVerdicts(cfg, true, times)[k]
                                       && times[k + 1].since >= times[k].update + TimeStep(cfg) ::
      KeyVerdicts(cfg, true, times)[k + 1]
  }

  /** The two calls in question, on the bucket that the history has left. */
  lemma CallHeals(step: nat, max: nat, e: Option<Entry>, now: Clock, later: Clock)
    requires Ordered([now, later]) && Sane(step, max, e, now.get) && later.since >= now.update + step
    requires !Verdicts(step, max, true, e, [now, later])[0]
    ensures Verdicts(step, max, true, e, [now, later])[1]
  {
    assert Ticks([now, later][0]);
    var v := Call(step, max, true, e, now);
    assert [now] + [later] == [now, later] && [later] + [] == [later];
    FirstCall(step, max, true, e, now, [later]);
    FirstCall(step, max, true, Some(v.entry), later, []);
  }

  /** With a negative height the second call is refused, and so is one a TimeStep later. */
  lemma NegativeNeverHeals(step: nat, max: int)
    requires max < 0 && step <= MINUTE
    ensures var verdicts := Verdicts(step, max, true, None, [At(0), At(0), At(step)]); !verdicts[1] && !verdicts[2]
  {
    var a, b := At(0), At(step);
    var e := Some(Filled(step, 0));
    assert [a] + [a, b] == [a, a, b] && [a] + [b] == [a, b] && [b] + [] == [b];
    FirstCall(step, max, true, None, a, [a, b]);
    FirstCall(step, max, true, e, a, [b]);
    FirstCall(step, max, true, e, b, []);
  }

  lemma StepWithinMinute(cfg: Config)
    requires cfg.rate > 0
    ensures TimeStep(cfg) <= MINUTE
  {
    var k := 60_000 / cfg.rate;
    assert k <= 60_000;
  }

  /** Rejections heal within a TimeStep in all histories exactly when the burst does not make the height negative. */
  lemma RejectionHealsTheorem(cfg: Config)
    requires cfg.rate > 0
    ensures Heals(cfg) <==> MaxTime(cfg) >= 0
  {
    hide Verdicts, Final;
    var step, max := TimeStep(cfg), MaxTime(cfg);
    if max >= 0 {
      forall times: seq<Clock>, k: nat | Ordered(times) && k + 1 < |times| && !KeyVerdicts(cfg, true, times)[k]
                                         && times[k + 1].since >= times[k].update + step
        ensures KeyVerdicts(cfg, true, times)[k + 1]
      {
        var a, pair := times[..k], times[k..k + 2];
        assert pair == [times[k], times[k + 1]] && Ordered(a) && Ordered(pair);
        SaneFinal(step, max, true, None, a, times[k].get);
        VerdictsSlice(step, max, true, times, k, k + 2);
        var both := KeyVerdicts(cfg, true, times)[k..k + 2];
        assert both[0] == KeyVerdicts(cfg, true, times)[k] && both[1] == KeyVerdicts(cfg, true, times)[k + 1];
        CallHeals(step, max, Final(step, max, true, None, a), times[k], times[k + 1]);
      }
    } else {
      StepWithinMinute(cfg);
      NegativeNeverHeals(step, max);
      var times := [At(0), At(0), At(step)];
      assert Ordered(times) && times[2].since >= times[1].update + step;
      assert !KeyVerdicts(cfg, true, times)[1] && !KeyVerdicts(cfg, true, times)[1 + 1];
    }
  }

  // ---------------------------------------------------------------- a limiter that limits nothing

  lemma {:induction false} StepZeroAccepts(forgets: bool, e: Option<Entry>, times: seq<Clock>)
    requires Ordered(times) && (times != [] ==> Sane(0, 0, e, times[0].get))
    ensures forall k | 0 <= k < |times| :: Verdicts(0, 0, forgets, e, times)[k]
    decreases |times|
  {
    if times != [] {
      assert Ticks(times[0]);
      var v := Call(0, 0, forgets, e, times[0]);
      StepZeroAccepts(forgets, Some(v.entry), times[1..]);
      var rest := Verdicts(0, 0, forgets, Some(v.entry), times[1..]);
      assert Verdicts(0, 0, forgets, e, times) == [v.accepted] + rest;
    }
  }

  /** One call too many at one instant is refused. */
  lemma Overfill(step: nat, max: int, n: nat)
    requires n == 1 || (n > 1 && (n - 1) * step <= max)
    requires n * step > max
    ensures !Verdicts(step, max, true, None, Repeat(n, 0) + Repeat(1, 0))[n]
  {
    hide Verdicts, Final;
    Fill(step, max, true, n, 0);
    VerdictsConcat(step, max, true, None, Repeat(n, 0), Repeat(1, 0));
    assert Repeat(1, 0) == [At(0)] + [];
    assert n * step >= 0;
    FirstCall(step, max, true, Some(Filled(n * step, 0)), At(0), []);
  }

  ghost predicate RefusesNothing(cfg: Config)
    requires cfg.rate > 0
  {
    forall times, k: nat | Ordered(times) && k < |times| :: KeyVerdicts(cfg, true, times)[k]
  }

  /** The step is a whole number of milliseconds: above 60000 calls a minute it is zero, and nothing is refused. */
  lemma RefusesNothingTheorem(cfg: Config)
    requires cfg.rate > 0
    ensures RefusesNothing(cfg) <==> cfg.rate > 60_000
  {
    hide Verdicts;
    StepIsPositive(cfg);
    var step, max := TimeStep(cfg), MaxTime(cfg);
    if cfg.rate > 60_000 {
      assert step == 0 && max == 0;
      forall times, k: nat | Ordered(times) && k < |times| ensures KeyVerdicts(cfg, true, times)[k] {
        StepZeroAccepts(true, None, times);
      }
    } else {
      var n := if cfg.burst < 0 then 1 else cfg.burst + 1;
      Overflowing(step, cfg.burst);
      RepeatsOrdered(n, 1, 0);
      Overfill(step, max, n);
      assert !KeyVerdicts(cfg, true, Repeat(n, 0) + Repeat(1, 0))[n];
    }
  }

  lemma Overflowing(step: nat, burst: int)
    requires step > 0
    ensures var n := if burst < 0 then 1 else burst + 1;
            (n == 1 || (n - 1) * step <= step * burst) && n * step > step * burst
  {
  }

  // ---------------------------------------------------------------- is forgetting seen at all

  /** If all calls at one instant get through, the bucket had room for them. */
  lemma {:induction false} RoomForAll(step: nat, max: int, e: Entry, t: int, n: nat)
    requires n > 0 && forall i | 0 <= i < n :: Verdicts(step, max, false, Some(e), Repeat(n, t))[i]
    ensures Drained(e.limiter, t) + (n - 1) * step <= max
    decreases n
  {
    var v := Call(step, max, false, Some(e), At(t));
    var rest := Verdicts(step, max, false, Some(v.entry), Repeat(n - 1, t));
    assert Repeat(n, t)[1..] == Repeat(n - 1, t);
    assert Verdicts(step, max, false, Some(e), Repeat(n, t)) == [v.accepted] + rest;
    assert Verdicts(step, max, false, Some(e), Repeat(n, t))[0];
    if n > 1 {
      forall i | 0 <= i < n - 1 ensures rest[i] {
        assert ([v.accepted] + rest)[i + 1] == rest[i];
      }
      RoomForAll(step, max, v.entry, t, n - 1);
      Times(n - 2, step);
    }
  }

  /** Fill the bucket, wait until the cache forgets it, and fill it again. */
  lemma ForgettingVisible(cfg: Config) returns (times: seq<Clock>)
    requires cfg.rate > 0 && !DrainsInTime(cfg)
    ensures Ordered(times) && KeyVerdicts(cfg, true, times) != KeyVerdicts(cfg, false, times)
  {
    hide Verdicts;
    var step, max, t := TimeStep(cfg), MaxTime(cfg), MINUTE + 1;
    var n := 1;
    if max >= 0 {
      WholeMilliseconds(cfg);
      NonNegativeFactor(step, cfg.burst);
      n := cfg.burst + 1;
    }
    times := Repeat(n, 0) + Repeat(n, t);
    RepeatsOrdered(n, n, t);
    RefillSeen(step, max, n, t);
  }

  lemma RefillSeen(step: nat, max: int, n: nat, t: int)
    requires n == 1 || (n > 1 && (n - 1) * step == max)
    requires t > MINUTE && (max < 0 || n * step > t) && (n == 1 ==> max <= 0)
    ensures var times := Repeat(n, 0) + Repeat(n, t);
            Verdicts(step, max, true, None, times) != Verdicts(step, max, false, None, times)
  {
    hide Verdicts, Final;
    var a, b := Repeat(n, 0), Repeat(n, t);
    var e := Filled(n * step, 0);
    Fill(step, max, true, n, 0);
    Fill(step, max, false, n, 0);
    Fill(step, max, true, n, t);
    VerdictsConcat(step, max, true, None, a, b);
    VerdictsConcat(step, max, false, None, a, b);
    ForgottenIsFresh(step, max, e, b);
    var kept, anew := Verdicts(step, max, false, Some(e), b), Verdicts(step, max, true, Some(e), b);
    if Verdicts(step, max, true, None, a + b) == Verdicts(step, max, false, None, a + b) {
      assert kept == (Verdicts(step, max, false, None, a) + kept)[n..];
      assert anew == (Verdicts(step, max, true, None, a) + anew)[n..];
      RoomForAll(step, max, e, t, n);
    }
  }

  /** Forgetting idle keys changes no verdict of any history exactly when every bucket drains in time. */
  lemma ForgettingTheorem(cfg: Config)
    requires cfg.rate > 0
    ensures (forall times | Ordered(times) :: KeyVerdicts(cfg, true, times) == KeyVerdicts(cfg, false, times))
            <==> DrainsInTime(cfg)
  {
    hide Verdicts;
    if DrainsInTime(cfg) {
      forall times | Ordered(times) ensures KeyVerdicts(cfg, true, times) == KeyVerdicts(cfg, false, times) {
        ForgettingInvisible(TimeStep(cfg), MaxTime(cfg), None, times);
      }
    } else {
      var times := ForgettingVisible(cfg);
    }
  }

  /** A burst smaller than the rate is enough. */
  lemma BurstBelowRate(cfg: Config)
    requires 0 <= cfg.burst && cfg.burst + 1 <= cfg.rate
    ensures DrainsInTime(cfg)
  {
    var k := 60_000 / cfg.rate;
    ScaleUp(cfg.burst + 1, cfg.rate, k);
    assert MaxTime(cfg) + TimeStep(cfg) == ((cfg.burst + 1) * k) * MILLISECOND by {
      Regroup(k, MILLISECOND, cfg.burst);
    }
  }

  lemma ScaleUp(a: nat, b: nat, k: nat)
    requires a <= b && b > 0 && k == 60_000 / b
    ensures a * k <= b * k <= 60_000
  {
    assert (b - a) * k >= 0;
  }

  lemma Regroup(k: int, m: int, burst: int)
    ensures (k * m) * burst + k * m == ((burst + 1) * k) * m
  {
  }

  // ---------------------------------------------------------------- many keys

  function Only<T>(key: string, calls: seq<(string, T)>): seq<T> {
    if calls == [] then [] else (if calls[0].0 == key then [calls[0].1] else []) + Only(key, calls[1..])
  }

  /** Keys are independent: each sees exactly the verdicts it would get alone. */
  lemma {:induction false} KeysAreIndependent(
    cfg: Config, buckets: Buckets, calls: seq<(string, Clock)>, key: string)
    requires cfg.rate > 0 && !Listed(cfg, key)
    ensures Only(key, Serve(cfg, buckets, calls)) ==
            Verdicts(TimeStep(cfg), MaxTime(cfg), true, Bucket(buckets, key), Only(key, calls))
    decreases |calls|
  {
    hide Call;
    if calls != [] {
      var (k, now) := calls[0];
      var v := Call(TimeStep(cfg), MaxTime(cfg), true, Bucket(buckets, k), now);
      var after := if Listed(cfg, k) then buckets else buckets[k := v.entry];
      var served := Serve(cfg, buckets, calls);
      KeysAreIndependent(cfg, after, calls[1..], key);
      assert served[1..] == Serve(cfg, after, calls[1..]);
      if k == key {
        assert Only(key, calls)[1..] == Only(key, calls[1..]);
      } else {
        assert [] + Only(key, calls[1..]) == Only(key, calls[1..]);
      }
    }
  }

  /** A server that starts afresh serves each key that is not listed as the theorems about one key say. */
  lemma ServedAlone(cfg: Config, calls: seq<(string, Clock)>, key: string)
    requires cfg.rate > 0 && !Listed(cfg, key)
    ensures Only(key, Serve(cfg, map[], calls)) == KeyVerdicts(cfg, true, Only(key, calls))
  {
    KeysAreIndependent(cfg, map[], calls, key);
  }

  /** A disabled limiter serves everyone; else black-listed keys are never served and white-listed ones always. */
  lemma {:induction false} ListedServed(cfg: Config, buckets: Buckets, calls: seq<(string, Clock)>, i: nat)
    requires cfg.rate > 0 && i < |calls|
    ensures var key, r := calls[i].0, Serve(cfg, buckets, calls)[i];
            && r.0 == key
            && (!cfg.enable ==> r.1)
            && (cfg.enable && key in cfg.blackList ==> !r.1)
            && (cfg.enable && key !in cfg.blackList && key in cfg.whiteList ==> r.1)
    decreases |calls|
  {
    hide Call;
    var (k, now) := calls[0];
    var v := Call(TimeStep(cfg), MaxTime(cfg), true, Bucket(buckets, k), now);
    var after := if Listed(cfg, k) then buckets else buckets[k := v.entry];
    if i > 0 {
      ListedServed(cfg, after, calls[1..], i - 1);
      assert Serve(cfg, buckets, calls)[1..] == Serve(cfg, after, calls[1..]);
    }
  }

  /** A bucket is remembered for sixty seconds after the call that set it, to the nanosecond. */
  lemma RemembersForAMinute(step: int, max: int, e: Option<Entry>, now: Clock, later: Clock)
    ensures var left := Call(step, max, true, e, now).entry;
            && (later.get <= now.set_ + 60_000_000_000 ==>
                  Call(step, max, true, Some(left), later) == Call(step, max, false, Some(left), later))
            && (later.get > now.set_ + 60_000_000_000 ==>
                  Call(step, max, true, Some(left), later) == Call(step, max, true, None, later))
  {
  }
}
