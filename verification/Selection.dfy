/**
 Choosing and ordering the addresses of an answer (`filter` and `orderIps` of
 internal/resolver/handler.go, with the random numbers of internal/resolver/rng.go).
 */
module Selection {
  import opened Masks
  import opened Wrappers
  import Geo

  datatype Address = Address(weight: int, ip: string, country: seq<string>, asn: seq<nat>)

  datatype FilterConfig = FilterConfig(count: string, order: string, geoFilter: string)

  // ---------------------------------------------------------------- random numbers

  const MODULUS := 0x7fff_ffff
  const MULTIPLIER := 48271
  const INVERSE := 1899818559

  /** The draw for a clock whose nanosecond field reads `nanos`, below 10^9, so that 64 bits suffice. */
  function LehmerRandom(nanos: nat, max: int): (r: nat)
    requires max > 0
    ensures r < max
  {
    ((nanos * MULTIPLIER) % MODULUS) % max
  }

  /** Some draws by their numbers. */
  lemma LehmerValues()
    ensures LehmerRandom(1, 100_000) == 48_271 && LehmerRandom(2, 5) == 2
    ensures LehmerRandom(50_000, 2_147_483_647) == 266_066_353
  {
  }

  lemma Congruent(a: int, b: int, m: int)
    requires m > 0 && a % m == b % m
    ensures exists k :: a - b == k * m
  {
    assert a == (a / m) * m + a % m && b == (b / m) * m + b % m;
    assert a - b == (a / m - b / m) * m by {
      assert (a / m - b / m) * m == (a / m) * m - (b / m) * m;
    }
  }

  lemma Grows(k: nat, m: nat)
    ensures (k + 1) * m >= m
  {
  }

  /** Multiplying by the inverse of `a` modulo `m` takes `d * a` back to `d`. */
  lemma Cancel(d: int, a: int, inverse: int, k: int, q: int, m: int)
    requires d * a == k * m && a * inverse == q * m + 1
    ensures d == (k * inverse - q * d) * m
  {
    calc {
      d;
      d * (a * inverse) - d * (q * m);
      { assert d * (a * inverse) == (d * a) * inverse; }
      (k * m) * inverse - d * (q * m);
      (k * inverse - q * d) * m;
    }
  }

  lemma SmallMultiple(d: int, k: int, m: int)
    requires m > 0 && d == k * m && -m < d < m
    ensures d == 0
  {
    if k > 0 {
      Grows(k - 1, m);
    } else if k < 0 {
      Grows(-k - 1, m);
    }
  }

  /** Before the reduction to the range, different clock readings give different numbers. */
  lemma LehmerInjective(a: nat, b: nat)
    requires a < MODULUS && b < MODULUS
    requires LehmerRandom(a, MODULUS) == LehmerRandom(b, MODULUS)
    ensures a == b
  {
    Congruent(a * MULTIPLIER, b * MULTIPLIER, MODULUS);
    var k :| a * MULTIPLIER - b * MULTIPLIER == k * MODULUS;
    var q := (MULTIPLIER * INVERSE - 1) / MODULUS;
    Cancel(a - b, MULTIPLIER, INVERSE, k, q, MODULUS);
    SmallMultiple(a - b, k * INVERSE - q * (a - b), MODULUS);
  }

  // ---------------------------------------------------------------- picking a record

  /** The total weight of the candidates. */
  function Total(mask: seq<int>, weights: seq<int>): int
    requires |mask| == |weights|
  {
    if mask == [] then 0 else
      var n := |mask| - 1;
      Total(mask[..n], weights[..n]) + if mask[n] == WHITE then weights[n] else 0
  }

  function Before(mask: seq<int>, weights: seq<int>, i: nat): int
    requires |mask| == |weights| && i <= |mask|
  {
    Total(mask[..i], weights[..i])
  }

  lemma BeforeNext(mask: seq<int>, weights: seq<int>, i: nat)
    requires |mask| == |weights| && i < |mask|
    ensures Before(mask, weights, i + 1) == Before(mask, weights, i) + if mask[i] == WHITE then weights[i] else 0
  {
    assert mask[..i + 1][..i] == mask[..i] && weights[..i + 1][..i] == weights[..i];
  }

  /** Draw `s` picks the first candidate at which the running weight exceeds `s`. */
  predicate Picks(mask: seq<int>, weights: seq<int>, s: int, i: int)
    requires |mask| == |weights|
  {
    && 0 <= i < |mask| && mask[i] == WHITE && Before(mask, weights, i + 1) > s
    && forall j | 0 <= j < i && mask[j] == WHITE :: Before(mask, weights, j + 1) <= s
  }

  predicate NonNegative(weights: seq<int>) {
    forall i | 0 <= i < |weights| :: weights[i] >= 0
  }

  lemma {:induction false} BeforeGrows(mask: seq<int>, weights: seq<int>, i: nat, j: nat)
    requires |mask| == |weights| && i <= j <= |mask| && NonNegative(weights)
    ensures Before(mask, weights, i) <= Before(mask, weights, j)
    decreases j
  {
    hide Before;
    if i < j {
      BeforeGrows(mask, weights, i, j - 1);
      BeforeNext(mask, weights, j - 1);
    }
  }

  lemma BeforeEnds(mask: seq<int>, weights: seq<int>)
    requires |mask| == |weights|
    ensures Before(mask, weights, 0) == 0 && Before(mask, weights, |mask|) == Total(mask, weights)
  {
    assert mask[..|mask|] == mask && weights[..|mask|] == weights;
  }

  /** Without negative weights the draws that pick a record form an interval as long as its weight. */
  lemma PicksInterval(mask: seq<int>, weights: seq<int>, s: nat, i: nat)
    requires |mask| == |weights| && i < |mask| && mask[i] == WHITE && NonNegative(weights)
    ensures Picks(mask, weights, s, i) <==> Before(mask, weights, i) <= s < Before(mask, weights, i) + weights[i]
  {
    hide Before;
    BeforeNext(mask, weights, i);
    if Before(mask, weights, i) <= s {
      forall j | 0 <= j < i && mask[j] == WHITE ensures Before(mask, weights, j + 1) <= s {
        BeforeGrows(mask, weights, j + 1, i);
      }
    } else {
      var j := LastCandidate(mask, weights, s, i);
    }
  }

  /** If the running weight before `i` exceeds `s`, it already did so at an earlier candidate. */
  lemma {:induction false} LastCandidate(mask: seq<int>, weights: seq<int>, s: nat, i: nat) returns (j: nat)
    requires |mask| == |weights| && i <= |mask| && Before(mask, weights, i) > s
    ensures j < i && mask[j] == WHITE && Before(mask, weights, j + 1) > s
    decreases i
  {
    hide Before;
    BeforeEnds(mask, weights);
    BeforeNext(mask, weights, i - 1);
    if mask[i - 1] == WHITE {
      j := i - 1;
    } else {
      j := LastCandidate(mask, weights, s, i - 1);
    }
  }

  /** How many of the draws below `n` pick record `i`. */
  function Draws(mask: seq<int>, weights: seq<int>, i: int, n: nat): nat
    requires |mask| == |weights|
    decreases n
  {
    if n == 0 then 0 else Draws(mask, weights, i, n - 1) + if Picks(mask, weights, n - 1, i) then 1 else 0
  }

  lemma {:induction false} DrawsBelow(mask: seq<int>, weights: seq<int>, i: nat, n: nat)
    requires |mask| == |weights| && i < |mask| && mask[i] == WHITE && NonNegative(weights)
    ensures var low, w := Before(mask, weights, i), weights[i];
            Draws(mask, weights, i, n) == if n <= low then 0 else if n <= low + w then n - low else w
    decreases n
  {
    hide Before, Picks;
    if n > 0 {
      DrawsBelow(mask, weights, i, n - 1);
      PicksInterval(mask, weights, n - 1, i);
    } else {
      BeforeEnds(mask, weights);
      BeforeGrows(mask, weights, 0, i);
    }
  }

  /** Fairness: out of all possible draws, exactly as many as its weight pick a candidate. */
  lemma WeightedIsFair(mask: seq<int>, weights: seq<int>, i: nat)
    requires |mask| == |weights| && i < |mask| && mask[i] == WHITE && NonNegative(weights)
    ensures Total(mask, weights) >= 0
    ensures Draws(mask, weights, i, Total(mask, weights)) == weights[i]
  {
    hide Before, Picks;
    BeforeEnds(mask, weights);
    BeforeGrows(mask, weights, 0, i);
    BeforeGrows(mask, weights, i + 1, |mask|);
    BeforeNext(mask, weights, i);
    DrawsBelow(mask, weights, i, Total(mask, weights));
  }

  /** Whatever the weights, negative ones included, a draw below the total picks exactly one record. */
  lemma {:induction false} PickExists(mask: seq<int>, weights: seq<int>, s: nat, n: nat) returns (i: nat)
    requires |mask| == |weights| && n <= |mask| && s < Before(mask, weights, n)
    ensures i < n && Picks(mask, weights, s, i)
    ensures forall k | Picks(mask, weights, s, k) :: k == i
    decreases n
  {
    hide Before;
    var j := LastCandidate(mask, weights, s, n);
    if k :| 0 <= k < j && mask[k] == WHITE && Before(mask, weights, k + 1) > s {
      i := PickExists(mask, weights, s, k + 1);
    } else {
      i := j;
    }
  }

  function Ones(n: nat): seq<int> {
    seq(n, _ => 1)
  }

  function Weights(data: seq<Address>): (w: seq<int>)
    ensures |w| == |data| && forall i | 0 <= i < |data| :: w[i] == data[i].weight
  {
    seq(|data|, i requires 0 <= i < |data| => data[i].weight)
  }

  // ---------------------------------------------------------------- ordering

  /** `at` lists, in order, exactly the candidates from position `lo` up to position `hi`. */
  ghost predicate Between(mask: seq<int>, lo: nat, hi: nat, at: seq<nat>) {
    && (forall k | 0 <= k < |at| :: lo <= at[k] < hi <= |mask| && mask[at[k]] == WHITE)
    && (forall j, k | 0 <= j < k < |at| :: at[j] < at[k])
    && (forall i | lo <= i < hi <= |mask| && mask[i] == WHITE :: i in at)
  }

  /** The addresses at these positions. */
  predicate Reads(data: seq<Address>, at: seq<nat>, ips: seq<string>) {
    |ips| == |at| && forall k | 0 <= k < |at| :: at[k] < |data| && ips[k] == data[at[k]].ip
  }

  lemma BetweenNext(mask: seq<int>, lo: nat, hi: nat, at: seq<nat>)
    requires Between(mask, lo, hi, at) && lo <= hi < |mask|
    ensures Between(mask, lo, hi + 1, if mask[hi] == WHITE then at + [hi] else at)
  {
    var at' := if mask[hi] == WHITE then at + [hi] else at;
    forall i | lo <= i < hi + 1 && mask[i] == WHITE ensures i in at' {
      if i == hi {
        assert at'[|at|] == i;
      }
    }
  }

  lemma NoneBetween(data: seq<Address>, mask: seq<int>, lo: nat)
    ensures Between(mask, lo, lo, []) && Reads(data, [], [])
  {
  }

  lemma ReadsNext(data: seq<Address>, at: seq<nat>, ips: seq<string>, i: nat)
    requires Reads(data, at, ips) && i < |data|
    ensures Reads(data, at + [i], ips + [data[i].ip])
  {
  }

  lemma BetweenJoin(mask: seq<int>, mid: nat, a: seq<nat>, b: seq<nat>)
    requires mid <= |mask| && Between(mask, 0, mid, a) && Between(mask, mid, |mask|, b)
    ensures Between(mask, 0, |mask|, a + b)
  {
  }

  /** The weights a draw is compared with, if the order draws at all. */
  function Drawn(order: string, data: seq<Address>, mask: seq<int>): Option<seq<int>>
    requires |data| == |mask|
  {
    var total := Total(mask, Weights(data));
    if order == "weighted" && total > 0 then Some(Weights(data))
    else if order == "rr" || (order == "weighted" && total == 0) then Some(Ones(|data|))
    else None
  }

  lemma {:induction false} TotalOfOnes(mask: seq<int>)
    ensures Total(mask, Ones(|mask|)) == Geo.Whites(mask)
  {
    if mask != [] {
      TotalOfOnes(mask[..|mask| - 1]);
      assert Ones(|mask|)[..|mask| - 1] == Ones(|mask| - 1);
    }
  }

  /** Round robin: each candidate is picked by exactly one draw. */
  lemma RoundRobinIsFair(mask: seq<int>, i: nat)
    requires i < |mask| && mask[i] == WHITE
    ensures Draws(mask, Ones(|mask|), i, Geo.Whites(mask)) == 1
  {
    TotalOfOnes(mask);
    WeightedIsFair(mask, Ones(|mask|), i);
  }

  method Tally(data: seq<Address>, mask: seq<int>) returns (sum: int, count: nat)
    requires |data| == |mask|
    ensures sum == Total(mask, Weights(data)) && count == Geo.Whites(mask)
  {
    sum, count := 0, 0;
    ghost var weights := Weights(data);
    for i := 0 to |mask|
      invariant sum == Total(mask[..i], weights[..i]) && count == Geo.Whites(mask[..i])
    {
      assert mask[..i + 1][..i] == mask[..i] && weights[..i + 1][..i] == weights[..i];
      if mask[i] == WHITE {
        count := count + 1;
        sum := sum + data[i].weight;
      }
    }
    assert mask[..|mask|] == mask && weights[..|mask|] == weights;
  }

  method PickWeighted(data: seq<Address>, mask: seq<int>, draw: nat) returns (index: int)
    requires |data| == |mask| && draw < Total(mask, Weights(data))
    ensures Picks(mask, Weights(data), draw, index)
  {
    hide Before;
    ghost var weights := Weights(data);
    var s: int := draw;
    BeforeEnds(mask, weights);
    for i := 0 to |mask|
      invariant s == draw - Before(mask, weights, i)
      invariant s >= 0
      invariant forall j | 0 <= j < i && mask[j] == WHITE :: Before(mask, weights, j + 1) <= draw
    {
      BeforeNext(mask, weights, i);
      if mask[i] == WHITE {
        s := s - data[i].weight;
        if s < 0 {
          return i;
        }
      }
    }
    index := -1;
    assert false;
  }

  method PickRotating(mask: seq<int>, draw: nat) returns (index: int)
    requires draw < Geo.Whites(mask)
    ensures Picks(mask, Ones(|mask|), draw, index)
  {
    hide Before;
    ghost var weights := Ones(|mask|);
    var r: int := draw;
    BeforeEnds(mask, weights);
    TotalOfOnes(mask);
    for i := 0 to |mask|
      invariant r == draw - Before(mask, weights, i)
      invariant r >= 0
      invariant forall j | 0 <= j < i && mask[j] == WHITE :: Before(mask, weights, j + 1) <= draw
    {
      BeforeNext(mask, weights, i);
      if mask[i] == WHITE {
        if r == 0 {
          return i;
        }
        r := r - 1;
      }
    }
    index := -1;
    assert false;
  }

  lemma {:induction false} NoWhites(mask: seq<int>)
    requires forall i | 0 <= i < |mask| :: mask[i] != WHITE
    ensures Geo.Whites(mask) == 0
  {
    if mask != [] {
      NoWhites(mask[..|mask| - 1]);
    }
  }

  method PickFirst(mask: seq<int>) returns (index: int)
    requires Geo.Whites(mask) > 0
    ensures 0 <= index < |mask| && mask[index] == WHITE && forall j | 0 <= j < index :: mask[j] != WHITE
  {
    for i := 0 to |mask|
      invariant forall j | 0 <= j < i :: mask[j] != WHITE
    {
      if mask[i] == WHITE {
        return i;
      }
    }
    index := -1;
    NoWhites(mask);
    assert false;
  }

  method Gather(data: seq<Address>, mask: seq<int>, from: nat, to: nat)
    returns (result: seq<string>, ghost at: seq<nat>)
    requires |data| == |mask| && from <= to <= |mask|
    ensures Between(mask, from, to, at) && Reads(data, at, result)
  {
    hide Between, Reads;
    result, at := [], [];
    NoneBetween(data, mask, from);
    for i := from to to
      invariant Between(mask, from, i, at) && Reads(data, at, result)
    {
      BetweenNext(mask, from, i, at);
      ReadsNext(data, at, result, i);
      if mask[i] == WHITE {
        result, at := result + [data[i].ip], at + [i];
      }
    }
  }

  /** The candidates from `index` on, then those before it. */
  ghost predicate Cyclic(data: seq<Address>, mask: seq<int>, index: nat, result: seq<string>) {
    exists later, earlier ::
      && Between(mask, index, |mask|, later) && Between(mask, 0, index, earlier) && Reads(data, later + earlier, result)
  }

  /** Record `index` heads the answer: alone, or followed by all other candidates in cyclic order. */
  ghost predicate Heads(data: seq<Address>, mask: seq<int>, single: bool, index: int, result: seq<string>)
    requires |data| == |mask|
  {
    && 0 <= index < |data| && mask[index] == WHITE
    && if single then result == [data[index].ip] else Cyclic(data, mask, index, result)
  }

  method Emit(data: seq<Address>, mask: seq<int>, single: bool, index: nat) returns (result: seq<string>)
    requires |data| == |mask| && index < |data| && mask[index] == WHITE
    ensures Heads(data, mask, single, index, result)
  {
    hide Between;
    if single {
      result := [data[index].ip];
    } else {
      ghost var later, earlier;
      var head;
      result, later := Gather(data, mask, index, |mask|);
      head, earlier := Gather(data, mask, 0, index);
      result := result + head;
      assert Reads(data, later + earlier, result);
    }
  }

  /** The record that goes first. */
  ghost predicate Leads(data: seq<Address>, mask: seq<int>, order: string, nanos: nat, index: int)
    requires |data| == |mask|
  {
    match Drawn(order, data, mask)
    case Some(weights) =>
      && |weights| == |mask| && Total(mask, weights) > 0
      && Picks(mask, weights, LehmerRandom(nanos, Total(mask, weights)), index)
    case None => 0 <= index < |mask| && mask[index] == WHITE && forall j | 0 <= j < index :: mask[j] != WHITE
  }

  ghost predicate Ordered(data: seq<Address>, mask: seq<int>, config: FilterConfig, nanos: nat, result: seq<string>)
    requires |data| == |mask|
  {
    if Geo.Whites(mask) == 0 then result == []
    else
      exists index ::
        Leads(data, mask, config.order, nanos, index) && Heads(data, mask, config.count == "single", index, result)
  }

  method OrderIps(data: seq<Address>, mask: seq<int>, config: FilterConfig, nanos: nat) returns (result: seq<string>)
    requires |data| == |mask|
    ensures Ordered(data, mask, config, nanos, result)
  {
    hide Before, Total, Heads, Picks, Geo.Whites;
    var sum, count := Tally(data, mask);
    result := [];
    if count == 0 {
      return;
    }
    TotalOfOnes(mask);
    var index := -1;
    if config.order == "weighted" && sum > 0 {
      var s := LehmerRandom(nanos, sum);
      index := PickWeighted(data, mask, s);
    } else if config.order == "rr" || (config.order == "weighted" && sum == 0) {
      var r := LehmerRandom(nanos, count);
      index := PickRotating(mask, r);
    } else {
      index := PickFirst(mask);
    }
    assert Leads(data, mask, config.order, nanos, index);
    assert 0 <= index < |mask| && mask[index] == WHITE by {
      PicksWhite(mask, Weights(data), LehmerRandom(nanos, if sum > 0 then sum else 1), index);
      PicksWhite(mask, Ones(|mask|), LehmerRandom(nanos, count), index);
    }
    result := Emit(data, mask, config.count == "single", index);
  }

  lemma PicksWhite(mask: seq<int>, weights: seq<int>, s: int, index: int)
    requires |mask| == |weights|
    ensures Picks(mask, weights, s, index) ==> 0 <= index < |mask| && mask[index] == WHITE
  {
  }

  /** A full answer is the list of all candidates, rotated so that the picked one is first. */
  lemma RotationConserves(data: seq<Address>, mask: seq<int>, index: nat, result: seq<string>)
    returns (all: seq<nat>, p: nat)
    requires |data| == |mask| && Heads(data, mask, false, index, result)
    ensures Between(mask, 0, |mask|, all) && p < |all| && all[p] == index
    ensures Reads(data, all[p..] + all[..p], result)
  {
    hide Reads;
    var later, earlier :|
      Between(mask, index, |mask|, later) && Between(mask, 0, index, earlier) && Reads(data, later + earlier, result);
    BetweenJoin(mask, index, earlier, later);
    all, p := earlier + later, |earlier|;
    assert all[p..] == later && all[..p] == earlier;
    assert index in later;
  }

  lemma {:induction false} SomeWhite(mask: seq<int>)
    ensures Geo.Whites(mask) > 0 <==> exists i :: 0 <= i < |mask| && mask[i] == WHITE
  {
    if mask != [] {
      var n := |mask| - 1;
      SomeWhite(mask[..n]);
      if i :| 0 <= i < |mask| && mask[i] == WHITE {
        assert i < n ==> mask[..n][i] == WHITE;
      }
    }
  }

  /** What is returned: nothing without candidates, one candidate for "single", and otherwise each of them once. */
  ghost predicate Returns(data: seq<Address>, mask: seq<int>, count: string, result: seq<string>)
    requires |data| == |mask|
  {
    if forall i | 0 <= i < |mask| :: mask[i] != WHITE then result == []
    else if count == "single" then exists i | 0 <= i < |mask| :: mask[i] == WHITE && result == [data[i].ip]
    else exists all, p: nat :: Between(mask, 0, |mask|, all) && p < |all| && Reads(data, all[p..] + all[..p], result)
  }

  lemma OrderedReturns(data: seq<Address>, mask: seq<int>, config: FilterConfig, nanos: nat, result: seq<string>)
    requires |data| == |mask| && Ordered(data, mask, config, nanos, result)
    ensures Returns(data, mask, config.count, result)
  {
    hide Leads, Geo.Whites, Between, Reads, Cyclic;
    SomeWhite(mask);
    if Geo.Whites(mask) > 0 {
      var index :|
        Leads(data, mask, config.order, nanos, index) && Heads(data, mask, config.count == "single", index, result);
      if config.count != "single" {
        var all, p := RotationConserves(data, mask, index, result);
      }
    }
  }

  // ---------------------------------------------------------------- who is first, by the configured order

  /** With `draw` out of the range of draws, record `i` goes first. */
  ghost predicate FirstOn(data: seq<Address>, mask: seq<int>, order: string, draw: nat, i: int)
    requires |data| == |mask|
  {
    match Drawn(order, data, mask)
    case Some(weights) => |weights| == |mask| && Picks(mask, weights, draw, i)
    case None => 0 <= i < |mask| && mask[i] == WHITE && forall j | 0 <= j < i :: mask[j] != WHITE
  }

  function Range(order: string, data: seq<Address>, mask: seq<int>): int
    requires |data| == |mask|
  {
    match Drawn(order, data, mask)
    case Some(weights) => if |weights| == |mask| then Total(mask, weights) else 0
    case None => 1
  }

  lemma LeadsIsFirstOn(data: seq<Address>, mask: seq<int>, order: string, nanos: nat, i: int)
    requires |data| == |mask| && Range(order, data, mask) > 0
    ensures Leads(data, mask, order, nanos, i) <==>
            FirstOn(data, mask, order, LehmerRandom(nanos, Range(order, data, mask)), i)
  {
    hide Picks, Total;
  }

  /** How many draws below `n` put record `i` first. */
  ghost function FirstDraws(data: seq<Address>, mask: seq<int>, order: string, i: int, n: nat): nat
    requires |data| == |mask|
    decreases n
  {
    if n == 0 then 0
    else FirstDraws(data, mask, order, i, n - 1) + if FirstOn(data, mask, order, n - 1, i) then 1 else 0
  }

  lemma {:induction false} FirstDrawsAreDraws(data: seq<Address>, mask: seq<int>, order: string, i: int, n: nat)
    requires |data| == |mask| && Drawn(order, data, mask).Some?
    ensures var weights := Drawn(order, data, mask).value;
            |weights| == |mask| && FirstDraws(data, mask, order, i, n) == Draws(mask, weights, i, n)
    decreases n
  {
    hide Picks, Total;
    if n > 0 {
      FirstDrawsAreDraws(data, mask, order, i, n - 1);
    }
  }

  /** Order "weighted": of as many draws as the candidates weigh together, as many as a record weighs put it first. */
  lemma WeightedOrder(data: seq<Address>, mask: seq<int>, i: nat)
    requires |data| == |mask| && i < |mask| && mask[i] == WHITE
    requires forall j | 0 <= j < |data| :: data[j].weight >= 0
    requires Total(mask, Weights(data)) > 0
    ensures Range("weighted", data, mask) == Total(mask, Weights(data))
    ensures FirstDraws(data, mask, "weighted", i, Range("weighted", data, mask)) == data[i].weight
  {
    hide Total, Draws, FirstDraws;
    WeightedIsFair(mask, Weights(data), i);
    FirstDrawsAreDraws(data, mask, "weighted", i, Total(mask, Weights(data)));
  }

  /** Order "rr", or "weighted" without any weight: of as many draws as there are candidates, one puts each first. */
  lemma RotatingOrder(data: seq<Address>, mask: seq<int>, order: string, i: nat)
    requires |data| == |mask| && i < |mask| && mask[i] == WHITE
    requires order == "rr" || (order == "weighted" && Total(mask, Weights(data)) == 0)
    ensures Range(order, data, mask) == Geo.Whites(mask)
    ensures FirstDraws(data, mask, order, i, Geo.Whites(mask)) == 1
  {
    hide Total, Draws, FirstDraws, Geo.Whites;
    TotalOfOnes(mask);
    RoundRobinIsFair(mask, i);
    FirstDrawsAreDraws(data, mask, order, i, Geo.Whites(mask));
  }

  /** Any other order, or a negative total: the first candidate goes first. */
  lemma FixedOrder(data: seq<Address>, mask: seq<int>, order: string, nanos: nat, i: nat)
    requires |data| == |mask| && i < |mask| && order != "rr"
    requires order != "weighted" || Total(mask, Weights(data)) < 0
    ensures Leads(data, mask, order, nanos, i) <==> mask[i] == WHITE && forall j | 0 <= j < i :: mask[j] != WHITE
  {
  }

  // ---------------------------------------------------------------- the whole filter

  /** What the geo database says about a client and about each record. */
  datatype Geography = Geography(country: Option<string>, asn: Option<nat>, located: bool, distances: seq<real>)

  function Countries(data: seq<Address>): (r: seq<seq<string>>)
    ensures |r| == |data|
  {
    seq(|data|, i requires 0 <= i < |data| => data[i].country)
  }

  function Asns(data: seq<Address>): (r: seq<seq<nat>>)
    ensures |r| == |data|
  {
    seq(|data|, i requires 0 <= i < |data| => data[i].asn)
  }

  function ByAsn(geo: Geography, data: seq<Address>, mask: seq<int>): (r: seq<int>)
    requires |data| == |mask|
    ensures |r| == |mask|
  {
    if geo.asn.None? then mask else Geo.Same(geo.asn.value, 0, Asns(data), mask)
  }

  function ByCountry(geo: Geography, data: seq<Address>, mask: seq<int>): (r: seq<int>)
    requires |data| == |mask|
    ensures |r| == |mask|
  {
    if geo.country.None? then mask else Geo.Same(geo.country.value, "", Countries(data), mask)
  }

  function Filtered(config: FilterConfig, geo: Geography, data: seq<Address>): (r: seq<int>)
    requires |geo.distances| == |data|
    ensures |r| == |data|
  {
    var white := Geo.AllWhite(|data|);
    if config.geoFilter == "asn" then ByAsn(geo, data, white)
    else if config.geoFilter == "country" then ByCountry(geo, data, white)
    else if config.geoFilter == "asn+country" then ByCountry(geo, data, ByAsn(geo, data, white))
    else if config.geoFilter == "location" && geo.located then Geo.Near(white, geo.distances)
    else white
  }

  /** The result of filtering: the candidates that `Filtered` leaves, in the configured order. */
  ghost predicate Filters(
    config: FilterConfig, geo: Geography, data: seq<Address>, nanos: nat, result: seq<string>)
  {
    |geo.distances| == |data| && Ordered(data, Filtered(config, geo, data), config, nanos, result)
  }

  method Filter(config: FilterConfig, geo: Geography, data: seq<Address>, nanos: nat) returns (result: seq<string>)
    requires |geo.distances| == |data|
    ensures Filters(config, geo, data, nanos, result)
  {
    hide Ordered, Geo.Same, Geo.Near;
    var mask := new int[|data|](_ => WHITE);
    assert mask[..] == Geo.AllWhite(|data|);
    if config.geoFilter == "asn" {
      Geo.KeepSame(geo.asn, 0, Asns(data), mask);
    } else if config.geoFilter == "country" {
      Geo.KeepSame(geo.country, "", Countries(data), mask);
    } else if config.geoFilter == "asn+country" {
      Geo.KeepSame(geo.asn, 0, Asns(data), mask);
      Geo.KeepSame(geo.country, "", Countries(data), mask);
    } else if config.geoFilter == "location" {
      var outcome := Geo.GetMinimumDistance(geo.located, geo.distances, mask);
    }
    result := OrderIps(data, mask[..], config, nanos);
  }

  // ---------------------------------------------------------------- what each filter leaves

  /** The answer is made, in the configured order, of exactly the records that are marked. */
  ghost predicate Answers(
    config: FilterConfig, data: seq<Address>, nanos: nat, result: seq<string>, mask: seq<int>)
  {
    |mask| == |data| && Ordered(data, mask, config, nanos, result) && Returns(data, mask, config.count, result)
  }

  lemma FilteredAnswers(config: FilterConfig, geo: Geography, data: seq<Address>, nanos: nat, result: seq<string>)
    requires Filters(config, geo, data, nanos, result)
    ensures Answers(config, data, nanos, result, Filtered(config, geo, data))
  {
    hide Ordered, Returns, Filtered;
    OrderedReturns(data, Filtered(config, geo, data), config, nanos, result);
  }

  predicate AnyCountry(data: seq<Address>, country: string) {
    exists j | 0 <= j < |data| :: country in data[j].country
  }

  predicate AnyAsn(data: seq<Address>, asn: nat) {
    exists j | 0 <= j < |data| :: asn in data[j].asn
  }

  lemma AnywhereIsSomewhere(data: seq<Address>, country: string, asn: nat)
    ensures AnyCountry(data, country) <==> Geo.Somewhere(country, Countries(data))
    ensures AnyAsn(data, asn) <==> Geo.Somewhere(asn, Asns(data))
  {
    if AnyCountry(data, country) {
      var j :| 0 <= j < |data| && country in data[j].country;
      assert country in Countries(data)[j];
    }
    if AnyAsn(data, asn) {
      var j :| 0 <= j < |data| && asn in data[j].asn;
      assert asn in Asns(data)[j];
    }
  }

  /** Filter "country": the records of the client's country if there are any, else those without one. */
  lemma CountryFilter(
    config: FilterConfig, geo: Geography, data: seq<Address>, nanos: nat, result: seq<string>, country: string)
    returns (mask: seq<int>)
    requires config.geoFilter == "country" && geo.country == Some(country) && Filters(config, geo, data, nanos, result)
    ensures Answers(config, data, nanos, result, mask)
    ensures forall i | 0 <= i < |data| ::
              mask[i] == WHITE <==> if country != "" && AnyCountry(data, country) then country in data[i].country
                                    else data[i].country == [] || "" in data[i].country
  {
    hide Answers, Geo.Same, AnyCountry;
    mask := Filtered(config, geo, data);
    FilteredAnswers(config, geo, data, nanos, result);
    AnywhereIsSomewhere(data, country, 0);
    forall i | 0 <= i < |data|
      ensures mask[i] == WHITE <==> if country != "" && AnyCountry(data, country) then country in data[i].country
                                    else data[i].country == [] || "" in data[i].country
    {
      Geo.SingleFilter(country, "", Countries(data), i);
    }
  }

  /** Filter "asn": the records of the client's AS if there are any, else those without one. */
  lemma AsnFilter(config: FilterConfig, geo: Geography, data: seq<Address>, nanos: nat, result: seq<string>, asn: nat)
    returns (mask: seq<int>)
    requires config.geoFilter == "asn" && geo.asn == Some(asn) && Filters(config, geo, data, nanos, result)
    ensures Answers(config, data, nanos, result, mask)
    ensures forall i | 0 <= i < |data| ::
              mask[i] == WHITE <==> if asn != 0 && AnyAsn(data, asn) then asn in data[i].asn
                                    else data[i].asn == [] || 0 in data[i].asn
  {
    hide Answers, Geo.Same, AnyAsn;
    mask := Filtered(config, geo, data);
    FilteredAnswers(config, geo, data, nanos, result);
    AnywhereIsSomewhere(data, "", asn);
    forall i | 0 <= i < |data|
      ensures mask[i] == WHITE <==> if asn != 0 && AnyAsn(data, asn) then asn in data[i].asn
                                    else data[i].asn == [] || 0 in data[i].asn
    {
      Geo.SingleFilter(asn, 0, Asns(data), i);
    }
  }

  /** What the AS number alone leaves. */
  predicate OfAsn(data: seq<Address>, asn: nat, i: nat)
    requires i < |data|
  {
    if asn != 0 && AnyAsn(data, asn) then asn in data[i].asn else data[i].asn == [] || 0 in data[i].asn
  }

  /** Filter "asn+country", client of a known country: within the AS, its country if it is there, else no country. */
  lemma AsnCountryFilter(
    config: FilterConfig, geo: Geography, data: seq<Address>, nanos: nat, result: seq<string>,
    asn: nat, country: string)
    returns (mask: seq<int>)
    requires config.geoFilter == "asn+country" && geo.asn == Some(asn) && geo.country == Some(country)
    requires country != "" && Filters(config, geo, data, nanos, result)
    ensures Answers(config, data, nanos, result, mask)
    ensures forall i | 0 <= i < |data| ::
              mask[i] == WHITE <==>
                && OfAsn(data, asn, i)
                && if exists j | 0 <= j < |data| :: OfAsn(data, asn, j) && country in data[j].country
                   then country in data[i].country else data[i].country == [] || "" in data[i].country
  {
    hide Answers, Geo.Same, AnyAsn;
    mask := Filtered(config, geo, data);
    FilteredAnswers(config, geo, data, nanos, result);
    AnywhereIsSomewhere(data, "", asn);
    var within := Geo.Same(asn, 0, Asns(data), Geo.AllWhite(|data|));
    assert mask == Geo.AsnThenCountry(asn, 0, Asns(data), country, "", Countries(data));
    forall i | 0 <= i < |data| ensures within[i] == WHITE <==> OfAsn(data, asn, i) {
      Geo.SingleFilter(asn, 0, Asns(data), i);
    }
    assert (exists j | 0 <= j < |data| :: within[j] == WHITE && country in Countries(data)[j])
      <==> exists j | 0 <= j < |data| :: OfAsn(data, asn, j) && country in data[j].country;
    hide Geo.AsnThenCountry, OfAsn;
    forall i | 0 <= i < |data|
      ensures mask[i] == WHITE <==>
                && within[i] == WHITE
                && if exists j | 0 <= j < |data| :: within[j] == WHITE && country in Countries(data)[j]
                   then country in data[i].country else data[i].country == [] || "" in data[i].country
    {
      Geo.CountryWithinAsn(asn, 0, Asns(data), country, "", Countries(data), i);
    }
  }

  /** Filter "asn+country", country unknown: records without one, also those that the AS number would have set aside. */
  lemma AsnUnknownCountryFilter(
    config: FilterConfig, geo: Geography, data: seq<Address>, nanos: nat, result: seq<string>, asn: nat)
    returns (mask: seq<int>)
    requires config.geoFilter == "asn+country" && geo.asn == Some(asn) && geo.country == Some("")
    requires Filters(config, geo, data, nanos, result)
    ensures Answers(config, data, nanos, result, mask)
    ensures forall i | 0 <= i < |data| ::
              mask[i] == WHITE <==>
                && (OfAsn(data, asn, i) || (asn != 0 && AnyAsn(data, asn)))
                && (data[i].country == [] || "" in data[i].country)
  {
    hide Answers;
    mask := Filtered(config, geo, data);
    FilteredAnswers(config, geo, data, nanos, result);
    AnywhereIsSomewhere(data, "", asn);
    if asn != 0 && AnyAsn(data, asn) {
      var j :| 0 <= j < |data| && asn in Asns(data)[j];
      assert Geo.AllWhite(|data|)[j] == WHITE && asn in Asns(data)[j];
      assert Geo.Matched(asn, Asns(data), Geo.AllWhite(|data|));
    }
  }

  /** Filter "asn+country" when the geo database knows only one of the two: the other one decides alone. */
  lemma HalfKnownFilter(config: FilterConfig, geo: Geography, data: seq<Address>, nanos: nat, result: seq<string>)
    returns (mask: seq<int>)
    requires config.geoFilter == "asn+country" && (geo.asn.None? <==> geo.country.Some?)
    requires Filters(config, geo, data, nanos, result)
    ensures Answers(config, data, nanos, result, mask)
    ensures geo.asn.Some? ==> forall i | 0 <= i < |data| :: mask[i] == WHITE <==> OfAsn(data, geo.asn.value, i)
    ensures geo.country.Some? ==>
              forall i | 0 <= i < |data| ::
                mask[i] == WHITE <==>
                  if geo.country.value != "" && AnyCountry(data, geo.country.value)
                  then geo.country.value in data[i].country else data[i].country == [] || "" in data[i].country
  {
    var asn, country := if geo.asn.Some? then geo.asn.value else 0, if geo.country.Some? then geo.country.value else "";
    hide Answers, Geo.Same, AnyAsn, AnyCountry;
    mask := Filtered(config, geo, data);
    FilteredAnswers(config, geo, data, nanos, result);
    AnywhereIsSomewhere(data, country, asn);
    forall i | 0 <= i < |data|
      ensures geo.asn.Some? ==> (mask[i] == WHITE <==> OfAsn(data, asn, i))
      ensures geo.country.Some? ==>
                (mask[i] == WHITE <==> if country != "" && AnyCountry(data, country) then country in data[i].country
                                       else data[i].country == [] || "" in data[i].country)
    {
      Geo.SingleFilter(asn, 0, Asns(data), i);
      Geo.SingleFilter(country, "", Countries(data), i);
    }
  }

  /** Filter "location": the nearest records, or all when all are beyond the limit. */
  lemma LocationFilter(config: FilterConfig, geo: Geography, data: seq<Address>, nanos: nat, result: seq<string>)
    returns (mask: seq<int>)
    requires config.geoFilter == "location" && geo.located && Filters(config, geo, data, nanos, result)
    ensures Answers(config, data, nanos, result, mask)
    ensures forall i | 0 <= i < |data| ::
              mask[i] == WHITE <==> || (forall j | 0 <= j < |data| :: geo.distances[i] <= geo.distances[j])
                                    || (forall j | 0 <= j < |data| :: geo.distances[j] > 1000.0)
  {
    hide Answers, Geo.Near;
    mask := Filtered(config, geo, data);
    FilteredAnswers(config, geo, data, nanos, result);
    forall i | 0 <= i < |data|
      ensures mask[i] == WHITE <==> || (forall j | 0 <= j < |data| :: geo.distances[i] <= geo.distances[j])
                                    || (forall j | 0 <= j < |data| :: geo.distances[j] > 1000.0)
    {
      Geo.LocationKeepsNearest(geo.distances, i);
    }
  }

  /** The geo database has nothing for this filter, or there is no such filter. */
  predicate Unfiltered(config: FilterConfig, geo: Geography) {
    match config.geoFilter
    case "asn" => geo.asn.None?
    case "country" => geo.country.None?
    case "asn+country" => geo.asn.None? && geo.country.None?
    case "location" => !geo.located
    case _ => true
  }

  /** Then all records are candidates. */
  lemma NoFilter(config: FilterConfig, geo: Geography, data: seq<Address>, nanos: nat, result: seq<string>)
    returns (mask: seq<int>)
    requires Unfiltered(config, geo) && Filters(config, geo, data, nanos, result)
    ensures Answers(config, data, nanos, result, mask) && forall i | 0 <= i < |data| :: mask[i] == WHITE
  {
    hide Answers;
    mask := Filtered(config, geo, data);
    FilteredAnswers(config, geo, data, nanos, result);
  }
}
