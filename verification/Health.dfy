/**
 Health status of an address and the filter that drops unhealthy addresses
 (internal/healthcheck/healthcheck.go).
 */
module Health {
  import opened Masks

  class HealthCheckItem {
    var status: int
    const downCount: int
    const upCount: int

    constructor (downCount: int, upCount: int)
      ensures status == 0 && this.downCount == downCount && this.upCount == upCount
    {
      status, this.downCount, this.upCount := 0, downCount, upCount;
    }

    method StatusDown()
      modifies this
      ensures status == Next(old(status), false, downCount, upCount)
    {
      if status <= 0 {
        status := status - 1;
        if status < downCount {
          status := downCount;
        }
      } else {
        status := -1;
      }
    }

    method StatusUp()
      modifies this
      ensures status == Next(old(status), true, downCount, upCount)
    {
      if status >= 0 {
        status := status + 1;
        if status > upCount {
          status := upCount;
        }
      } else {
        status := 1;
      }
    }

    /** The probes of an item, one after another; each outcome moves its status. */
    method Probe(outcomes: seq<bool>)
      requires status == 0
      modifies this
      ensures status == StatusAfter(outcomes, downCount, upCount)
    {
      for i := 0 to |outcomes|
        invariant status == StatusAfter(outcomes[..i], downCount, upCount)
      {
        assert outcomes[..i + 1][..i] == outcomes[..i];
        if outcomes[i] {
          StatusUp();
        } else {
          StatusDown();
        }
      }
      assert outcomes[..|outcomes|] == outcomes;
    }
  }

  function Next(status: int, up: bool, downCount: int, upCount: int): int {
    if up then (if status < 0 then 1 else if status + 1 > upCount then upCount else status + 1)
    else (if status > 0 then -1 else if status - 1 < downCount then downCount else status - 1)
  }

  function StatusAfter(probes: seq<bool>, downCount: int, upCount: int): int {
    if probes == [] then 0
    else Next(StatusAfter(probes[..|probes| - 1], downCount, upCount), probes[|probes| - 1], downCount, upCount)
  }

  /** Length of the trailing run of outcomes equal to the last one. */
  function Trailing(probes: seq<bool>, outcome: bool): nat {
    if probes == [] || probes[|probes| - 1] != outcome then 0 else 1 + Trailing(probes[..|probes| - 1], outcome)
  }

  /** The run counted positively for successes and negatively for failures. */
  function SignedRun(probes: seq<bool>): int {
    Trailing(probes, true) - Trailing(probes, false)
  }

  function Clamp(x: int, low: int, high: int): int {
    if x < low then low else if x > high then high else x
  }

  /** After any probe history the status is the signed trailing run, clamped to the two counts. */
  lemma {:induction false} StatusIsClampedRun(probes: seq<bool>, downCount: int, upCount: int)
    requires downCount <= -1 && upCount >= 1
    ensures StatusAfter(probes, downCount, upCount) == Clamp(SignedRun(probes), downCount, upCount)
  {
    if probes != [] {
      StatusIsClampedRun(probes[..|probes| - 1], downCount, upCount);
    }
  }

  // ---------------------------------------------------------------- the filter

  /** The highest status among the white records, at least `floor`. */
  function Best(mask: seq<int>, statuses: seq<int>, floor: int): (m: int)
    requires |mask| == |statuses|
    ensures m >= floor && forall i | 0 <= i < |mask| && mask[i] == WHITE :: statuses[i] <= m
    ensures m == floor || exists i :: 0 <= i < |mask| && mask[i] == WHITE && statuses[i] == m
  {
    if mask == [] then floor else
      var n := |mask| - 1;
      var m := Best(mask[..n], statuses[..n], floor);
      if mask[n] == WHITE && statuses[n] > m then statuses[n] else m
  }

  function Threshold(best: int, downCount: int, upCount: int): int {
    if best < upCount - 1 && best > downCount then downCount + 1 else best
  }

  method FilterHealthcheck(enable: bool, downCount: int, upCount: int, statuses: seq<int>, mask: array<int>)
    requires |statuses| == mask.Length
    modifies mask
    ensures !enable ==> mask[..] == old(mask[..])
    ensures enable ==>
              var min := Threshold(Best(old(mask[..]), statuses, downCount), downCount, upCount);
              forall i | 0 <= i < mask.Length ::
                mask[i] == if old(mask[i]) == WHITE && statuses[i] >= min then WHITE else BLACK
  {
    if !enable {
      return;
    }
    var min := downCount;
    ghost var was := mask[..];
    for i := 0 to mask.Length
      invariant min == Best(was[..i], statuses[..i], downCount)
    {
      assert was[..i + 1][..i] == was[..i] && statuses[..i + 1][..i] == statuses[..i];
      if mask[i] == WHITE {
        if statuses[i] > min {
          min := statuses[i];
        }
      }
    }
    assert was[..mask.Length] == was && statuses[..mask.Length] == statuses;
    if min < upCount - 1 && min > downCount {
      min := downCount + 1;
    }
    for i := 0 to mask.Length
      invariant forall j | 0 <= j < i :: mask[j] == if was[j] == WHITE && statuses[j] >= min then WHITE else BLACK
      invariant forall j | i <= j < mask.Length :: mask[j] == was[j]
    {
      if mask[i] == WHITE {
        if statuses[i] < min {
          mask[i] := BLACK;
        }
      } else {
        mask[i] := BLACK;
      }
    }
  }

  /** Record `i` passes the filter. */
  predicate Passes(mask: seq<int>, statuses: seq<int>, downCount: int, upCount: int, i: nat)
    requires |mask| == |statuses| && i < |mask|
  {
    mask[i] == WHITE && statuses[i] >= Threshold(Best(mask, statuses, downCount), downCount, upCount)
  }

  /** The filter leaves a record exactly when some white record is not below the down count. */
  lemma SomeSurvive(mask: seq<int>, statuses: seq<int>, downCount: int, upCount: int)
    requires |mask| == |statuses|
    ensures (exists i :: 0 <= i < |mask| && Passes(mask, statuses, downCount, upCount, i))
            <==> exists i :: 0 <= i < |mask| && mask[i] == WHITE && statuses[i] >= downCount
  {
    hide Best;
    var best := Best(mask, statuses, downCount);
    if best > downCount {
      var i :| 0 <= i < |mask| && mask[i] == WHITE && statuses[i] == best;
      assert Passes(mask, statuses, downCount, upCount, i);
    } else if i :| 0 <= i < |mask| && mask[i] == WHITE && statuses[i] >= downCount {
      assert Passes(mask, statuses, downCount, upCount, i);
    }
  }

  /**
   Which records pass, said without a threshold: if some candidate is above the down count and none is within one of
   the up count, all those above the down count; otherwise only the best ones, if they reach the down count.
   */
  lemma PassesExactly(mask: seq<int>, statuses: seq<int>, downCount: int, upCount: int, i: nat)
    requires |mask| == |statuses| && i < |mask|
    ensures Passes(mask, statuses, downCount, upCount, i) <==>
            && mask[i] == WHITE
            && if && (exists j | 0 <= j < |mask| :: mask[j] == WHITE && statuses[j] > downCount)
                  && (forall j | 0 <= j < |mask| && mask[j] == WHITE :: statuses[j] < upCount - 1)
               then statuses[i] > downCount
               else && statuses[i] >= downCount
                    && forall j | 0 <= j < |mask| && mask[j] == WHITE :: statuses[j] <= statuses[i]
  {
    hide Best;
  }

  /**
   The down count of an item: the store negates a positive one when it loads the item, while the filter
   takes the configured count as it is.
   */
  function ItemDownCount(downCount: int): int {
    if downCount > 0 then -downCount else downCount
  }

  /** A fully down record gets through only when every white record is fully down. */
  lemma FullyDownLast(mask: seq<int>, statuses: seq<int>, downCount: int, upCount: int, i: nat)
    requires |mask| == |statuses| && i < |mask| && Passes(mask, statuses, downCount, upCount, i)
    requires statuses[i] <= ItemDownCount(downCount)
    ensures forall j | 0 <= j < |mask| && mask[j] == WHITE :: statuses[j] <= ItemDownCount(downCount)
  {
    hide Best;
  }

  function Statuses(probes: seq<seq<bool>>, downCount: int, upCount: int): (r: seq<int>)
    ensures |r| == |probes|
  {
    seq(|probes|, i requires 0 <= i < |probes| => StatusAfter(probes[i], ItemDownCount(downCount), upCount))
  }

  predicate AnyWhite(mask: seq<int>) {
    exists i | 0 <= i < |mask| :: mask[i] == WHITE
  }

  predicate AnyPasses(mask: seq<int>, statuses: seq<int>, downCount: int, upCount: int)
    requires |mask| == |statuses|
  {
    exists i :: 0 <= i < |mask| && Passes(mask, statuses, downCount, upCount, i)
  }

  /** Counts for which no probe takes an item below the count of the filter. */
  predicate Sound(downCount: int, upCount: int) {
    (downCount <= -1 && downCount <= upCount) || downCount == upCount == 0
  }

  lemma {:induction false} NeverBelow(probes: seq<bool>, downCount: int, upCount: int)
    requires Sound(downCount, upCount)
    ensures StatusAfter(probes, downCount, upCount) >= downCount
    ensures downCount == 0 ==> StatusAfter(probes, downCount, upCount) == 0
  {
    if probes != [] {
      NeverBelow(probes[..|probes| - 1], downCount, upCount);
    }
  }

  /** Probes that take an item below it otherwise. */
  function Sinking(downCount: int, upCount: int): seq<bool> {
    if downCount > 0 then [] else if downCount == 0 && upCount > 0 then [true, false] else [true]
  }

  lemma SinkingSinks(downCount: int, upCount: int)
    requires !Sound(downCount, upCount)
    ensures StatusAfter(Sinking(downCount, upCount), ItemDownCount(downCount), upCount) < downCount
  {
    var d := ItemDownCount(downCount);
    assert [true][..0] == [] && [true, false][..1] == [true];
    assert StatusAfter([true], d, upCount) == Next(StatusAfter([], d, upCount), true, d, upCount);
    assert StatusAfter([true, false], d, upCount) == Next(StatusAfter([true], d, upCount), false, d, upCount);
  }

  ghost predicate NeverEmpties(downCount: int, upCount: int) {
    forall mask: seq<int>, probes: seq<seq<bool>> | |mask| == |probes| && AnyWhite(mask) ::
      AnyPasses(mask, Statuses(probes, downCount, upCount), downCount, upCount)
  }

  /** Whatever the probes said, the filter leaves a candidate if there was one: exactly for sound counts. */
  lemma NeverEmptiesTheorem(downCount: int, upCount: int)
    ensures NeverEmpties(downCount, upCount) <==> Sound(downCount, upCount)
  {
    hide StatusAfter, Passes, Best;
    if Sound(downCount, upCount) {
      forall mask: seq<int>, probes: seq<seq<bool>> | |mask| == |probes| && AnyWhite(mask)
        ensures AnyPasses(mask, Statuses(probes, downCount, upCount), downCount, upCount)
      {
        var statuses := Statuses(probes, downCount, upCount);
        var w :| 0 <= w < |mask| && mask[w] == WHITE;
        NeverBelow(probes[w], downCount, upCount);
        assert statuses[w] >= downCount;
        SomeSurvive(mask, statuses, downCount, upCount);
      }
    } else {
      var mask, probes := [WHITE], [Sinking(downCount, upCount)];
      var statuses := Statuses(probes, downCount, upCount);
      SinkingSinks(downCount, upCount);
      assert mask[0] == WHITE && statuses[0] < downCount;
      SomeSurvive(mask, statuses, downCount, upCount);
      assert !AnyPasses(mask, statuses, downCount, upCount);
    }
  }
}
