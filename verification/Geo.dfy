/**
 The geographic filters of internal/geotools/geotools.go. Each rewrites a mask over the records of an
 address set: white records are still candidates. Countries and AS numbers are filtered by the same
 algorithm, written once here over any type of tag.
 */
module Geo {
  import opened Masks
  import opened Wrappers

  // ---------------------------------------------------------------- country and AS number

  /** Records for everybody: no tag at all, or the tag that stands for "unknown". */
  predicate Default<T(==)>(unknown: T, tags: seq<T>) {
    tags == [] || unknown in tags
  }

  /** Some candidate carries the tag of the source. */
  predicate Matched<T(==)>(source: T, tags: seq<seq<T>>, mask: seq<int>)
    requires |tags| == |mask|
  {
    exists i | 0 <= i < |mask| :: mask[i] == WHITE && source in tags[i]
  }

  function Mark<T(==)>(source: T, unknown: T, matched: bool, tags: seq<T>, x: int): int {
    if source != unknown && matched then
      if x != WHITE then BLACK else if source in tags then WHITE else GREY
    else if source != unknown && x != WHITE then BLACK
    else if x != BLACK && Default(unknown, tags) then WHITE
    else BLACK
  }

  function Same<T(==)>(source: T, unknown: T, tags: seq<seq<T>>, mask: seq<int>): (r: seq<int>)
    requires |tags| == |mask|
  {
    seq(|mask|, i requires 0 <= i < |mask| => Mark(source, unknown, Matched(source, tags, mask), tags[i], mask[i]))
  }

  /** First pass: candidates without the source's tag turn grey, everything else but the matches black. */
  method MarkMatches<T(==)>(source: T, tags: seq<seq<T>>, mask: array<int>) returns (passed: nat)
    requires |tags| == mask.Length
    modifies mask
    ensures passed > 0 <==> Matched(source, tags, old(mask[..]))
    ensures forall i | 0 <= i < mask.Length ::
              mask[i] == if old(mask[i]) != WHITE then BLACK else if source in tags[i] then WHITE else GREY
  {
    passed := 0;
    ghost var was := mask[..];
    var i := 0;
    label outer: while i < mask.Length
      invariant 0 <= i <= mask.Length
      invariant passed > 0 <==> exists j | 0 <= j < i :: was[j] == WHITE && source in tags[j]
      invariant forall j | 0 <= j < i ::
          mask[j] == if was[j] != WHITE then BLACK else if source in tags[j] then WHITE else GREY
      invariant forall j | i <= j < mask.Length :: mask[j] == was[j]
      decreases mask.Length - i
    {
      if mask[i] == WHITE {
        for k := 0 to |tags[i]|
          invariant source !in tags[i][..k]
          invariant mask[i] == WHITE
        {
          if tags[i][k] == source {
            passed := passed + 1;
            i := i + 1;
            continue outer;
          }
        }
        assert tags[i][..|tags[i]|] == tags[i];
        mask[i] := GREY;
      } else {
        mask[i] := BLACK;
      }
      i := i + 1;
    }
  }

  /** Second pass: of the records not yet black, only the default ones are candidates again. */
  method KeepDefaults<T(==)>(unknown: T, tags: seq<seq<T>>, mask: array<int>)
    requires |tags| == mask.Length
    modifies mask
    ensures forall i | 0 <= i < mask.Length ::
              mask[i] == if old(mask[i]) != BLACK && Default(unknown, tags[i]) then WHITE else BLACK
  {
    for i := 0 to mask.Length
      invariant forall j | 0 <= j < i ::
          mask[j] == if old(mask[j]) != BLACK && Default(unknown, tags[j]) then WHITE else BLACK
      invariant forall j | i <= j < mask.Length :: mask[j] == old(mask[j])
    {
      if mask[i] != BLACK {
        if |tags[i]| == 0 {
          mask[i] := WHITE;
        } else {
          mask[i] := BLACK;
          for k := 0 to |tags[i]|
            invariant mask[i] == BLACK && unknown !in tags[i][..k]
            invariant forall j | 0 <= j < i ::
                mask[j] == if old(mask[j]) != BLACK && Default(unknown, tags[j]) then WHITE else BLACK
            invariant forall j | i < j < mask.Length :: mask[j] == old(mask[j])
          {
            if tags[i][k] == unknown {
              mask[i] := WHITE;
              break;
            }
          }
          assert tags[i][..|tags[i]|] == tags[i];
        }
      }
    }
  }

  /** `source` is what the geo database says about the client; on its error the mask is untouched. */
  method KeepSame<T(==)>(source: Option<T>, unknown: T, tags: seq<seq<T>>, mask: array<int>)
    requires |tags| == mask.Length
    modifies mask
    ensures mask[..] == if source.None? then old(mask[..]) else Same(source.value, unknown, tags, old(mask[..]))
  {
    if source.None? {
      return;
    }
    var passed := 0;
    if source.value != unknown {
      passed := MarkMatches(source.value, tags, mask);
    }
    if passed > 0 {
      return;
    }
    KeepDefaults(unknown, tags, mask);
  }

  function AllWhite(n: nat): (mask: seq<int>)
    ensures |mask| == n && forall i | 0 <= i < n :: mask[i] == WHITE
  {
    seq(n, _ => WHITE)
  }

  predicate Somewhere<T(==)>(source: T, tags: seq<seq<T>>) {
    exists i | 0 <= i < |tags| :: source in tags[i]
  }

  /** One filter alone: the matching records if there are any, else the default ones. */
  lemma SingleFilter<T>(source: T, unknown: T, tags: seq<seq<T>>, i: nat)
    requires i < |tags|
    ensures Same(source, unknown, tags, AllWhite(|tags|))[i] == WHITE
            <==> if source != unknown && Somewhere(source, tags) then source in tags[i] else Default(unknown, tags[i])
  {
  }

  /** The AS number filter first, then the country filter on what it left. */
  function AsnThenCountry<S(==), T(==)>(
    asn: S, noAsn: S, asns: seq<seq<S>>, country: T, noCountry: T, countries: seq<seq<T>>): seq<int>
    requires |asns| == |countries|
  {
    Same(country, noCountry, countries, Same(asn, noAsn, asns, AllWhite(|asns|)))
  }

  /** A known country narrows the result of the AS filter: the matches within it, else its defaults. */
  lemma CountryWithinAsn<S, T>(
    asn: S, noAsn: S, asns: seq<seq<S>>, country: T, noCountry: T, countries: seq<seq<T>>, i: nat)
    requires |asns| == |countries| && i < |asns| && country != noCountry
    ensures var within := Same(asn, noAsn, asns, AllWhite(|asns|));
            AsnThenCountry(asn, noAsn, asns, country, noCountry, countries)[i] == WHITE <==>
              && within[i] == WHITE
              && if exists j | 0 <= j < |asns| :: within[j] == WHITE && country in countries[j]
                 then country in countries[i] else Default(noCountry, countries[i])
  {
  }

  /**
   A client of unknown country is another matter: records that the AS filter had set aside come back.
   The result stays within that of the AS filter exactly when it set no default-country record aside.
   */
  lemma UnknownCountryRevives<S, T>(asn: S, noAsn: S, asns: seq<seq<S>>, noCountry: T, countries: seq<seq<T>>)
    requires |asns| == |countries|
    ensures var within := Same(asn, noAsn, asns, AllWhite(|asns|));
            var result := AsnThenCountry(asn, noAsn, asns, noCountry, noCountry, countries);
            (forall i | 0 <= i < |asns| && result[i] == WHITE :: within[i] == WHITE)
            <==> (asn == noAsn || !Somewhere(asn, asns)
                  || forall i | 0 <= i < |asns| && Default(noCountry, countries[i]) :: asn in asns[i])
  {
    var mask := AllWhite(|asns|);
    var within := Same(asn, noAsn, asns, mask);
    var result := AsnThenCountry(asn, noAsn, asns, noCountry, noCountry, countries);
    if asn != noAsn && Somewhere(asn, asns) {
      var w :| 0 <= w < |asns| && asn in asns[w];
      assert mask[w] == WHITE && asn in asns[w];
      forall i | 0 <= i < |asns|
        ensures within[i] == (if asn in asns[i] then WHITE else GREY)
        ensures result[i] == WHITE <==> Default(noCountry, countries[i])
      {
      }
    }
  }

  /** Two records, the first for AS 1 and country x: a client in AS 1 of unknown country gets the second. */
  lemma SetAsideRevived()
    ensures var asns, countries := [[1], []], [["x"], []];
            && Same(1, 0, asns, AllWhite(2)) == [WHITE, GREY]
            && AsnThenCountry(1, 0, asns, "", "", countries) == [BLACK, WHITE]
  {
    var asns: seq<seq<int>> := [[1], []];
    assert AllWhite(2)[0] == WHITE && 1 in asns[0];
    assert Same(1, 0, asns, AllWhite(2)) == [WHITE, GREY];
  }

  // ---------------------------------------------------------------- distance

  datatype Outcome = Done | Failed | Panicked

  const FARTHEST := 1000.0

  function Whites(mask: seq<int>): (n: nat)
    ensures n <= |mask|
  {
    if mask == [] then 0
    else Whites(mask[..|mask| - 1]) + if mask[|mask| - 1] == WHITE then 1 else 0
  }

  /** Distances of the candidates only, which is how they are collected. */
  function Collected(mask: seq<int>, dists: seq<real>): (r: seq<real>)
    requires |mask| == |dists|
    ensures |r| == Whites(mask)
  {
    if mask == [] then [] else
      var n := |mask| - 1;
      Collected(mask[..n], dists[..n]) + if mask[n] == WHITE then [dists[n]] else []
  }

  function Nearest(mask: seq<int>, dists: seq<real>): (m: real)
    requires |mask| == |dists|
    ensures m <= FARTHEST && forall i | 0 <= i < |mask| && mask[i] == WHITE :: m <= dists[i]
    ensures m == FARTHEST || exists i :: 0 <= i < |mask| && mask[i] == WHITE && dists[i] == m
  {
    if mask == [] then FARTHEST else
      var n := |mask| - 1;
      var m := Nearest(mask[..n], dists[..n]);
      if mask[n] == WHITE && dists[n] < m then dists[n] else m
  }

  /** The collected distances are read back by record index: this is when all those reads are in range. */
  predicate InRange(mask: seq<int>) {
    forall i | 0 <= i < |mask| && mask[i] == WHITE :: i < Whites(mask)
  }

  predicate WhitesFirst(mask: seq<int>) {
    forall i, j | 0 <= i < j < |mask| && mask[j] == WHITE :: mask[i] == WHITE
  }

  /** Some candidate is as near as the nearest, so the others are dropped. */
  predicate SomeNear(mask: seq<int>, dists: seq<real>)
    requires |mask| == |dists|
  {
    exists i | 0 <= i < |mask| :: mask[i] == WHITE && dists[i] == Nearest(mask, dists)
  }

  lemma {:induction false} FirstWhites(mask: seq<int>)
    requires WhitesFirst(mask)
    ensures forall i | 0 <= i < |mask| :: mask[i] == WHITE <==> i < Whites(mask)
  {
    if mask != [] {
      FirstWhites(mask[..|mask| - 1]);
    }
  }

  /** Fewer candidates than positions up to the last one means that some read is out of range. */
  lemma {:induction false} WhitesSkip(mask: seq<int>, gap: nat)
    requires gap < |mask| && mask[gap] != WHITE
    ensures Whites(mask) < |mask|
  {
    if gap < |mask| - 1 {
      WhitesSkip(mask[..|mask| - 1], gap);
    }
  }

  lemma {:induction false} WhitesTo(mask: seq<int>, last: nat)
    requires last < |mask| && forall i | last < i < |mask| :: mask[i] != WHITE
    ensures Whites(mask) == Whites(mask[..last + 1])
  {
    if last + 1 < |mask| {
      WhitesTo(mask[..|mask| - 1], last);
      assert mask[..|mask| - 1][..last + 1] == mask[..last + 1];
    } else {
      assert mask[..last + 1] == mask;
    }
  }

  lemma {:induction false} LastWhite(mask: seq<int>, j: nat) returns (last: nat)
    requires j < |mask| && mask[j] == WHITE
    ensures j <= last < |mask| && mask[last] == WHITE && forall i | last < i < |mask| :: mask[i] != WHITE
    decreases |mask|
  {
    if mask[|mask| - 1] == WHITE {
      last := |mask| - 1;
    } else {
      last := LastWhite(mask[..|mask| - 1], j);
    }
  }

  /** All reads are in range exactly when the candidates form a prefix of the records. */
  lemma InRangeIsPrefix(mask: seq<int>)
    ensures InRange(mask) <==> WhitesFirst(mask)
  {
    hide Whites;
    if WhitesFirst(mask) {
      FirstWhites(mask);
    } else {
      var i, j :| 0 <= i < j < |mask| && mask[j] == WHITE && mask[i] != WHITE;
      var last := LastWhite(mask, j);
      WhitesTo(mask, last);
      WhitesSkip(mask[..last + 1], i);
      assert last >= Whites(mask);
    }
  }

  lemma {:induction false} CollectedAt(mask: seq<int>, dists: seq<real>, i: nat)
    requires |mask| == |dists| && i < |mask| && WhitesFirst(mask) && mask[i] == WHITE
    ensures i < Whites(mask) && Collected(mask, dists)[i] == dists[i]
  {
    FirstWhites(mask);
    var n := |mask| - 1;
    if i < n {
      CollectedAt(mask[..n], dists[..n], i);
    } else {
      FirstWhites(mask[..n]);
      WhitesAll(mask[..n]);
    }
  }

  lemma {:induction false} WhitesAll(mask: seq<int>)
    requires forall i | 0 <= i < |mask| :: mask[i] == WHITE
    ensures Whites(mask) == |mask|
  {
    if mask != [] {
      WhitesAll(mask[..|mask| - 1]);
    }
  }

  function Near(mask: seq<int>, dists: seq<real>): seq<int>
    requires |mask| == |dists|
  {
    seq(|mask|, i requires 0 <= i < |mask| =>
      if mask[i] != WHITE then BLACK
      else if !SomeNear(mask, dists) || dists[i] == Nearest(mask, dists) then WHITE else GREY)
  }

  method CollectDistances(dists: seq<real>, mask: array<int>) returns (minDistance: real, collected: seq<real>)
    requires |dists| == mask.Length
    ensures minDistance == Nearest(mask[..], dists) && collected == Collected(mask[..], dists)
  {
    minDistance, collected := FARTHEST, [];
    ghost var was := mask[..];
    for i := 0 to mask.Length
      invariant minDistance == Nearest(was[..i], dists[..i]) && collected == Collected(was[..i], dists[..i])
    {
      assert was[..i + 1][..i] == was[..i] && dists[..i + 1][..i] == dists[..i];
      if mask[i] == WHITE {
        var d := dists[i];
        if d < minDistance {
          minDistance := d;
        }
        collected := collected + [d];
      }
    }
    assert was[..mask.Length] == was && dists[..mask.Length] == dists;
  }

  method MarkNear(minDistance: real, collected: seq<real>, mask: array<int>) returns (inRange: bool, passed: nat)
    modifies mask
    ensures inRange <==> forall i | 0 <= i < mask.Length && old(mask[i]) == WHITE :: i < |collected|
    ensures inRange ==> forall i | 0 <= i < mask.Length ::
              mask[i] == if old(mask[i]) != WHITE then BLACK else if collected[i] == minDistance then WHITE else GREY
    ensures inRange ==> (passed > 0 <==> exists i | 0 <= i < mask.Length :: mask[i] == WHITE)
  {
    passed := 0;
    for i := 0 to mask.Length
      invariant forall j | 0 <= j < i && old(mask[j]) == WHITE :: j < |collected|
      invariant forall j | 0 <= j < i ::
          mask[j] == if old(mask[j]) != WHITE then BLACK else if collected[j] == minDistance then WHITE else GREY
      invariant forall j | i <= j < mask.Length :: mask[j] == old(mask[j])
      invariant passed > 0 <==> exists j | 0 <= j < i :: mask[j] == WHITE
    {
      if mask[i] == WHITE {
        if i >= |collected| {
          return false, passed;
        }
        if collected[i] == minDistance {
          passed := passed + 1;
        } else {
          mask[i] := GREY;
        }
      } else {
        mask[i] := BLACK;
      }
    }
    inRange := true;
  }

  method Whiten(mask: array<int>)
    modifies mask
    ensures forall i | 0 <= i < mask.Length :: mask[i] == if old(mask[i]) == GREY then WHITE else old(mask[i])
  {
    for i := 0 to mask.Length
      invariant forall j | 0 <= j < i :: mask[j] == if old(mask[j]) == GREY then WHITE else old(mask[j])
      invariant forall j | i <= j < mask.Length :: mask[j] == old(mask[j])
    {
      if mask[i] == GREY {
        mask[i] := WHITE;
      }
    }
  }

  /** `known` is whether the client could be located, `dists` the distance of each record from it. */
  method GetMinimumDistance(known: bool, dists: seq<real>, mask: array<int>) returns (outcome: Outcome)
    requires |dists| == mask.Length
    modifies mask
    ensures outcome == Failed <==> !known
    ensures outcome == Failed ==> mask[..] == old(mask[..])
    ensures known ==> (outcome == Done <==> WhitesFirst(old(mask[..])))
    ensures outcome == Done ==> mask[..] == Near(old(mask[..]), dists)
  {
    hide Nearest, Collected, Whites;
    if !known {
      return Failed;
    }
    ghost var was := mask[..];
    var minDistance, collected := CollectDistances(dists, mask);
    InRangeIsPrefix(was);
    var inRange, passed := MarkNear(minDistance, collected, mask);
    if !inRange {
      return Panicked;
    }
    forall i | 0 <= i < mask.Length && was[i] == WHITE ensures collected[i] == dists[i] {
      CollectedAt(was, dists, i);
    }
    if passed > 0 {
      return Done;
    }
    Whiten(mask);
    return Done;
  }

  /** Of all records, the filter keeps exactly the nearest ones, unless every one is farther than the limit. */
  lemma LocationKeepsNearest(dists: seq<real>, i: nat)
    requires i < |dists|
    ensures WhitesFirst(AllWhite(|dists|))
    ensures Near(AllWhite(|dists|), dists)[i] == WHITE <==>
              || (forall j | 0 <= j < |dists| :: dists[i] <= dists[j])
              || (forall j | 0 <= j < |dists| :: dists[j] > FARTHEST)
  {
  }
}
