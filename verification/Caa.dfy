/**
 The CAA search of internal/resolver/handler.go: from the location that answers the query it
 climbs towards the apex (section 3 of RFC 8659).
 */
module Caa {
  import opened Names
  import opened Wrappers
  import opened Zones
  import opened Records

  /** Reads of CAA sets by location. */
  type Store = string -> Lookup

  function SetAt(store: Store, location: string): seq<string> {
    match store(location)
    case Failed => []
    case Found(rrset) => rrset.data
  }

  /** The outcome of the search at the apex: nothing when the read fails. */
  function Apex(store: Store): Option<RRSet> {
    match store("@")
    case Failed => None
    case Found(rrset) => Some(rrset)
  }

  predicate Answers(kind: Match) {
    kind in {ExactMatch, WildCardMatch}
  }

  /** The CAA set found at the name `p` itself, wildcards included; empty when there is none. */
  ghost function SetOf(z: Zone, store: Store, p: Path): seq<string>
    requires p != []
  {
    var loc := LabelMatch(z.locations, p);
    if Answers(loc.kind) then SetAt(store, loc.name) else []
  }

  /** The set of the nearest name at or above `p` that has one, else the apex set. */
  ghost function Nearest(z: Zone, store: Store, p: Path): Option<RRSet> {
    if p == [] then Apex(store)
    else if SetOf(z, store, p) != [] then Some(store(LabelMatch(z.locations, p).name).rrset)
    else Nearest(z, store, p[..|p| - 1])
  }

  /** Names strictly below the closest encloser of `q`, down to `q`, are all answered like `q`. */
  lemma SkippedNames(locations: seq<string>, q: Path, n: Path)
    requires IsPath(q) && !Exists(locations, q)
    requires n <= q && |n| > |ClosestEncloser(locations, q)|
    ensures LabelMatch(locations, n) == LabelMatch(locations, q)
  {
    var ce := ClosestEncloser(locations, q);
    PrefixOfPath(n, q);
    assert ce <= n;
    assert !Exists(locations, n) by {
      assert !(n <= ce);
    }
    var ce' := ClosestEncloser(locations, n);
    assert ce' <= q && (ce' != [] ==> ce' <= ce);
    assert ce != [] ==> ce <= ce';
    assert ce' == ce;
    if Text(n) in locations {
      LocationExists(locations, n);
    }
    if Text(q) in locations {
      LocationExists(locations, q);
    }
  }

  /** Hence a climb from a name without a set may jump straight to the closest encloser. */
  lemma {:induction false} JumpToEncloser(z: Zone, store: Store, q: Path, n: Path)
    requires IsPath(q) && !Exists(z.locations, q)
    requires n <= q && |n| >= |ClosestEncloser(z.locations, q)| && SetOf(z, store, q) == []
    ensures Nearest(z, store, n) == Nearest(z, store, ClosestEncloser(z.locations, q))
  {
    var ce := ClosestEncloser(z.locations, q);
    if |n| > |ce| {
      SkippedNames(z.locations, q, n);
      JumpToEncloser(z, store, q, n[..|n| - 1]);
    } else {
      assert n == ce;
    }
  }

  /** A location written as the zone stores it: no trailing dot, so it is not a qualified name. */
  ghost predicate Unqualified(name: string) {
    name == "" || name[|name| - 1] != '.'
  }

  lemma RelativeLookup(z: Zone, name: string)
    requires Built(z) && EndsWith(z.name, ".") && Unqualified(name)
    ensures FindLocation(z, name) == LabelMatch(z.locations, Labels(name))
  {
    FindLocationIsLabelMatch(z, name);
    var suffix := "." + z.name;
    assert suffix[|suffix| - 1] == '.';
    assert !EndsWith(name, suffix) by {
      assert |suffix| <= |name| ==> name[|name| - |suffix|..][|suffix| - 1] == name[|name| - 1];
    }
  }

  lemma WildcardName(locations: seq<string>, p: Path)
    requires IsPath(p) && LabelMatch(locations, p).kind == WildCardMatch
    ensures var ce := ClosestEncloser(locations, p);
            Labels(LabelMatch(locations, p).name) == ce + ["*"] && |ce| < |p| && !Exists(locations, p)
  {
    var ce := ClosestEncloser(locations, p);
    PrefixOfPath(ce, p);
    Extend(ce, "*");
    LabelsOfText(ce + ["*"]);
  }

  lemma EncloserName(locations: seq<string>, p: Path)
    requires IsPath(p) && LabelMatch(locations, p).kind == CEMatch
    ensures var ce := ClosestEncloser(locations, p);
            Labels(LabelMatch(locations, p).name) == ce && |ce| < |p| && !Exists(locations, p)
    ensures var ce := ClosestEncloser(locations, p);
            ce != [] && LabelMatch(locations, ce) == Location(LabelMatch(locations, p).name, ExactMatch)
  {
    var ce := ClosestEncloser(locations, p);
    PrefixOfPath(ce, p);
    LabelsOfText(ce);
  }

  /** The search continued one label above a location. */
  ghost function Above(z: Zone, store: Store, name: string): Option<RRSet> {
    var p := Labels(name);
    Nearest(z, store, p[..|p| - 1])
  }

  /** One stop of the climb, at the name with labels `q`. */
  lemma Stop(z: Zone, store: Store, q: Path)
    requires IsPath(q)
    ensures var loc := LabelMatch(z.locations, q);
            var found := Answers(loc.kind) && SetAt(store, loc.name) != [];
            && (found ==> Nearest(z, store, q) == Some(store(loc.name).rrset))
            && (!found ==> Nearest(z, store, q) == Above(z, store, Text(q)))
            && (!found && Answers(loc.kind) ==> Nearest(z, store, q) == Above(z, store, loc.name))
  {
    hide LabelMatch;
    LabelsOfText(q);
    var loc := LabelMatch(z.locations, q);
    var ce := ClosestEncloser(z.locations, q);
    if loc.kind == WildCardMatch && SetOf(z, store, q) == [] {
      WildcardName(z.locations, q);
      JumpToEncloser(z, store, q, q);
      assert (ce + ["*"])[..|ce|] == ce;
    } else if loc.kind == ExactMatch {
      ExactName(z.locations, q);
    }
  }

  lemma ExactName(locations: seq<string>, q: Path)
    requires q != [] && LabelMatch(locations, q).kind == ExactMatch
    ensures LabelMatch(locations, q).name == Text(q)
  {
  }

  /** A lookup never leads to a name with more dots, so climbing one label up always shortens. */
  lemma DotsShrink(z: Zone, name: string)
    requires Built(z) && Answers(FindLocation(z, name).kind)
    ensures Count(FindLocation(z, name).name, '.') <= Count(name, '.')
  {
    hide FindLocation, LabelMatch;
    FindLocationIsLabelMatch(z, name);
    if name == z.name {
      assert Count("@", '.') == 0;
    } else {
      var rel := TrimSuffix(name, "." + z.name);
      var q := Labels(rel);
      var loc := LabelMatch(z.locations, q);
      LabelsArePath(rel);
      TextOfLabels(rel);
      DotsOfText(q);
      assert name == rel + name[|rel|..];
      CountConcat(rel, name[|rel|..], '.');
      if loc.kind == WildCardMatch {
        WildcardName(z.locations, q);
        TextOfLabels(loc.name);
        LabelsArePath(loc.name);
        DotsOfText(Labels(loc.name));
      } else {
        ExactName(z.locations, q);
      }
    }
  }

  lemma UpFromDot(s: string)
    requires FirstDot(s) < |s|
    ensures var up := s[FirstDot(s) + 1..];
            Labels(s)[..|Labels(s)| - 1] == Labels(up) && Count(up, '.') == Count(s, '.') - 1
  {
  }

  /** Zone names are fully qualified and locations are not. */
  ghost predicate Canonical(z: Zone) {
    EndsWith(z.name, ".") && forall l | l in z.locations :: Unqualified(l)
  }

  /**
   What the search is for: the nearest set at or above the query. A query that matches nothing, or
   an empty non-terminal, has no location to climb from; it is answered from the apex, unless a
   set is stored under the empty label.
   */
  ghost function Relevant(z: Zone, store: Store, query: string): Option<RRSet> {
    if query == z.name then Apex(store) else
      var q := Relative(z, query);
      if LabelMatch(z.locations, q).kind !in {EmptyNonterminalMatch, NoMatch} then Nearest(z, store, q)
      else if SetAt(store, "") != [] then Some(store("").rrset)
      else Apex(store)
  }

  /** The first location looked at: either it has the relevant set, or the climb goes on above it. */
  lemma Start(z: Zone, store: Store, query: string)
    requires Built(z)
    ensures var loc := FindLocation(z, query).name;
            Relevant(z, store, query) ==
            if SetAt(store, loc) != [] then Some(store(loc).rrset) else Above(z, store, loc)
  {
    hide FindLocation;
    FindLocationIsLabelMatch(z, query);
    if query == z.name {
      NoDot("@");
    } else {
      var rel := TrimSuffix(query, "." + z.name);
      var q := Labels(rel);
      LabelsArePath(rel);
      StartBelow(z, store, q);
    }
  }

  lemma StartBelow(z: Zone, store: Store, q: Path)
    requires IsPath(q)
    ensures var loc := LabelMatch(z.locations, q);
            (if loc.kind !in {EmptyNonterminalMatch, NoMatch} then Nearest(z, store, q)
             else if SetAt(store, "") != [] then Some(store("").rrset) else Apex(store)) ==
            if SetAt(store, loc.name) != [] then Some(store(loc.name).rrset) else Above(z, store, loc.name)
  {
    Stop(z, store, q);
    var loc := LabelMatch(z.locations, q);
    if loc.kind == CEMatch {
      var ce := ClosestEncloser(z.locations, q);
      EncloserName(z.locations, q);
      JumpToEncloser(z, store, q, q);
      PrefixOfPath(ce, q);
      Stop(z, store, ce);
    } else if !Answers(loc.kind) {
      NoDot("");
    }
  }

  method FindCAA(z: Zone, store: Store, query: string) returns (r: Option<RRSet>)
    requires Built(z)
    ensures Canonical(z) ==> r == Relevant(z, store, query)
  {
    hide FindLocation, LabelMatch, Relevant;
    var currentLocation := FindLocation(z, query).name;
    Start(z, store, query);
    var currentCAA := store(currentLocation);
    if currentCAA.Found? && currentCAA.rrset.data != [] {
      return Some(currentCAA.rrset);
    }
    StartName(z, query);
    while FirstDot(currentLocation) < |currentLocation|
      invariant Canonical(z) ==> Unqualified(currentLocation)
      invariant Canonical(z) ==> Relevant(z, store, query) == Above(z, store, currentLocation)
      decreases Count(currentLocation, '.')
    {
      var up := currentLocation[FirstDot(currentLocation) + 1..];
      UpFromDot(currentLocation);
      var loc := FindLocation(z, up);
      if Canonical(z) {
        RelativeLookup(z, up);
        LabelsArePath(up);
        TextOfLabels(up);
        Stop(z, store, Labels(up));
      }
      if !Answers(loc.kind) {
        currentLocation := up;
        continue;
      }
      DotsShrink(z, up);
      var caa := store(loc.name);
      if caa.Failed? {
        currentLocation := up;
        continue;
      }
      if caa.rrset.data != [] {
        return Some(caa.rrset);
      }
      StartName(z, up);
      currentLocation := loc.name;
    }
    NoDot(currentLocation);
    r := Apex(store);
  }

  /** Whatever a lookup returns is a stored location, "@" or nothing. */
  lemma StartName(z: Zone, query: string)
    requires Built(z)
    ensures Canonical(z) ==> Unqualified(FindLocation(z, query).name)
  {
    hide FindLocation;
    FindLocationIsLabelMatch(z, query);
  }
}
