/**
 The two name indexes of the server: the locations of one zone (internal/types/zone.go) and the
 list of enabled zones (internal/storage/data_handler.go). Each is a radix tree over reversed
 names. The label-level definitions they are compared with come from section 3.3.1 of RFC 4592.
 */
module Zones {
  import opened Names
  import opened Radix
  import opened Wrappers

  datatype Zone = Zone(name: string, tree: Tree, locations: seq<string>)

  datatype Match = ExactMatch | WildCardMatch | EmptyNonterminalMatch | CEMatch | NoMatch

  datatype Location = Location(name: string, kind: Match)

  // ---------------------------------------------------------------- building the indexes

  method ReverseName(name: string) returns (r: string)
    ensures r == Reversed("." + name)
  {
    var s := "." + name;
    var runes := new char[|s|](i requires 0 <= i < |s| => s[i]);
    assert runes[..] == s;
    SwapEnds(runes);
    r := runes[..];
  }

  method SwapEnds(runes: array<char>)
    modifies runes
    ensures runes[..] == Reversed(old(runes[..]))
  {
    ghost var s := runes[..];
    var i, j := 0, runes.Length - 1;
    while i < j
      invariant 0 <= i && j == |s| - 1 - i && i <= j + 1
      invariant forall k | 0 <= k < i || j < k < |s| :: runes[k] == s[|s| - 1 - k]
      invariant forall k | i <= k <= j :: runes[k] == s[k]
    {
      runes[i], runes[j] := runes[j], runes[i];
      i, j := i + 1, j - 1;
    }
    ReversedBy(s, runes[..]);
  }

  lemma ReversedBy(s: string, r: string)
    requires |r| == |s| && forall k | 0 <= k < |s| :: r[k] == s[|s| - 1 - k]
    ensures r == Reversed(s)
  {
    forall k | 0 <= k < |s| ensures r[k] == Reversed(s)[k] {
      ReversedAt(s, k);
    }
  }

  /** `k` is a piece of `rvalue` that ends right behind one of its dots. */
  ghost predicate Cut(rvalue: string, k: string) {
    k != "" && k <= rvalue && k[|k| - 1] == '.'
  }

  ghost predicate CutOfAny(rvalues: seq<string>, k: string) {
    exists rvalue | rvalue in rvalues :: Cut(rvalue, k)
  }

  /** The name `p` exists: it is a location or an ancestor of one. */
  ghost predicate Exists(locations: seq<string>, p: Path) {
    exists l | l in locations :: p <= Labels(l)
  }

  /** The tree holds one key per existing name, valued with the location when the name is one. */
  ghost predicate Indexes(t: Tree, locations: seq<string>) {
    && (forall k | k in t :: exists p :: IsPath(p) && Exists(locations, p) && Key(p) == k)
    && (forall p | IsPath(p) && Exists(locations, p) ::
          Key(p) in t && t[Key(p)] == if Text(p) in locations then Some(Text(p)) else None)
  }

  ghost predicate Built(z: Zone) {
    Indexes(z.tree, z.locations)
  }

  /** Inserts every ancestor of one reversed location that is not in the tree yet, without a value. */
  method InsertAncestors(tree: Tree, rvalue: string) returns (t: Tree)
    ensures forall k :: k in t <==> k in tree || Cut(rvalue, k)
    ensures forall k | k in t :: t[k] == if k in tree then tree[k] else None
  {
    t := tree;
    for i := 0 to |rvalue|
      invariant forall k :: k in t <==> k in tree || (Cut(rvalue, k) && |k| <= i)
      invariant forall k | k in t :: t[k] == if k in tree then tree[k] else None
    {
      if rvalue[i] == '.' {
        if rvalue[..i + 1] !in t {
          t := t[rvalue[..i + 1] := None];
        }
      }
      assert forall k | Cut(rvalue, k) && |k| == i + 1 :: k == rvalue[..i + 1];
    }
  }

  method InsertLocations(tree: Tree, rvalues: seq<string>, locations: seq<string>) returns (t: Tree)
    requires |rvalues| == |locations|
    requires forall m, n | 0 <= m < n < |rvalues| && rvalues[m] == rvalues[n] :: locations[m] == locations[n]
    ensures forall k :: k in t <==> k in tree || k in rvalues
    ensures forall m | 0 <= m < |rvalues| :: t[rvalues[m]] == Some(locations[m])
    ensures forall k | k in tree && k !in rvalues :: t[k] == tree[k]
  {
    t := tree;
    for n := 0 to |rvalues|
      invariant forall k :: k in t <==> k in tree || k in rvalues[..n]
      invariant forall m | 0 <= m < n :: t[rvalues[m]] == Some(locations[m])
      invariant forall k | k in tree && k !in rvalues[..n] :: t[k] == tree[k]
    {
      t := t[rvalues[n] := Some(locations[n])];
      assert rvalues[..n + 1] == rvalues[..n] + [rvalues[n]];
    }
    assert rvalues[..|rvalues|] == rvalues;
  }

  method NewZone(name: string, locations: seq<string>) returns (z: Zone)
    ensures z.name == name && z.locations == locations && Built(z)
  {
    var tree: Tree := map[];
    var rvalues: seq<string> := [];
    for n := 0 to |locations|
      invariant |rvalues| == n
      invariant forall j | 0 <= j < n :: rvalues[j] == Reversed("." + locations[j])
    {
      var rvalue := ReverseName(locations[n]);
      rvalues := rvalues + [rvalue];
    }
    for n := 0 to |rvalues|
      invariant forall k :: k in tree <==> CutOfAny(rvalues[..n], k)
      invariant forall k | k in tree :: tree[k] == None
    {
      tree := InsertAncestors(tree, rvalues[n]);
      assert rvalues[..n + 1] == rvalues[..n] + [rvalues[n]];
    }
    assert rvalues[..|rvalues|] == rvalues;
    SameReversedNames(rvalues, locations);
    tree := InsertLocations(tree, rvalues, locations);
    CutsAreNames(tree, locations, rvalues);
    z := Zone(name, tree, locations);
  }

  lemma RootedName(s: string)
    ensures Reversed("." + s) != "" && Reversed("." + s)[|s|] == '.'
  {
    ReversedAt("." + s, |s|);
  }

  lemma SameReversedName(a: string, b: string)
    requires Reversed("." + a) == Reversed("." + b)
    ensures a == b
  {
    ReversedTwice("." + a);
    ReversedTwice("." + b);
    assert a == ("." + a)[1..] && b == ("." + b)[1..];
  }

  lemma SameReversedNames(rvalues: seq<string>, locations: seq<string>)
    requires |rvalues| == |locations|
    requires forall j | 0 <= j < |rvalues| :: rvalues[j] == Reversed("." + locations[j])
    ensures forall m, n | 0 <= m < n < |rvalues| && rvalues[m] == rvalues[n] :: locations[m] == locations[n]
  {
    forall m, n | 0 <= m < n < |rvalues| && rvalues[m] == rvalues[n] ensures locations[m] == locations[n] {
      SameReversedName(locations[m], locations[n]);
    }
  }

  lemma CutsAreNames(t: Tree, locations: seq<string>, rvalues: seq<string>)
    requires |rvalues| == |locations|
    requires forall j | 0 <= j < |rvalues| :: rvalues[j] == Reversed("." + locations[j])
    requires forall k :: k in t <==> CutOfAny(rvalues, k) || k in rvalues
    requires forall m | 0 <= m < |rvalues| :: t[rvalues[m]] == Some(locations[m])
    requires forall k | k in t && k !in rvalues :: t[k] == None
    ensures Indexes(t, locations)
  {
    forall k | k in t ensures exists p :: IsPath(p) && Exists(locations, p) && Key(p) == k {
      var m :| 0 <= m < |rvalues| && (Cut(rvalues[m], k) || k == rvalues[m]);
      RootedName(locations[m]);
      var p := CutName(locations[m], k);
      assert locations[m] in locations;
    }
    forall p | IsPath(p) && Exists(locations, p)
      ensures Key(p) in t && t[Key(p)] == if Text(p) in locations then Some(Text(p)) else None
    {
      ValueOfName(t, locations, rvalues, p);
    }
  }

  lemma ValueOfName(t: Tree, locations: seq<string>, rvalues: seq<string>, p: Path)
    requires |rvalues| == |locations|
    requires forall j | 0 <= j < |rvalues| :: rvalues[j] == Reversed("." + locations[j])
    requires forall k :: k in t <==> CutOfAny(rvalues, k) || k in rvalues
    requires forall m | 0 <= m < |rvalues| :: t[rvalues[m]] == Some(locations[m])
    requires forall k | k in t && k !in rvalues :: t[k] == None
    requires IsPath(p) && Exists(locations, p)
    ensures Key(p) in t && t[Key(p)] == if Text(p) in locations then Some(Text(p)) else None
  {
    var m :| 0 <= m < |locations| && p <= Labels(locations[m]);
    NameCut(locations[m], p);
    assert rvalues[m] in rvalues && Cut(rvalues[m], Key(p));
    LabelsOfText(p);
    ReversedNameIsKey(Text(p));
    if Text(p) in locations {
      var n :| 0 <= n < |locations| && locations[n] == Text(p);
      assert rvalues[n] == Key(p);
    } else if Key(p) in rvalues {
      var n :| 0 <= n < |rvalues| && rvalues[n] == Key(p);
      SameReversedName(locations[n], Text(p));
    }
  }

  lemma CutName(l: string, k: string) returns (p: Path)
    requires Cut(Reversed("." + l), k)
    ensures IsPath(p) && p <= Labels(l) && Key(p) == k
  {
    ReversedNameIsKey(l);
    LabelsArePath(l);
    p := CutIsAncestor(Labels(l), |k| - 1);
    assert forall i | 0 <= i < |p| :: p[i] == Labels(l)[i];
  }

  lemma NameCut(l: string, p: Path)
    requires IsPath(p) && p <= Labels(l)
    ensures Cut(Reversed("." + l), Key(p))
  {
    ReversedNameIsKey(l);
    LabelsArePath(l);
    KeyPrefixIsAncestor(p, Labels(l));
  }

  // ---------------------------------------------------------------- finding a location

  predicate EndsWith(s: string, suffix: string) {
    |suffix| <= |s| && s[|s| - |suffix|..] == suffix
  }

  function TrimSuffix(s: string, suffix: string): string {
    if EndsWith(s, suffix) then s[..|s| - |suffix|] else s
  }

  function Get(t: Tree, k: string): Option<string> {
    if k in t then t[k] else None
  }

  function FindLocation(z: Zone, query: string): Location {
    if query == z.name then Location("@", ExactMatch) else
    var query := TrimSuffix(query, "." + z.name);
    var rquery := Reversed("." + query);
    match LongestPrefix(z.tree, rquery)
    case None =>
      if Get(z.tree, "*.").Some? then Location("*", WildCardMatch) else Location("", NoMatch)
    case Some(prefix) =>
      var wildcard := Get(z.tree, prefix + "*.");
      if z.tree[prefix].Some? then
        if prefix == rquery then Location(query, ExactMatch)
        else if wildcard.Some? then Location(wildcard.value, WildCardMatch)
        else Location(z.tree[prefix].value, CEMatch)
      else
        if prefix == rquery then Location("", EmptyNonterminalMatch)
        else if wildcard.Some? then Location(wildcard.value, WildCardMatch)
        else Location("", NoMatch)
  }

  /** The deepest existing ancestor of `q`; the apex `[]` always exists. */
  ghost function ClosestEncloser(locations: seq<string>, q: Path): (c: Path)
    ensures c <= q && (c == [] || Exists(locations, c))
    ensures forall p | p <= q && p != [] && Exists(locations, p) :: p <= c
  {
    if q == [] || Exists(locations, q) then q else
      ClosestEncloser(locations, q[..|q| - 1])
  }

  /** Section 3.3.1 of RFC 4592 over labels: no tree, no reversal, no prefix search. */
  ghost function LabelMatch(locations: seq<string>, q: Path): Location
    requires q != []
  {
    var ce := ClosestEncloser(locations, q);
    if Text(q) in locations then Location(Text(q), ExactMatch)
    else if Exists(locations, q) then Location("", EmptyNonterminalMatch)
    else if Text(ce + ["*"]) in locations then Location(Text(ce + ["*"]), WildCardMatch)
    else if ce != [] && Text(ce) in locations then Location(Text(ce), CEMatch)
    else Location("", NoMatch)
  }

  ghost function Relative(z: Zone, query: string): Path {
    Labels(TrimSuffix(query, "." + z.name))
  }

  lemma LocationExists(locations: seq<string>, p: Path)
    requires IsPath(p) && Text(p) in locations
    ensures Exists(locations, p)
  {
    LabelsOfText(p);
    assert p <= Labels(Text(p));
  }

  lemma Extend(p: Path, l: string)
    requires DotFree(p) && '.' !in l
    ensures IsPath(p + [l]) && Key(p + [l]) == Key(p) + (Reversed(l) + ".")
  {
    KeyBelow(p, l);
  }

  lemma WildcardGet(z: Zone, ce: Path)
    requires Built(z) && DotFree(ce)
    ensures Get(z.tree, Key(ce) + "*.") ==
            if Text(ce + ["*"]) in z.locations then Some(Text(ce + ["*"])) else None
  {
    var w := ce + ["*"];
    Extend(ce, "*");
    assert Reversed("*") == "*";
    assert "*" + "." == "*.";
    if Text(w) in z.locations {
      LocationExists(z.locations, w);
    } else if Key(w) in z.tree {
      var p :| IsPath(p) && Exists(z.locations, p) && Key(p) == Key(w);
      KeyInjective(p, w);
    }
  }

  lemma PrefixOfPath(p: Path, q: Path)
    requires p <= q && DotFree(q)
    ensures DotFree(p)
  {
    assert forall i | 0 <= i < |p| :: p[i] == q[i];
  }

  /** A key of the tree that the query's key starts with belongs to an ancestor of the encloser. */
  lemma KeyBelowEncloser(z: Zone, q: Path, ce: Path, k: string)
    requires Built(z) && DotFree(q) && DotFree(ce)
    requires forall p | p <= q && p != [] && Exists(z.locations, p) :: p <= ce
    requires k in z.tree && k <= Key(q)
    ensures ce != [] && k <= Key(ce)
  {
    var p :| IsPath(p) && Exists(z.locations, p) && Key(p) == k;
    KeyPrefixIsAncestor(p, q);
    KeyPrefixIsAncestor(p, ce);
  }

  lemma EncloserKey(z: Zone, q: Path, ce: Path)
    requires Built(z) && DotFree(q) && IsPath(ce) && ce <= q && Exists(z.locations, ce)
    ensures Key(ce) in z.tree && Key(ce) <= Key(q)
  {
    KeyPrefixIsAncestor(ce, q);
  }

  lemma SamePrefix(a: string, b: string)
    requires a <= b && b <= a
    ensures a == b
  {
  }

  lemma {:induction false} PrefixIsEncloser(z: Zone, q: Path, ce: Path, r: Option<string>)
    requires Built(z) && DotFree(q)
    requires ce <= q && (ce == [] || Exists(z.locations, ce))
    requires forall p | p <= q && p != [] && Exists(z.locations, p) :: p <= ce
    requires r.None? ==> forall k | k in z.tree :: !(k <= Key(q))
    requires r.Some? ==> r.value in z.tree && r.value <= Key(q) && forall k | k in z.tree && k <= Key(q) :: k <= r.value
    ensures r == if ce == [] then None else Some(Key(ce))
  {
    PrefixOfPath(ce, q);
    if ce != [] {
      EncloserKey(z, q, ce);
      KeyBelowEncloser(z, q, ce, r.value);
      SamePrefix(r.value, Key(ce));
    } else if r.Some? {
      KeyBelowEncloser(z, q, ce, r.value);
    }
  }

  /** The index agrees with the label-level definition, for every location list and every query. */
  lemma FindLocationIsLabelMatch(z: Zone, query: string)
    requires Built(z)
    ensures FindLocation(z, query) ==
            if query == z.name then Location("@", ExactMatch) else LabelMatch(z.locations, Relative(z, query))
  {
    var name := TrimSuffix(query, "." + z.name);
    var q := Labels(name);
    var ce := ClosestEncloser(z.locations, q);
    LabelsArePath(name);
    TextOfLabels(name);
    ReversedNameIsKey(name);
    PrefixIsEncloser(z, q, ce, LongestPrefix(z.tree, Key(q)));
    PrefixOfPath(ce, q);
    WildcardGet(z, ce);
    if ce == [] {
      assert Key(ce) + "*." == "*." && Text(ce + ["*"]) == "*";
      NoEncloser(z.locations, q);
    } else {
      if ce != q && Key(ce) == Key(q) {
        KeyInjective(ce, q);
      }
      if Text(q) in z.locations {
        LocationExists(z.locations, q);
      }
    }
  }

  lemma NoEncloser(locations: seq<string>, q: Path)
    requires IsPath(q) && ClosestEncloser(locations, q) == []
    ensures !Exists(locations, q) && Text(q) !in locations
  {
    if Text(q) in locations {
      LocationExists(locations, q);
    }
  }

  /** A fully qualified query inside the zone is looked up under its labels above the zone name. */
  lemma InZoneQuery(z: Zone, p: Path)
    requires Built(z) && IsPath(p)
    ensures var query := Text(p) + "." + z.name;
            query != z.name && FindLocation(z, query) == LabelMatch(z.locations, p)
  {
    var query := Text(p) + "." + z.name;
    assert query[|query| - |"." + z.name|..] == "." + z.name;
    assert TrimSuffix(query, "." + z.name) == Text(p);
    LabelsOfText(p);
    FindLocationIsLabelMatch(z, query);
  }

  // ---------------------------------------------------------------- finding a zone

  ghost predicate ZoneIndex(t: Tree, zones: seq<string>) {
    && (forall k | k in t :: t[k].Some? && t[k].value in zones && k == Reversed("." + t[k].value))
    && (forall z | z in zones :: Reversed("." + z) in t && t[Reversed("." + z)] == Some(z))
  }

  method LoadZones(zones: seq<string>) returns (t: Tree)
    ensures ZoneIndex(t, zones)
  {
    t := map[];
    for n := 0 to |zones|
      invariant ZoneIndex(t, zones[..n])
    {
      var key := ReverseName(zones[n]);
      forall z | z in zones[..n] && Reversed("." + z) == key ensures z == zones[n] {
        SameReversedName(z, zones[n]);
      }
      t := t[key := Some(zones[n])];
      assert zones[..n + 1] == zones[..n] + [zones[n]];
    }
    assert zones[..|zones|] == zones;
  }

  function FindZone(t: Tree, qname: string): string {
    match LongestPrefix(t, Reversed("." + qname))
    case None => ""
    case Some(k) => if t[k].Some? then t[k].value else ""
  }

  /** Zone `z` holds the name: its labels are the topmost labels of the name. */
  ghost predicate Holds(z: string, qname: string) {
    Labels(z) <= Labels(qname)
  }

  lemma HoldsIsKeyPrefix(z: string, qname: string)
    ensures Holds(z, qname) <==> Reversed("." + z) <= Reversed("." + qname)
  {
    LabelsArePath(z);
    LabelsArePath(qname);
    ReversedNameIsKey(z);
    ReversedNameIsKey(qname);
    KeyPrefixIsAncestor(Labels(z), Labels(qname));
  }

  lemma HeldByNothing(z: string)
    ensures Holds(z, "") <==> z == ""
  {
    TextOfLabels(z);
    LabelsOfText([""]);
  }

  /** FindZone returns the deepest enabled zone that holds the name, and "" when none but the zone "" does. */
  lemma FindZoneIsDeepest(t: Tree, zones: seq<string>, qname: string)
    requires ZoneIndex(t, zones)
    ensures var r := FindZone(t, qname);
            if exists z :: z in zones && Holds(z, qname)
            then r in zones && Holds(r, qname) && forall z | z in zones && Holds(z, qname) :: Holds(z, r)
            else r == ""
    ensures FindZone(t, qname) == "" <==> forall z | z in zones && Holds(z, qname) :: z == ""
  {
    var r := FindZone(t, qname);
    forall z | z in zones && Holds(z, qname)
      ensures r in zones && Holds(r, qname) && Holds(z, r) && (r == "" ==> z == "")
    {
      HoldsIsKeyPrefix(z, qname);
      HoldsIsKeyPrefix(r, qname);
      HoldsIsKeyPrefix(z, r);
      HeldByNothing(z);
    }
    if LongestPrefix(t, Reversed("." + qname)).Some? {
      HoldsIsKeyPrefix(r, qname);
    }
  }

  /** The order in which the zone list is loaded, and repetitions in it, do not matter. */
  lemma FindZoneIgnoresOrder(t: Tree, zones: seq<string>, t': Tree, zones': seq<string>, qname: string)
    requires ZoneIndex(t, zones) && ZoneIndex(t', zones')
    requires forall z :: z in zones <==> z in zones'
    ensures FindZone(t, qname) == FindZone(t', qname)
  {
    assert t == t' by {
      assert forall k | k in t :: t[k].value in zones' && k in t' && t'[k] == t[k];
      assert forall k | k in t' :: t'[k].value in zones && k in t;
    }
  }

  lemma {:induction false} QualifiedText(p: Path)
    requires IsPath(p)
    ensures Text([""] + p) == Text(p) + "."
  {
    var q := [""] + p;
    var n := |p| - 1;
    if n > 0 {
      QualifiedText(p[..n]);
      assert q[..n + 1] == [""] + p[..n];
      assert Text(q) == p[n] + "." + Text(q[..n + 1]);
    } else {
      assert q[..1] == [""];
      assert Text(q) == p[0] + "." + Text([""]);
    }
  }

  lemma LabelsOfQualified(p: Path)
    requires IsPath(p)
    ensures Labels(Text(p) + ".") == [""] + p
  {
    QualifiedText(p);
    LabelsOfText([""] + p);
  }

  /**
   For fully qualified names, holding is the DNS notion: the zone's labels end the query's labels.
   The one exception is the root zone ".", which the index finds for no query below it.
   */
  lemma {:induction false} QualifiedHolds(zone: Path, query: Path)
    requires IsPath(zone) && IsPath(query)
    ensures Holds(Text(zone) + ".", Text(query) + ".") <==> zone <= query
    ensures Holds(".", Text(query) + ".") <==> query[0] == ""
  {
    LabelsOfQualified(zone);
    LabelsOfQualified(query);
    LabelsOfQualified([""]);
    assert Text([""]) + "." == ".";
    assert ([""] + zone)[1..] == zone && ([""] + query)[1..] == query;
    assert [""] + zone <= [""] + query <==> zone <= query;
    assert ([""] + query)[1] == query[0];
  }
}
