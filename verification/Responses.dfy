/**
 What the response of the query loop of internal/resolver/handler.go says about the name at which the
 CNAME chain ends, judged by the labels of that name: which records it serves, when it says that the
 name does not exist, and when that the name has no such data (sections 2.1 and 2.2 of RFC 2308).
 */
module Responses {
  import opened Names
  import opened Wrappers
  import opened Zones
  import opened Records
  import opened Resolver
  import opened Flattening

  /** How the walk along the CNAMEs ends: not in time, at a target outside the zone, or at a name without one. */
  datatype WalkEnd = TooLong | Leaves(cname: RRSet) | At(name: string)

  /** Only the flattening mode looks ahead and stops in front of a target outside the zone. */
  function Walk(s: Server, qtype: RType, flattening: bool, loopCount: nat, cur: string): WalkEnd
    decreases MAX_HOPS + 1 - loopCount
  {
    if loopCount > MAX_HOPS then TooLong else
      match HopAt(s, qtype, cur)
      case None => At(cur)
      case Some(cname) =>
        if flattening && !InZone(s, Host(cname)) then Leaves(cname)
        else Walk(s, qtype, flattening, loopCount + 1, Fqdn(Host(cname)))
  }

  predicate NoSet(lookup: Lookup) {
    lookup.Found? && lookup.rrset.data == []
  }

  /** No such name: neither it nor a name below it exists, no wildcard covers it, and no cut is above it. */
  ghost predicate Missing(s: Server, name: string) {
    && InZone(s, name) && name != s.zone.name
    && var q := Relative(s.zone, name);
       var ce := ClosestEncloser(s.zone.locations, q);
       && q != [] && Text(q) !in s.zone.locations && !Exists(s.zone.locations, q)
       && Text(ce + ["*"]) !in s.zone.locations
       && (ce != [] && Text(ce) in s.zone.locations ==> NoSet(s.lookup(Text(ce), NS)))
  }

  /** The zone answers for this location itself: it is an empty non-terminal, or exists and is not delegated. */
  predicate Authoritative(s: Server, loc: Location, name: string) {
    loc.kind == EmptyNonterminalMatch || (loc.kind in {ExactMatch, WildCardMatch} && HasOwnData(s, loc.name, name))
  }

  predicate HasOwnData(s: Server, location: string, name: string) {
    s.lookup(location, CNAME).Found? && (name == s.zone.name || NoSet(s.lookup(location, NS)))
  }

  /** A location answers for the name, itself or as a wildcard. */
  predicate Answered(s: Server, name: string) {
    InZone(s, name) && FindLocation(s.zone, name).kind in {ExactMatch, WildCardMatch}
  }

  /** The zone answers for the name from its own data. */
  predicate Settled(s: Server, name: string) {
    Answered(s, name) && HasOwnData(s, FindLocation(s.zone, name).name, name)
  }

  /** The location has no address but an ANAME, whose target is reported with this rcode. */
  predicate AnameGives(s: Server, qtype: RType, location: string, res: Rcode) {
    && qtype in {A, AAAA} && NoSet(s.lookup(location, qtype))
    && s.lookup(location, ANAME).Found? && Host(s.lookup(location, ANAME).rrset) != ""
    && s.aname(Host(s.lookup(location, ANAME).rrset), qtype).res == res
  }

  /** The rcode of an ANAME target is passed on to the client as it is. */
  predicate AnameReports(s: Server, qtype: RType, name: string, res: Rcode) {
    var loc := FindLocation(s.zone, name);
    && InZone(s, name) && loc.kind in {ExactMatch, WildCardMatch}
    && HasOwnData(s, loc.name, name) && AnameGives(s, qtype, loc.name, res)
  }

  /** A read of NS and DS sets that is needed for a delegation fails. */
  predicate CutUnreadable(s: Server, location: string) {
    var ns := s.lookup(location, NS);
    ns.Failed? || (ns.rrset.data != [] && s.lookup(location, DS).Failed?)
  }

  predicate ContentUnreadable(s: Server, qtype: RType, location: string) {
    && qtype != OTHER
    && (s.lookup(location, qtype).Failed? || (qtype in {A, AAAA} && s.lookup(location, ANAME).Failed?))
  }

  /** A read that the answer for a matched location needs fails. */
  predicate DataUnreadable(s: Server, qtype: RType, location: string, name: string) {
    || s.lookup(location, CNAME).Failed?
    || (name != s.zone.name && CutUnreadable(s, location))
    || (HasOwnData(s, location, name) && ContentUnreadable(s, qtype, location))
  }

  /** A read of the store that the answer needs fails. */
  predicate Unreadable(s: Server, qtype: RType, name: string) {
    var loc := FindLocation(s.zone, name);
    InZone(s, name) &&
    match loc.kind
    case CEMatch => CutUnreadable(s, loc.name)
    case ExactMatch => DataUnreadable(s, qtype, loc.name, name)
    case WildCardMatch => DataUnreadable(s, qtype, loc.name, name)
    case _ => false
  }

  /** The SOA is there exactly when the final records are not. */
  predicate SoaWithoutData(s: Server, r: Context) {
    r.res == NoError ==> r.authority == if NonCname(r.answer) == [] then [s.soa] else []
  }

  /**
   What a response says about a name: a name error exactly when the name is missing or an ANAME target is
   reported so; a failure exactly when a read or an ANAME target fails; a missing name is denied with the
   zone's SOA; where the zone itself answers, the SOA stands in for final records; and about a name outside
   the zone it says nothing.
   */
  ghost predicate Denies(s: Server, qtype: RType, name: string, r: Context) {
    && (r.res == NameError <==> Missing(s, name) || AnameReports(s, qtype, name, NameError))
    && (r.res == ServFail <==> Unreadable(s, qtype, name) || AnameReports(s, qtype, name, ServFail))
    && (Missing(s, name) ==> r.authority == [s.soa] && NonCname(r.answer) == [])
    && (InZone(s, name) && Authoritative(s, FindLocation(s.zone, name), name) ==> SoaWithoutData(s, r))
    && (!InZone(s, name) ==> r == START.(answer := r.answer) && NonCname(r.answer) == [])
  }

  /** Values and ttl for a query at a location; address sets give way to an ANAME when they are empty. */
  function Content(s: Server, qtype: RType, location: string): Option<RRSet>
    requires OwnedType(qtype)
  {
    var own := s.lookup(location, qtype);
    if qtype == OTHER || own.Failed? then None
    else if qtype !in {A, AAAA} then Some(own.rrset)
    else
      var aname := s.lookup(location, ANAME);
      if aname.Failed? then None
      else if own.rrset.data == [] && Host(aname.rrset) != "" then
        var found := s.aname(Host(aname.rrset), qtype);
        Some(RRSet(found.ttl, found.ips))
      else Some(RRSet(own.rrset.ttl, s.filter(own.rrset)))
  }

  /** Where the zone itself answers, the final records are exactly the content of the location under `owner`. */
  ghost predicate Serves(s: Server, qtype: RType, name: string, owner: string, r: Context)
    requires OwnedType(qtype)
  {
    var loc := FindLocation(s.zone, name);
    InZone(s, name) && loc.kind in {ExactMatch, WildCardMatch} && HasOwnData(s, loc.name, name) ==>
      ServesAt(s, qtype, loc.name, owner, r)
  }

  ghost predicate ServesAt(s: Server, qtype: RType, location: string, owner: string, r: Context)
    requires OwnedType(qtype)
  {
    var content := Content(s, qtype, location);
    content.Some? ==> Lists(NonCname(r.answer), owner, qtype, content.value.ttl, content.value.data)
  }

  /** The location holds a cut that the store can serve. */
  predicate Delegated(s: Server, loc: Location, name: string) {
    && s.lookup(loc.name, NS).Found? && s.lookup(loc.name, NS).rrset.data != [] && s.lookup(loc.name, DS).Found?
    && (|| loc.kind == CEMatch
        || (loc.kind in {ExactMatch, WildCardMatch} && s.lookup(loc.name, CNAME).Found? && name != s.zone.name))
  }

  function CutName(s: Server, loc: Location, name: string): string {
    if loc.kind == CEMatch then loc.name + "." + s.zone.name else name
  }

  /** The section is the records of two sets of an owner, the one behind the other. */
  ghost predicate ListsBoth(rrs: seq<RR>, owner: string, t: RType, first: RRSet, u: RType, second: RRSet) {
    exists k | 0 <= k <= |rrs| ::
      Lists(rrs[..k], owner, t, first.ttl, first.data) && Lists(rrs[k..], owner, u, second.ttl, second.data)
  }

  lemma ValuesListBoth(owner: string, t: RType, first: RRSet, u: RType, second: RRSet)
    ensures ListsBoth(Values(owner, t, first.ttl, first.data) + Values(owner, u, second.ttl, second.data),
                      owner, t, first, u, second)
  {
    hide Lists, Values;
    ValuesListed(owner, t, first.ttl, first.data);
    ValuesListed(owner, u, second.ttl, second.data);
    var a, b := Values(owner, t, first.ttl, first.data), Values(owner, u, second.ttl, second.data);
    assert (a + b)[..|a|] == a && (a + b)[|a|..] == b;
  }

  /** The authority section is the NS and DS sets of the cut, the additional section the addresses of its hosts. */
  ghost predicate RefersTo(s: Server, loc: Location, cut: string, r: Context)
    requires s.lookup(loc.name, NS).Found? && s.lookup(loc.name, DS).Found?
  {
    var ns, ds := s.lookup(loc.name, NS).rrset, s.lookup(loc.name, DS).rrset;
    && r.res == NoError && NonCname(r.answer) == []
    && (if loc.kind == CEMatch then ListsBoth(r.authority, cut, NS, ns, DS, ds)
        else ListsBoth(r.authority, cut, DS, ds, NS, ns))
    && IsGlue(s, ns.data, r.additional)
  }

  /** The addresses of one family that are stored at a location, under the name of a host. */
  predicate ListsAddresses(s: Server, location: string, host: string, rtype: RType, rrs: seq<RR>) {
    match s.lookup(location, rtype)
    case Failed => rrs == []
    case Found(rrset) => Lists(rrs, host, rtype, rrset.ttl, s.filter(rrset))
  }

  /** For a host the zone knows, its IPv4 and then its IPv6 addresses; for another host nothing. */
  ghost predicate IsHostGlue(s: Server, host: string, rrs: seq<RR>) {
    var loc := FindLocation(s.zone, host);
    if loc.kind == NoMatch then rrs == []
    else exists k | 0 <= k <= |rrs| ::
      ListsAddresses(s, loc.name, host, A, rrs[..k]) && ListsAddresses(s, loc.name, host, AAAA, rrs[k..])
  }

  /** The glue of all hosts, host after host. */
  ghost predicate IsGlue(s: Server, hosts: seq<string>, rrs: seq<RR>) {
    if hosts == [] then rrs == []
    else exists k | 0 <= k <= |rrs| :: IsHostGlue(s, hosts[0], rrs[..k]) && IsGlue(s, hosts[1..], rrs[k..])
  }

  lemma AddressesListed(s: Server, location: string, host: string, rtype: RType)
    ensures ListsAddresses(s, location, host, rtype, Addrs(s, location, host, rtype))
  {
    hide Lists, Values;
    if s.lookup(location, rtype).Found? {
      var rrset := s.lookup(location, rtype).rrset;
      ValuesListed(host, rtype, rrset.ttl, s.filter(rrset));
    }
  }

  /** The glue that the resolver collects is the glue of the hosts. */
  lemma {:induction false} GlueIsStored(s: Server, hosts: seq<string>)
    ensures IsGlue(s, hosts, Glue(s, hosts))
  {
    hide FindLocation, Addrs, ListsAddresses;
    if hosts != [] {
      GlueIsStored(s, hosts[1..]);
      var host, rest := hosts[0], Glue(s, hosts[1..]);
      var loc := FindLocation(s.zone, host);
      var a, b := Addrs(s, loc.name, host, A), Addrs(s, loc.name, host, AAAA);
      AddressesListed(s, loc.name, host, A);
      AddressesListed(s, loc.name, host, AAAA);
      var first := if loc.kind == NoMatch then [] else a + b;
      if loc.kind != NoMatch {
        assert first[..|a|] == a && first[|a|..] == b;
      }
      assert IsHostGlue(s, host, first);
      var all := Glue(s, hosts);
      assert all == first + rest;
      assert all[..|first|] == first && all[|first|..] == rest;
    }
  }

  ghost predicate Refers(s: Server, name: string, r: Context) {
    var loc := FindLocation(s.zone, name);
    InZone(s, name) && Delegated(s, loc, name) ==> RefersTo(s, loc, CutName(s, loc, name), r)
  }

  /** All that a response says about a name, the final records being owned by `owner`. */
  ghost predicate Says(s: Server, qtype: RType, name: string, owner: string, r: Context)
    requires OwnedType(qtype)
  {
    Denies(s, qtype, name, r) && Serves(s, qtype, name, owner, r) && Refers(s, name, r)
  }

  /** A cut found by way of the closest encloser is a proper ancestor, and nothing exists in between. */
  lemma CutIsAbove(s: Server, name: string)
    requires Built(s.zone) && name != s.zone.name && EndsWith(name, "." + s.zone.name)
    requires FindLocation(s.zone, name).kind == CEMatch
    ensures var loc := FindLocation(s.zone, name);
            var cut, q := Labels(CutName(s, loc, name)), Relative(s.zone, name);
            && cut < Labels(name) && cut == Labels(s.zone.name) + Labels(loc.name)
            && forall p | p <= q && |p| > |Labels(loc.name)| :: !Exists(s.zone.locations, p)
  {
    hide FindLocation, Labels, Text, EndsWith;
    FindLocationIsLabelMatch(s.zone, name);
    PathOfName(s.zone, name);
    var q := Relative(s.zone, name);
    var ce := ClosestEncloser(s.zone.locations, q);
    PrefixOfPath(ce, q);
    LabelsOfText(ce);
    LabelsConcat(Text(ce), s.zone.name);
    QualifiedLabels(s.zone, name);
    ProperPrefix(Labels(s.zone.name), ce, q);
  }

  lemma QualifiedLabels(z: Zone, name: string)
    requires EndsWith(name, "." + z.name)
    ensures Labels(name) == Labels(z.name) + Relative(z, name)
  {
    var rel := TrimSuffix(name, "." + z.name);
    assert name == rel + ("." + z.name) == rel + "." + z.name;
    LabelsConcat(rel, z.name);
  }

  lemma ProperPrefix(zone: Path, p: Path, q: Path)
    requires p < q
    ensures zone + p < zone + q
  {
  }

  lemma PathOfName(z: Zone, name: string)
    ensures IsPath(Relative(z, name))
  {
    LabelsArePath(TrimSuffix(name, "." + z.name));
  }

  /** In terms of the lookup: no match, or an encloser that is not delegated. */
  lemma MissingIsNoMatch(s: Server, name: string)
    requires Built(s.zone)
    ensures var loc := FindLocation(s.zone, name);
            Missing(s, name) <==> InZone(s, name)
                                  && (loc.kind == NoMatch || (loc.kind == CEMatch && NoSet(s.lookup(loc.name, NS))))
  {
    hide FindLocation, InZone;
    FindLocationIsLabelMatch(s.zone, name);
    PathOfName(s.zone, name);
  }

  lemma FinalDenies(s: Server, qname: string, qtype: RType, chain: seq<RR>, cur: string, location: string)
    requires OwnedType(qtype) && AllCname(chain)
    ensures var ctx := Final(s, Req(qname, qtype, false), START.(answer := chain), cur, location);
            && SoaWithoutData(s, ctx) && (ctx.res == NameError <==> AnameGives(s, qtype, location, NameError))
            && (ctx.res == ServFail <==>
                ContentUnreadable(s, qtype, location) || AnameGives(s, qtype, location, ServFail))
  {
    hide Host, Values, FilterNsecBitmap, Reowned, NonCname, AllCname;
    FinalRepliesAgree(s, qtype, NoError, cur, cur, location);
    var reply := FinalReply(s, qtype, NoError, cur, location);
    if reply.Reply? {
      NonCnameOfChain(chain, reply.rrs);
    }
    NonCnameOfNothing();
  }

  lemma FinalServes(s: Server, qname: string, qtype: RType, chain: seq<RR>, cur: string, location: string)
    requires OwnedType(qtype) && AllCname(chain)
    ensures var ctx := Final(s, Req(qname, qtype, false), START.(answer := chain), cur, location);
            ServesAt(s, qtype, location, cur, ctx)
  {
    hide Host, Values, FilterNsecBitmap, Reowned, NonCname, AllCname, Lists;
    var content := Content(s, qtype, location);
    if content.Some? {
      ValuesListed(cur, qtype, content.value.ttl, content.value.data);
    }
    FinalRepliesAgree(s, qtype, NoError, cur, cur, location);
    var reply := FinalReply(s, qtype, NoError, cur, location);
    if reply.Reply? {
      NonCnameOfChain(chain, reply.rrs);
    }
  }

  lemma NonCnameOfNothing()
    ensures NonCname([]) == []
  {
  }

  lemma NoValues(name: string, rtype: RType, ttl: nat)
    ensures Values(name, rtype, ttl, []) == []
  {
  }

  lemma DelegationRefers(s: Server, qname: string, qtype: RType, chain: seq<RR>, cur: string, loc: Location)
    requires OwnedType(qtype) && AllCname(chain) && loc.kind != CEMatch
    requires s.lookup(loc.name, NS).Found? && s.lookup(loc.name, DS).Found?
    ensures var ns := s.lookup(loc.name, NS).rrset;
            RefersTo(s, loc, cur, Delegation(s, Req(qname, qtype, false), START.(answer := chain), cur, loc.name, ns))
  {
    hide Values, Glue, FilterNsecBitmap, NonCname, ListsBoth, IsGlue;
    NonCnameOfChain(chain, []);
    assert chain + [] == chain;
    var ns, ds := s.lookup(loc.name, NS).rrset, s.lookup(loc.name, DS).rrset;
    NoValues(cur, DS, ds.ttl);
    ValuesListBoth(cur, DS, ds, NS, ns);
    GlueIsStored(s, ns.data);
    assert [] + Values(cur, DS, ds.ttl, ds.data) == Values(cur, DS, ds.ttl, ds.data);
    assert [] + Glue(s, ns.data) == Glue(s, ns.data);
  }

  lemma SubDelegationRefers(s: Server, qname: string, qtype: RType, chain: seq<RR>, cur: string, loc: Location)
    requires AllCname(chain) && loc.kind == CEMatch
    requires s.lookup(loc.name, NS).Found? && s.lookup(loc.name, DS).Found? && s.lookup(loc.name, NS).rrset.data != []
    ensures var ctx := SubDelegation(s, Req(qname, qtype, false), START.(answer := chain), cur, loc.name);
            RefersTo(s, loc, loc.name + "." + s.zone.name, ctx)
  {
    hide Values, Glue, FilterNsecBitmap, NonCname, ListsBoth, IsGlue;
    NonCnameOfChain(chain, []);
    assert chain + [] == chain;
    var ns, ds, cut := s.lookup(loc.name, NS).rrset, s.lookup(loc.name, DS).rrset, loc.name + "." + s.zone.name;
    ValuesListBoth(cut, NS, ns, DS, ds);
    GlueIsStored(s, ns.data);
    assert [] + Values(cut, NS, ns.ttl, ns.data) == Values(cut, NS, ns.ttl, ns.data);
    assert [] + Glue(s, ns.data) == Glue(s, ns.data);
  }

  lemma MatchedIsTruthful(s: Server, qname: string, qtype: RType, chain: seq<RR>, cur: string, location: string)
    requires OwnedType(qtype) && AllCname(chain)
    requires s.lookup(location, CNAME).Found? ==> Host(s.lookup(location, CNAME).rrset) == ""
    ensures var o := Matched(s, Req(qname, qtype, false), START.(answer := chain), cur, location);
            && o.Done?
            && (o.ctx.res == NameError <==> HasOwnData(s, location, cur) && AnameGives(s, qtype, location, NameError))
            && (o.ctx.res == ServFail <==>
                || DataUnreadable(s, qtype, location, cur)
                || (HasOwnData(s, location, cur) && AnameGives(s, qtype, location, ServFail)))
            && (HasOwnData(s, location, cur) ==> SoaWithoutData(s, o.ctx) && ServesAt(s, qtype, location, cur, o.ctx))
            && forall kind | kind in {ExactMatch, WildCardMatch} ::
                 Delegated(s, Location(location, kind), cur) ==> RefersTo(s, Location(location, kind), cur, o.ctx)
  {
    hide Final, Host, Values, Glue, FilterNsecBitmap, AnameGives, ContentUnreadable, SoaWithoutData, ServesAt, RefersTo;
    FinalDenies(s, qname, qtype, chain, cur, location);
    FinalServes(s, qname, qtype, chain, cur, location);
    var ctx := Matched(s, Req(qname, qtype, false), START.(answer := chain), cur, location).ctx;
    forall kind | kind in {ExactMatch, WildCardMatch} && Delegated(s, Location(location, kind), cur)
      ensures RefersTo(s, Location(location, kind), cur, ctx)
    {
      DelegationRefers(s, qname, qtype, chain, cur, Location(location, kind));
    }
  }

  /** A pass that ends the loop. */
  lemma StopIsTruthful(s: Server, qname: string, qtype: RType, chain: seq<RR>, cur: string)
    requires Built(s.zone) && OwnedType(qtype) && AllCname(chain) && HopAt(s, qtype, cur).None?
    ensures var o := Step(s, Req(qname, qtype, false), START.(answer := chain), cur);
            o.Done? && Says(s, qtype, cur, cur, o.ctx)
  {
    hide ServesAt, RefersTo, FindLocation, InZone, Matched, Host, Values, Glue, FilterNsecBitmap;
    hide Missing, AnameGives, HasOwnData, NonCname, DataUnreadable;
    MissingIsNoMatch(s, cur);
    NonCnameOfChain(chain, []);
    assert chain + [] == chain;
    var loc := FindLocation(s.zone, cur);
    if InZone(s, cur) && loc.kind in {ExactMatch, WildCardMatch} {
      MatchedIsTruthful(s, qname, qtype, chain, cur, loc.name);
      assert loc == Location(loc.name, loc.kind);
    } else if InZone(s, cur) && loc.kind == CEMatch && Delegated(s, loc, cur) {
      SubDelegationRefers(s, qname, qtype, chain, cur, loc);
    }
  }

  /** A run whose walk ends at a name is its chain of CNAMEs, none when flattening, and one last pass there. */
  lemma {:induction false} RunIsLastPass(
    s: Server, qname: string, qtype: RType, flattening: bool, n: nat, chain: seq<RR>, cur: string)
    returns (all: seq<RR>)
    requires AllCname(chain) && (flattening ==> chain == []) && Walk(s, qtype, flattening, n, cur).At?
    ensures var req, last := Req(qname, qtype, flattening), Walk(s, qtype, flattening, n, cur).name;
            && AllCname(all) && (flattening ==> all == []) && HopAt(s, qtype, last).None?
            && (Step(s, req, START.(answer := all), last).Done? ==>
                  Run(s, req, n, START.(answer := chain), cur) == Step(s, req, START.(answer := all), last).ctx)
    decreases MAX_HOPS + 1 - n
  {
    hide Step, HopAt, InZone;
    match HopAt(s, qtype, cur)
    case None => all := chain;
    case Some(cname) =>
      HopSteps(s, qname, qtype, chain, cur, cname);
      var next := if flattening then chain else chain + [CnameRR(cur, cname)];
      all := RunIsLastPass(s, qname, qtype, flattening, n + 1, next, Fqdn(Host(cname)));
  }

  /** Success, and one record: the stored alias under another name, its target qualified. */
  predicate IsAliasOnly(r: Context, name: string, cname: RRSet) {
    && |r.answer| == 1 && r == START.(answer := r.answer) && cname.data != [] && cname.data[0] != ""
    && Shows(r.answer[0], name, CNAME, cname.ttl, cname.data[0])
  }

  lemma AliasOnly(s: Server, qname: string, qtype: RType, cur: string, cname: RRSet)
    requires HopAt(s, qtype, cur) == Some(cname)
    ensures IsAliasOnly(START.(answer := [CnameRR(qname, cname)]), qname, cname)
  {
    hide FindLocation, InZone;
  }

  /** One that does not end in time fails, and one that leaves the zone when flattening is one CNAME. */
  lemma {:induction false} OtherEnds(
    s: Server, qname: string, qtype: RType, flattening: bool, n: nat, chain: seq<RR>, cur: string)
    requires flattening ==> chain == []
    ensures var r, end := Run(s, Req(qname, qtype, flattening), n, START.(answer := chain), cur),
                          Walk(s, qtype, flattening, n, cur);
            && (end.TooLong? ==> r == START.(res := ServFail))
            && (end.Leaves? ==> IsAliasOnly(r, qname, end.cname))
    decreases MAX_HOPS + 1 - n
  {
    hide Step, HopAt, InZone, IsAliasOnly;
    if n <= MAX_HOPS && HopAt(s, qtype, cur).Some? {
      var cname := HopAt(s, qtype, cur).value;
      HopSteps(s, qname, qtype, chain, cur, cname);
      AliasOnly(s, qname, qtype, cur, cname);
      var next := if flattening then chain else chain + [CnameRR(cur, cname)];
      OtherEnds(s, qname, qtype, flattening, n + 1, next, Fqdn(Host(cname)));
    }
  }

  /** What a whole response says; `qname` owns the records when flattening, else the last name does. */
  ghost predicate Truthful(s: Server, req: Request, r: Context)
    requires OwnedType(req.qtype)
  {
    match Walk(s, req.qtype, req.flattening, 0, req.qname)
    case TooLong => r == START.(res := ServFail)
    case Leaves(cname) => IsAliasOnly(r, req.qname, cname)
    case At(name) => Says(s, req.qtype, name, if req.flattening then req.qname else name, r)
  }

  lemma {:induction false} ReownedCount(rrs: seq<RR>, name: string)
    ensures |Reowned(rrs, name)| == |rrs|
  {
    if rrs != [] {
      ReownedCount(rrs[1..], name);
    }
  }

  /** A flattened answer has the final records of the plain one, under another name. */
  lemma FlatKeepsFinal(s: Server, qname: string, answer: seq<RR>)
    ensures NonCname(FlatAnswer(s, qname, answer)) == Reowned(NonCname(answer), qname)
  {
    var final := NonCname(answer);
    if final != [] {
      NonCnameHasNone(answer);
      ReownedNonCname(final, qname);
      NonCnameOfOthers(Reowned(final, qname));
      ReownedCount(final, qname);
    } else {
      NonCnameEmpty(answer);
      assert answer != [] ==> answer[|answer| - 1] in answer;
    }
  }

  lemma {:induction false} NonCnameOfOthers(rrs: seq<RR>)
    requires forall rr | rr in rrs :: !(rr.RR? && rr.rtype == CNAME)
    ensures NonCname(rrs) == rrs
  {
    if rrs != [] {
      NonCnameOfOthers(rrs[1..]);
      assert rrs[0] in rrs;
    }
  }

  lemma {:induction false} NonCnameEmpty(rrs: seq<RR>)
    requires NonCname(rrs) == []
    ensures AllCname(rrs)
  {
    if rrs != [] {
      NonCnameEmpty(rrs[1..]);
    }
  }

  /** Flattening changes neither what is denied nor what is served or referred to, owner aside. */
  lemma FlatSays(s: Server, qname: string, qtype: RType, name: string, u: Context)
    requires OwnedType(qtype) && Says(s, qtype, name, name, u)
    ensures Says(s, qtype, name, qname, Flattened(s, qname, u))
  {
    hide Missing, AnameReports, Unreadable, Authoritative, InZone, FindLocation, FlatAnswer, NonCname;
    hide HasOwnData, Content, Lists, Reowned, Delegated, IsGlue, ListsBoth;
    FlatKeepsFinal(s, qname, u.answer);
    ReownedCount(NonCname(u.answer), qname);
    var content := Content(s, qtype, FindLocation(s.zone, name).name);
    if content.Some? && Lists(NonCname(u.answer), name, qtype, content.value.ttl, content.value.data) {
      ReownedListed(NonCname(u.answer), name, qname, qtype, content.value.ttl, content.value.data);
    }
  }

  /** In either mode, with DNSSEC off, the response tells the truth about the end of the walk. */
  lemma ResponsesAreTruthful(s: Server, qname: string, qtype: RType, flattening: bool)
    requires Built(s.zone) && OwnedType(qtype)
    ensures Truthful(s, Req(qname, qtype, flattening), Run(s, Req(qname, qtype, flattening), 0, START, qname))
  {
    hide Run, Step, HopAt, Walk, Says, InZone;
    assert START.(answer := []) == START;
    var end := Walk(s, qtype, flattening, 0, qname);
    if end.At? {
      var chain := RunIsLastPass(s, qname, qtype, flattening, 0, [], qname);
      StopIsTruthful(s, qname, qtype, chain, end.name);
      if flattening {
        StopsAgree(s, qname, qtype, [], end.name);
        FlatSays(s, qname, qtype, end.name, Step(s, Req(qname, qtype, false), START, end.name).ctx);
      }
    } else {
      OtherEnds(s, qname, qtype, flattening, 0, [], qname);
    }
  }

  // ---------------------------------------------------------------- aliases

  /** The record is the alias that is stored for its owner, with its ttl and its target qualified. */
  predicate StoredAlias(s: Server, rr: RR) {
    && Answered(s, rr.name)
    && match s.lookup(FindLocation(s.zone, rr.name).name, CNAME)
       case Failed => false
       case Found(cname) =>
         cname.data != [] && cname.data[0] != "" && Shows(rr, rr.name, CNAME, cname.ttl, cname.data[0])
  }

  lemma HopIsStored(s: Server, qtype: RType, cur: string, cname: RRSet)
    requires HopAt(s, qtype, cur) == Some(cname)
    ensures StoredAlias(s, CnameRR(cur, cname))
  {
    hide FindLocation, InZone;
  }

  predicate AllStored(s: Server, chain: seq<RR>) {
    forall rr | rr in chain :: rr.RR? && rr.rtype == CNAME && StoredAlias(s, rr)
  }

  lemma HopKeepsStored(s: Server, qtype: RType, chain: seq<RR>, cur: string, cname: RRSet)
    requires AllStored(s, chain) && HopAt(s, qtype, cur) == Some(cname)
    ensures AllStored(s, chain + [CnameRR(cur, cname)]) && AllCname(chain + [CnameRR(cur, cname)])
  {
    hide HopAt, StoredAlias;
    HopIsStored(s, qtype, cur, cname);
  }

  /** A walk never ends at an alias, unless aliases are what is asked for: nothing else is served for one. */
  lemma {:induction false} AliasIsFollowed(s: Server, qtype: RType, flattening: bool, n: nat, cur: string)
    requires qtype != CNAME
    ensures var end := Walk(s, qtype, flattening, n, cur);
            end.At? && Answered(s, end.name) ==>
              match s.lookup(FindLocation(s.zone, end.name).name, CNAME)
              case Failed => true
              case Found(cname) => cname.data == [] || cname.data[0] == ""
    decreases MAX_HOPS + 1 - n
  {
    hide FindLocation, InZone;
    if n <= MAX_HOPS && HopAt(s, qtype, cur).Some? {
      AliasIsFollowed(s, qtype, flattening, n + 1, Fqdn(Host(HopAt(s, qtype, cur).value)));
    }
  }

  /** Every alias in an unflattened answer is a stored one. */
  lemma {:induction false} AliasesAreStored(s: Server, req: Request, n: nat, ctx: Context, cur: string)
    requires OwnedType(req.qtype) && !req.flattening && AllStored(s, ctx.answer)
    ensures forall rr | rr in Run(s, req, n, ctx, cur).answer && rr.RR? && rr.rtype == CNAME :: StoredAlias(s, rr)
    decreases MAX_HOPS + 1 - n
  {
    hide Step, HopAt, StoredAlias, InZone;
    if n <= MAX_HOPS {
      if HopAt(s, req.qtype, cur).Some? {
        var cname := HopAt(s, req.qtype, cur).value;
        HopStep(s, req, ctx, cur, cname);
        HopKeepsStored(s, req.qtype, ctx.answer, cur, cname);
        AliasesAreStored(s, req, n + 1, Step(s, req, ctx, cur).ctx, Fqdn(Host(cname)));
      } else {
        NoHopStops(s, req, ctx, cur);
        StopAnswer(s, req, ctx, cur);
      }
    }
  }

  lemma NoHopStops(s: Server, req: Request, ctx: Context, cur: string)
    requires HopAt(s, req.qtype, cur).None?
    ensures Step(s, req, ctx, cur).Done?
  {
    hide FindLocation, InZone, Final, Host, SubDelegation, Delegation, AddNsec;
  }
}
