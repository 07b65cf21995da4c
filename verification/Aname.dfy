/**
 Resolution of ANAME targets (`findANAME` of internal/resolver/handler.go): inside the zone CNAMEs and ANAMEs
 are followed up to the hop bound, outside it an upstream server is asked.
 */
module Aname {
  import opened Zones
  import opened Listing
  import opened Records
  import opened Resolver
  import opened Flattening
  import opened Responses
  import Dnssec

  datatype Record = Record(rtype: RType, ttl: nat, ip: string)

  /** What the upstream server says: whether with success, and the answer section. */
  datatype Reply = Reply(success: bool, answers: seq<Record>)

  type Upstream = (string, RType) -> Reply

  const FAILED := Addresses([], ServFail, 0)

  /** The addresses of the wanted family among the answers. */
  function Family(answers: seq<Record>, qtype: RType): seq<string> {
    if answers == [] then [] else
      var n := |answers| - 1;
      Family(answers[..n], qtype) + if answers[n].rtype == qtype then [answers[n].ip] else []
  }

  function Ask(upstream: Upstream, qtype: RType, name: string): Addresses {
    var reply := upstream(name, qtype);
    if !reply.success then FAILED
    else Addresses(Family(reply.answers, qtype), NoError, if reply.answers == [] then 0 else reply.answers[0].ttl)
  }

  datatype Next = Stop(found: Addresses) | Follow(name: string)

  /** One name on the way. */
  function Visit(s: Server, upstream: Upstream, qtype: RType, cur: string): Next {
    var zone := FindZone(s.index, cur);
    var loc := FindLocation(s.zone, cur);
    if zone == "" || zone != s.zone.name then Stop(Ask(upstream, qtype, cur))
    else if loc.kind == NoMatch then Stop(FAILED)
    else
      match (s.lookup(loc.name, CNAME), s.lookup(loc.name, qtype), s.lookup(loc.name, ANAME))
      case (Failed, _, _) => Stop(FAILED)
      case (Found(cname), own, aname) =>
        if Host(cname) != "" then Follow(Host(cname))
        else if own.Failed? then Stop(FAILED)
        else if own.rrset.data != [] then Stop(Addresses(s.filter(own.rrset), NoError, own.rrset.ttl))
        else if aname.Failed? then Stop(FAILED)
        else if Host(aname.rrset) != "" then Follow(Host(aname.rrset))
        else Stop(Addresses([], NoError, 0))
  }

  function FindAname(s: Server, upstream: Upstream, qtype: RType, loopCount: nat, cur: string): Addresses
    decreases MAX_HOPS + 1 - loopCount
  {
    if loopCount > MAX_HOPS then FAILED else
      match Visit(s, upstream, qtype, cur)
      case Stop(found) => found
      case Follow(name) => FindAname(s, upstream, qtype, loopCount + 1, name)
  }

  method AskUpstream(upstream: Upstream, qtype: RType, name: string) returns (r: Addresses)
    ensures r == Ask(upstream, qtype, name)
  {
    var reply := upstream(name, qtype);
    if !reply.success {
      return FAILED;
    }
    var ips, ttl := [], 0;
    if |reply.answers| > 0 {
      ttl := reply.answers[0].ttl;
    }
    for i := 0 to |reply.answers|
      invariant ips == Family(reply.answers[..i], qtype)
    {
      assert reply.answers[..i + 1][..i] == reply.answers[..i];
      if reply.answers[i].rtype == qtype {
        ips := ips + [reply.answers[i].ip];
      }
    }
    assert reply.answers[..|reply.answers|] == reply.answers;
    r := Addresses(ips, NoError, ttl);
  }

  /** The loop; `bodies` counts the passes that get past the overflow test. */
  method FindANAME(s: Server, upstream: Upstream, aname: string, qtype: RType) returns (r: Addresses, bodies: nat)
    requires qtype in {A, AAAA}
    ensures r == FindAname(s, upstream, qtype, 0, aname) && bodies <= MAX_HOPS + 1
  {
    hide FindLocation, FindZone, Ask, Host;
    var cur := aname;
    bodies := 0;
    while true
      invariant bodies <= MAX_HOPS + 1
      invariant FindAname(s, upstream, qtype, 0, aname) == FindAname(s, upstream, qtype, bodies, cur)
      decreases MAX_HOPS + 1 - bodies
    {
      if bodies > MAX_HOPS {
        return FAILED, bodies;
      }
      bodies := bodies + 1;
      var zone := FindZone(s.index, cur);
      if zone == "" || zone != s.zone.name {
        r := AskUpstream(upstream, qtype, cur);
        return;
      }
      var loc := FindLocation(s.zone, cur);
      if loc.kind == NoMatch {
        return FAILED, bodies;
      }
      var cname := s.lookup(loc.name, CNAME);
      if cname.Failed? {
        return FAILED, bodies;
      }
      if Host(cname.rrset) != "" {
        cur := Host(cname.rrset);
        continue;
      }
      var own := s.lookup(loc.name, qtype);
      if own.Failed? {
        return FAILED, bodies;
      }
      if own.rrset.data != [] {
        return Addresses(s.filter(own.rrset), NoError, own.rrset.ttl), bodies;
      }
      var next := s.lookup(loc.name, ANAME);
      if next.Failed? {
        return FAILED, bodies;
      }
      if Host(next.rrset) != "" {
        cur := Host(next.rrset);
        continue;
      }
      return Addresses([], NoError, 0), bodies;
    }
  }

  /** Success, or a failure without addresses: no other outcome. */
  lemma {:induction false} AnameOutcomes(s: Server, upstream: Upstream, qtype: RType, n: nat, cur: string)
    ensures var r := FindAname(s, upstream, qtype, n, cur); r.res == NoError || r == FAILED
    decreases MAX_HOPS + 1 - n
  {
    hide FindLocation, FindZone, Host;
    if n <= MAX_HOPS && Visit(s, upstream, qtype, cur).Follow? {
      AnameOutcomes(s, upstream, qtype, n + 1, Visit(s, upstream, qtype, cur).name);
    }
  }

  /** Names that only lead to one another fail. */
  lemma {:induction false} AnameCycleFails(
    s: Server, upstream: Upstream, qtype: RType, n: nat, cur: string, names: set<string>)
    requires forall name | name in names ::
               Visit(s, upstream, qtype, name).Follow? && Visit(s, upstream, qtype, name).name in names
    requires cur in names
    ensures FindAname(s, upstream, qtype, n, cur) == FAILED
    decreases MAX_HOPS + 1 - n
  {
    hide Visit;
    if n <= MAX_HOPS {
      AnameCycleFails(s, upstream, qtype, n + 1, Visit(s, upstream, qtype, cur).name, names);
    }
  }

  /** The server resolves ANAME targets by this loop. */
  ghost predicate ResolvesAname(s: Server, upstream: Upstream) {
    forall host, qtype | qtype in {A, AAAA} :: s.aname(host, qtype) == FindAname(s, upstream, qtype, 0, host)
  }

  lemma NoNameErrors(s: Server, upstream: Upstream, qtype: RType, name: string)
    requires ResolvesAname(s, upstream)
    ensures !AnameReports(s, qtype, name, NameError)
  {
    hide FindLocation, InZone, HasOwnData, FindAname, Host;
    var loc := FindLocation(s.zone, name);
    if AnameReports(s, qtype, name, NameError) {
      AnameOutcomes(s, upstream, qtype, 0, Host(s.lookup(loc.name, ANAME).rrset));
    }
  }

  /** Then a response is a name error exactly when the name at the end of the walk is missing. */
  lemma NameErrorMeansMissing(s: Server, upstream: Upstream, qname: string, qtype: RType, flattening: bool)
    requires Built(s.zone) && OwnedType(qtype) && ResolvesAname(s, upstream)
    ensures var end := Walk(s, qtype, flattening, 0, qname);
            Run(s, Req(qname, qtype, flattening), 0, START, qname).res == NameError
            <==> end.At? && Missing(s, end.name)
  {
    hide Run, Walk, Missing, AnameReports, Unreadable, FindLocation, InZone, Serves, Refers;
    ResponsesAreTruthful(s, qname, qtype, flattening);
    var end := Walk(s, qtype, flattening, 0, qname);
    if end.At? {
      NoNameErrors(s, upstream, qtype, end.name);
    }
  }

  /** And DNSSEC differs from the plain response only where the query is for an apex whose ANAME fails. */
  lemma RefusedMeansApex(s: Server, upstream: Upstream, qname: string, qtype: RType, name: string)
    requires ResolvesAname(s, upstream)
    ensures Dnssec.Refused(s, qname, qtype, name) <==>
            AnameReports(s, qtype, name, ServFail) && qname == s.zone.name
  {
    hide FindLocation, InZone, HasOwnData, FindAname, Host, Values;
    var loc := FindLocation(s.zone, name);
    if AnameReports(s, qtype, name, ServFail) || Dnssec.Refused(s, qname, qtype, name) {
      var host := Host(s.lookup(loc.name, ANAME).rrset);
      AnameOutcomes(s, upstream, qtype, 0, host);
      NoValues(qname, qtype, s.aname(host, qtype).ttl);
    }
  }

  lemma DnssecDiffersAtApex(s: Server, upstream: Upstream, qname: string, qtype: RType)
    requires OwnedType(qtype) && s.soa.RR? && ResolvesAname(s, upstream)
    ensures var end := Walk(s, qtype, true, 0, qname);
            Dnssec.Adds(Run(s, Dnssec.Mode(qname, qtype, false), 0, START, qname),
                        Run(s, Dnssec.Mode(qname, qtype, true), 0, START, qname))
            <==> !(end.At? && AnameReports(s, qtype, end.name, ServFail) && qname == s.zone.name)
  {
    hide Run, Walk, Dnssec.Adds, Dnssec.Refused, AnameReports;
    Dnssec.DnssecOnlyAddsNsec(s, qname, qtype);
    var end := Walk(s, qtype, true, 0, qname);
    if end.At? {
      RefusedMeansApex(s, upstream, qname, qtype, end.name);
    }
  }

  // ---------------------------------------------------------------- what is found

  function OfType(qtype: RType): Record -> bool {
    (r: Record) => r.rtype == qtype
  }

  /** The addresses from upstream are those of the records of the wanted type, in order. */
  lemma {:induction false} FamilyIsKept(answers: seq<Record>, qtype: RType)
    ensures var kept := Kept(answers, OfType(qtype));
            |Family(answers, qtype)| == |kept| && forall k | 0 <= k < |kept| :: Family(answers, qtype)[k] == kept[k].ip
  {
    if answers != [] {
      FamilyIsKept(answers[..|answers| - 1], qtype);
    }
  }

  predicate Inside(s: Server, name: string) {
    FindZone(s.index, name) == s.zone.name && s.zone.name != ""
  }

  /** The single host that is stored under a type, if there is one. */
  predicate Stores(s: Server, location: string, rtype: RType, host: string) {
    match s.lookup(location, rtype)
    case Failed => false
    case Found(rrset) => if rrset.data == [] then host == "" else host == rrset.data[0]
  }

  /** The search goes on: from a CNAME to its target, else from a name without addresses along its ANAME. */
  predicate GoesOn(s: Server, qtype: RType, name: string, next: string) {
    var location := FindLocation(s.zone, name);
    && Inside(s, name) && location.kind != NoMatch && next != ""
    && (|| Stores(s, location.name, CNAME, next)
        || (&& Stores(s, location.name, CNAME, "") && NoSet(s.lookup(location.name, qtype))
            && Stores(s, location.name, ANAME, next)))
  }

  /** The search ends with what upstream says, with the addresses of a name, with none, or with a failure. */
  predicate Yields(s: Server, upstream: Upstream, qtype: RType, name: string, found: Addresses) {
    var location := FindLocation(s.zone, name);
    var own := s.lookup(location.name, qtype);
    if !Inside(s, name) then
      var reply := upstream(name, qtype);
      if !reply.success then found == FAILED
      else && found.res == NoError && found.ips == Family(reply.answers, qtype)
           && found.ttl == if reply.answers == [] then 0 else reply.answers[0].ttl
    else if location.kind == NoMatch || s.lookup(location.name, CNAME).Failed? then found == FAILED
    else
      && Stores(s, location.name, CNAME, "")
      && if own.Found? && own.rrset.data != [] then found == Addresses(s.filter(own.rrset), NoError, own.rrset.ttl)
         else if own.Failed? || s.lookup(location.name, ANAME).Failed? then found == FAILED
         else Stores(s, location.name, ANAME, "") && found == Addresses([], NoError, 0)
  }

  /** At every name the search does exactly one of the two. */
  lemma VisitExactly(s: Server, upstream: Upstream, qtype: RType, name: string, next: string, found: Addresses)
    requires qtype != CNAME && qtype != ANAME
    ensures Visit(s, upstream, qtype, name) == Follow(next) <==> GoesOn(s, qtype, name, next)
    ensures Visit(s, upstream, qtype, name) == Stop(found) <==> Yields(s, upstream, qtype, name, found)
  {
    hide FindLocation, FindZone, Family;
  }

  /** Along a path of at most eleven names, the search finds what the last of them ends with. */
  lemma {:induction false} PathIsFound(
    s: Server, upstream: Upstream, qtype: RType, n: nat, path: seq<string>, found: Addresses)
    requires qtype != CNAME && qtype != ANAME && path != [] && n + |path| <= MAX_HOPS + 1
    requires forall i | 0 <= i < |path| - 1 :: GoesOn(s, qtype, path[i], path[i + 1])
    requires Yields(s, upstream, qtype, path[|path| - 1], found)
    ensures FindAname(s, upstream, qtype, n, path[0]) == found
    decreases |path|
  {
    hide Visit, GoesOn, Yields;
    var next := if |path| > 1 then path[1] else "";
    VisitExactly(s, upstream, qtype, path[0], next, found);
    if |path| > 1 {
      PathIsFound(s, upstream, qtype, n + 1, path[1..], found);
    }
  }

  /** Along a longer one it fails. */
  lemma {:induction false} LongPathFails(s: Server, upstream: Upstream, qtype: RType, n: nat, path: seq<string>)
    requires qtype != CNAME && qtype != ANAME && path != [] && n + |path| > MAX_HOPS + 1
    requires forall i | 0 <= i < |path| - 1 :: GoesOn(s, qtype, path[i], path[i + 1])
    ensures FindAname(s, upstream, qtype, n, path[0]) == FAILED
    decreases |path|
  {
    hide Visit, GoesOn;
    if n <= MAX_HOPS {
      VisitExactly(s, upstream, qtype, path[0], path[1], FAILED);
      LongPathFails(s, upstream, qtype, n + 1, path[1..]);
    }
  }
}
