/**
 The CAA records of a response (internal/resolver/handler.go): the query loop asks the CAA search only
 about names that a location answers for, so that what it serves is the nearest set.
 */
module CaaReplies {
  import opened Wrappers
  import opened Zones
  import opened Records
  import opened Resolver
  import opened Flattening
  import opened Responses
  import Caa

  function CaaStore(s: Server): Caa.Store {
    l => s.lookup(l, CAA)
  }

  /** The server's CAA search is the climb of FindCAA: what its contract says of a zone in canonical form. */
  ghost predicate SearchesCaa(s: Server) {
    Caa.Canonical(s.zone) ==> forall query :: s.caa(query) == Caa.Relevant(s.zone, CaaStore(s), query)
  }

  /** The set of the nearest name at or above `name` that has one, else the apex set. */
  ghost function NearestCaa(s: Server, name: string): Option<RRSet> {
    if name == s.zone.name then Caa.Apex(CaaStore(s)) else Caa.Nearest(s.zone, CaaStore(s), Relative(s.zone, name))
  }

  /** For such a name the search gives the nearest set. */
  lemma SearchIsNearest(s: Server, name: string)
    requires Built(s.zone) && Caa.Canonical(s.zone) && SearchesCaa(s) && Answered(s, name)
    ensures s.caa(name) == NearestCaa(s, name)
  {
    hide FindLocation, LabelMatch, Caa.Nearest;
    FindLocationIsLabelMatch(s.zone, name);
  }

  function CaaRecords(owner: string, caa: Option<RRSet>): seq<RR> {
    if caa.None? then [] else Values(owner, CAA, caa.value.ttl, caa.value.data)
  }

  lemma CaaRecordsAreNoCnames(chain: seq<RR>, owner: string, caa: Option<RRSet>)
    requires AllCname(chain)
    ensures NonCname(chain + CaaRecords(owner, caa)) == CaaRecords(owner, caa) && NonCname(chain) == []
  {
    hide Values, NonCname, Reowned, AllCname;
    if caa.Some? {
      ReownedValues(owner, owner, CAA, caa.value.ttl, caa.value.data);
    }
    NonCnameOfChain(chain, CaaRecords(owner, caa));
    NonCnameOfChain(chain, []);
    assert chain + [] == chain;
  }

  lemma CaaFinal(s: Server, req: Request, ctx: Context, cur: string, location: string)
    requires req.qtype == CAA && AllCname(ctx.answer)
    ensures var owner := if req.flattening then req.qname else cur;
            NonCname(Final(s, req, ctx, cur, location).answer) == CaaRecords(owner, s.caa(owner))
  {
    hide Values, NonCname, FilterNsecBitmap, AllCname;
    var owner := if req.flattening then req.qname else cur;
    CaaRecordsAreNoCnames(ctx.answer, owner, s.caa(owner));
  }

  lemma CaaMatched(s: Server, req: Request, ctx: Context, cur: string, location: string)
    requires req.qtype == CAA && AllCname(ctx.answer)
    requires s.lookup(location, CNAME).Found? ==> Host(s.lookup(location, CNAME).rrset) == ""
    ensures var owner, o := if req.flattening then req.qname else cur, Matched(s, req, ctx, cur, location);
            && o.Done?
            && NonCname(o.ctx.answer) == if HasOwnData(s, location, cur) then CaaRecords(owner, s.caa(owner)) else []
  {
    hide Values, NonCname, FilterNsecBitmap, AllCname, Final, Host, CaaRecords, Glue;
    CaaFinal(s, req, ctx, cur, location);
    CaaRecordsAreNoCnames(ctx.answer, cur, None);
  }

  /** A pass without a hop: CAA records come from the search, and only where the zone answers itself. */
  lemma CaaStop(s: Server, req: Request, ctx: Context, cur: string)
    requires req.qtype == CAA && AllCname(ctx.answer) && HopAt(s, CAA, cur).None?
    ensures var owner, o := if req.flattening then req.qname else cur, Step(s, req, ctx, cur);
            && o.Done?
            && NonCname(o.ctx.answer) == if Settled(s, cur) then CaaRecords(owner, s.caa(owner)) else []
  {
    hide Values, NonCname, FilterNsecBitmap, AllCname, Matched, FindLocation, InZone, Host;
    hide CaaRecords, Glue, HasOwnData;
    CaaRecordsAreNoCnames(ctx.answer, cur, None);
    var loc := FindLocation(s.zone, cur);
    if Answered(s, cur) {
      CaaMatched(s, req, ctx, cur, loc.name);
    }
  }

  /** The CAA records a response should carry: those of the nearest set of the name that owns them. */
  ghost predicate ServesNearest(s: Server, req: Request, end: WalkEnd, r: Context) {
    if end.At? && Settled(s, end.name) then
      var owner := if req.flattening then req.qname else end.name;
      Answered(s, owner) && ListsCaa(NonCname(r.answer), owner, NearestCaa(s, owner))
    else NonCname(r.answer) == []
  }

  predicate ListsCaa(rrs: seq<RR>, owner: string, caa: Option<RRSet>) {
    match caa
    case None => rrs == []
    case Some(rrset) => Lists(rrs, owner, CAA, rrset.ttl, rrset.data)
  }

  lemma CaaRecordsListed(owner: string, caa: Option<RRSet>)
    ensures ListsCaa(CaaRecords(owner, caa), owner, caa)
  {
    hide Lists, Values;
    if caa.Some? {
      ValuesListed(owner, CAA, caa.value.ttl, caa.value.data);
    }
  }

  lemma {:induction false} CaaRun(s: Server, req: Request, n: nat, ctx: Context, cur: string)
    requires Built(s.zone) && Caa.Canonical(s.zone) && SearchesCaa(s) && req.qtype == CAA && AllCname(ctx.answer)
    requires cur == req.qname || Answered(s, req.qname)
    ensures ServesNearest(s, req, Walk(s, CAA, req.flattening, n, cur), Run(s, req, n, ctx, cur))
    decreases MAX_HOPS + 1 - n
  {
    hide Step, InZone, FindLocation, Host, Fqdn, SearchesCaa, NearestCaa, HasOwnData, NonCname, ListsCaa;
    if n > MAX_HOPS {
      NonCnameOfNothing();
    } else if HopAt(s, CAA, cur).None? {
      CaaStop(s, req, ctx, cur);
      if Settled(s, cur) {
        var owner := if req.flattening then req.qname else cur;
        SearchIsNearest(s, owner);
        CaaRecordsListed(owner, NearestCaa(s, owner));
      }
    } else {
      var cname := HopAt(s, CAA, cur).value;
      HopStep(s, req, ctx, cur, cname);
      assert Answered(s, cur);
      if req.flattening && !InZone(s, Host(cname)) {
        CaaRecordsAreNoCnames(ctx.answer + [CnameRR(req.qname, cname)], cur, None);
      } else {
        CaaRun(s, req, n + 1, Step(s, req, ctx, cur).ctx, Fqdn(Host(cname)));
      }
    }
  }

  /**
   With and without flattening and DNSSEC: a response to a CAA query carries the nearest set at or above
   the name that owns it if the walk ends where the zone answers itself, and no CAA record otherwise.
   */
  lemma CaaIsNearest(s: Server, req: Request)
    requires Built(s.zone) && Caa.Canonical(s.zone) && SearchesCaa(s) && req.qtype == CAA
    ensures ServesNearest(s, req, Walk(s, CAA, req.flattening, 0, req.qname), Run(s, req, 0, START, req.qname))
  {
    CaaRun(s, req, 0, START, req.qname);
  }
}
