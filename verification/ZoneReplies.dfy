/**
 Responses to queries for what a zone itself knows or for the records of a cut (internal/resolver/handler.go):
 SOA, DNSKEY, CNAME and DS queries, with and without flattening and DNSSEC.
 */
module ZoneReplies {
  import opened Zones
  import opened Records
  import opened Resolver
  import opened Flattening
  import opened Responses

  predicate ZoneType(t: RType) {
    t == SOA || t == DNSKEY || t == CNAME || t == DS
  }

  /** The final records of each type where the zone answers itself; DS records belong to the parent side of a cut. */
  predicate IsFinal(s: Server, qtype: RType, location: string, owner: string, final: seq<RR>) {
    match qtype
    case SOA => final == [s.soa]
    case DNSKEY => final == if s.signed then s.dnskeys else []
    case CNAME =>
      (match s.lookup(location, CNAME)
       case Failed => false
       case Found(cname) =>
         if cname.data == [] || cname.data[0] == "" then final == []
         else |final| == 1 && Shows(final[0], owner, CNAME, cname.ttl, cname.data[0]))
    case _ => final == []
  }

  /** Without final records the zone's SOA stands in, with DNSSEC behind an NSEC record of the owner. */
  predicate StandsIn(s: Server, req: Request, owner: string, authority: seq<RR>) {
    if !req.dnssec then authority == [s.soa]
    else |authority| == 2 && authority[0].Nsec? && authority[0].name == owner && authority[1] == s.soa
  }

  /** The name is a cut of the zone, and its sets can be read. */
  predicate IsCut(s: Server, name: string) {
    var location := FindLocation(s.zone, name).name;
    && Answered(s, name) && name != s.zone.name && s.lookup(location, CNAME).Found?
    && s.lookup(location, NS).Found? && s.lookup(location, NS).rrset.data != [] && s.lookup(location, DS).Found?
  }

  /** The zone answers itself. */
  ghost predicate AnswersItself(s: Server, req: Request, name: string, chain: seq<RR>, r: Context) {
    var owner := if req.flattening then req.qname else name;
    exists final ::
      && IsFinal(s, req.qtype, FindLocation(s.zone, name).name, owner, final)
      && r.answer == chain + final && r.res == NoError && r.additional == []
      && if final != [] then r.authority == [] else StandsIn(s, req, owner, r.authority)
  }

  /** A cut: its DS set answers a DS query, every other query is referred. */
  ghost predicate AnswersCut(s: Server, req: Request, name: string, chain: seq<RR>, r: Context)
    requires IsCut(s, name)
  {
    var location := FindLocation(s.zone, name).name;
    var ns, ds := s.lookup(location, NS).rrset, s.lookup(location, DS).rrset;
    r.res == NoError &&
    if req.qtype == DS && ds.data != [] then
      && r.authority == [] && r.additional == []
      && exists final :: r.answer == chain + final && Lists(final, name, DS, ds.ttl, ds.data)
    else
      && r.answer == chain && IsGlue(s, ns.data, r.additional)
      && if req.dnssec && ds.data == []
         then && |r.authority| > 0 && r.authority[0].Nsec? && r.authority[0].name == name
              && Lists(r.authority[1..], name, NS, ns.ttl, ns.data)
         else ListsBoth(r.authority, name, DS, ds, NS, ns)
  }

  ghost predicate Answers(s: Server, req: Request, name: string, chain: seq<RR>, r: Context) {
    if Settled(s, name) then AnswersItself(s, req, name, chain, r)
    else if IsCut(s, name) then AnswersCut(s, req, name, chain, r)
    else r.answer == chain
  }

  lemma FinalAnswersItself(s: Server, req: Request, chain: seq<RR>, cur: string, loc: Location)
    requires ZoneType(req.qtype) && s.lookup(loc.name, CNAME).Found?
    requires loc == FindLocation(s.zone, cur)
    ensures AnswersItself(s, req, cur, chain, Final(s, req, START.(answer := chain), cur, loc.name))
  {
    hide FindLocation, FilterNsecBitmap;
    var owner := if req.flattening then req.qname else cur;
    var reply := FinalReply(s, req.qtype, NoError, owner, loc.name);
    assert reply.Reply? && IsFinal(s, req.qtype, loc.name, owner, reply.rrs);
    assert [] + [s.soa] == [s.soa];
    var r := Final(s, req, START.(answer := chain), cur, loc.name);
    assert r.answer == chain + reply.rrs;
  }

  lemma DelegationAnswersCut(s: Server, req: Request, chain: seq<RR>, cur: string)
    requires ZoneType(req.qtype) && IsCut(s, cur)
    ensures var location := FindLocation(s.zone, cur).name;
            AnswersCut(s, req, cur, chain,
                       Delegation(s, req, START.(answer := chain), cur, location, s.lookup(location, NS).rrset))
  {
    hide FindLocation, FilterNsecBitmap, Values, Glue, Lists, IsGlue, ListsBoth, InZone;
    var location := FindLocation(s.zone, cur).name;
    var ns, ds := s.lookup(location, NS).rrset, s.lookup(location, DS).rrset;
    var r := Delegation(s, req, START.(answer := chain), cur, location, ns);
    ValuesListed(cur, DS, ds.ttl, ds.data);
    ValuesListed(cur, NS, ns.ttl, ns.data);
    ValuesListBoth(cur, DS, ds, NS, ns);
    NoValues(cur, DS, ds.ttl);
    GlueIsStored(s, ns.data);
    assert [] + Glue(s, ns.data) == Glue(s, ns.data);
    assert [] + Values(cur, DS, ds.ttl, ds.data) == Values(cur, DS, ds.ttl, ds.data);
    if req.dnssec && ds.data == [] {
      assert r.authority[1..] == Values(cur, NS, ns.ttl, ns.data);
    } else if req.qtype == DS && ds.data != [] {
      assert r.answer == chain + Values(cur, DS, ds.ttl, ds.data);
    }
  }

  lemma MatchedAnswers(s: Server, req: Request, chain: seq<RR>, cur: string)
    requires ZoneType(req.qtype) && Answered(s, cur) && HopAt(s, req.qtype, cur).None?
    ensures var o := Matched(s, req, START.(answer := chain), cur, FindLocation(s.zone, cur).name);
            o.Done? && Answers(s, req, cur, chain, o.ctx)
  {
    hide FindLocation, Final, Delegation, InZone, AnswersItself, AnswersCut;
    var loc := FindLocation(s.zone, cur);
    if s.lookup(loc.name, CNAME).Found? {
      FinalAnswersItself(s, req, chain, cur, loc);
    }
    if IsCut(s, cur) {
      DelegationAnswersCut(s, req, chain, cur);
    } else if s.lookup(loc.name, NS).Found? {
      UnreadableCut(s, req, chain, cur, loc.name);
    }
  }

  lemma UnreadableCut(s: Server, req: Request, chain: seq<RR>, cur: string, location: string)
    requires s.lookup(location, NS).Found?
    ensures s.lookup(location, DS).Failed? ==>
              Delegation(s, req, START.(answer := chain), cur, location, s.lookup(location, NS).rrset).answer == chain
  {
  }

  /** A pass without a hop. */
  lemma StopAnswers(s: Server, req: Request, chain: seq<RR>, cur: string)
    requires ZoneType(req.qtype) && HopAt(s, req.qtype, cur).None?
    ensures var o := Step(s, req, START.(answer := chain), cur);
            o.Done? && Answers(s, req, cur, chain, o.ctx)
  {
    hide FindLocation, Matched, InZone, FilterNsecBitmap, Values, Glue, AnswersItself, AnswersCut, HasOwnData;
    if Answered(s, cur) {
      MatchedAnswers(s, req, chain, cur);
    }
  }

  /** What the walk has collected before it ends. */
  predicate IsChain(s: Server, req: Request, chain: seq<RR>) {
    AllStored(s, chain) && (req.flattening || req.qtype == CNAME ==> chain == [])
  }

  ghost predicate Replies(s: Server, req: Request, end: WalkEnd, r: Context) {
    match end
    case TooLong => r == START.(res := ServFail)
    case Leaves(cname) => IsAliasOnly(r, req.qname, cname)
    case At(name) => exists chain :: IsChain(s, req, chain) && Answers(s, req, name, chain, r)
  }

  lemma {:induction false} ZoneRun(s: Server, req: Request, n: nat, chain: seq<RR>, cur: string)
    requires ZoneType(req.qtype) && IsChain(s, req, chain)
    ensures Replies(s, req, Walk(s, req.qtype, req.flattening, n, cur), Run(s, req, n, START.(answer := chain), cur))
    decreases MAX_HOPS + 1 - n
  {
    hide Step, HopAt, InZone, StoredAlias, Answers, IsAliasOnly;
    if n <= MAX_HOPS {
      if HopAt(s, req.qtype, cur).None? {
        StopAnswers(s, req, chain, cur);
      } else {
        var cname := HopAt(s, req.qtype, cur).value;
        HopStep(s, req, START.(answer := chain), cur, cname);
        HopKeepsStored(s, req.qtype, chain, cur, cname);
        AliasOnly(s, req.qname, req.qtype, cur, cname);
        CnamesAreNotFollowed(s, cur);
        if !req.flattening {
          ZoneRun(s, req, n + 1, chain + [CnameRR(cur, cname)], Fqdn(Host(cname)));
        } else if InZone(s, Host(cname)) {
          ZoneRun(s, req, n + 1, chain, Fqdn(Host(cname)));
        } else {
          assert chain + [CnameRR(req.qname, cname)] == [CnameRR(req.qname, cname)];
        }
      }
    }
  }

  lemma CnamesAreNotFollowed(s: Server, cur: string)
    ensures HopAt(s, CNAME, cur).None?
  {
  }

  /**
   In every mode: an SOA query is answered with the SOA record, a DNSKEY query with the zone's keys if it is signed,
   a CNAME query with the stored alias, a DS query with nothing, where the zone answers itself; a DS query for a
   cut with the DS set of the cut. The SOA stands in the authority section exactly when there is nothing to answer.
   */
  lemma ZoneRepliesAreRight(s: Server, req: Request)
    requires ZoneType(req.qtype)
    ensures Replies(s, req, Walk(s, req.qtype, req.flattening, 0, req.qname), Run(s, req, 0, START, req.qname))
  {
    hide Run, Walk, Replies;
    assert START.(answer := []) == START;
    ZoneRun(s, req, 0, [], req.qname);
  }

  lemma SubDelegationTypeBlind(
    s: Server, qname: string, t: RType, u: RType, flattening: bool, ctx: Context, cur: string, location: string)
    ensures SubDelegation(s, Request(qname, t, false, flattening), ctx, cur, location) ==
            SubDelegation(s, Request(qname, u, false, flattening), ctx, cur, location)
  {
    hide Values, Glue;
  }

  /** Where no location answers for the name, a response without DNSSEC is the same for every type of query. */
  lemma ElsewhereTypeBlind(s: Server, qname: string, t: RType, u: RType, flattening: bool, ctx: Context, cur: string)
    requires !Answered(s, cur)
    ensures Step(s, Request(qname, t, false, flattening), ctx, cur) ==
            Step(s, Request(qname, u, false, flattening), ctx, cur)
  {
    hide FindLocation, InZone, SubDelegation, Matched;
    SubDelegationTypeBlind(s, qname, t, u, flattening, ctx, cur, FindLocation(s.zone, cur).name);
  }
}
