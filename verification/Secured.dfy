/**
 The response of a zone with DNSSEC as it leaves the server (`applyDnssec` of internal/resolver/handler.go):
 answer and authority section are signed, each in an order that map iteration chooses.
 */
module Secured {
  import opened Wrappers
  import opened Records
  import opened Resolver
  import opened Flattening
  import opened Responses
  import opened Dnssec
  import Signing

  /** No record that signing would drop. */
  predicate Clean(rrs: seq<RR>) {
    forall rr | rr in rrs :: !Signing.Unsignable(Signing.TypeOf(rr))
  }

  predicate NoNsec(rrs: seq<RR>) {
    forall rr | rr in rrs :: rr.RR?
  }

  /** Nothing that signing would drop, and NSEC records in the authority section only. */
  predicate CleanSections(ctx: Context) {
    Clean(ctx.answer) && NoNsec(ctx.answer) && Clean(ctx.authority)
  }

  lemma CleanValues(name: string, rtype: RType, ttl: nat, data: seq<string>)
    requires !Signing.Unsignable(rtype)
    ensures Clean(Values(name, rtype, ttl, data))
  {
    hide Values, Reowned;
    ReownedValues(name, name, rtype, ttl, data);
  }

  lemma CleanConcat(a: seq<RR>, b: seq<RR>)
    requires Clean(a) && Clean(b)
    ensures Clean(a + b) && (NoNsec(a) && NoNsec(b) ==> NoNsec(a + b))
  {
  }

  lemma CleanNsec(s: Server, req: Request, ctx: Context, name: string, qtype: RType)
    requires CleanSections(ctx)
    ensures CleanSections(AddNsec(s, req, ctx, name, qtype))
    ensures AddNsec(s, req, ctx, name, qtype).answer == ctx.answer
  {
    hide FilterNsecBitmap;
  }

  predicate Sound(s: Server, req: Request) {
    OwnedType(req.qtype) && s.soa.RR? && s.soa.rtype == SOA
  }

  lemma CleanFinal(s: Server, req: Request, ctx: Context, cur: string, location: string)
    requires Sound(s, req) && CleanSections(ctx)
    ensures CleanSections(Final(s, req, ctx, cur, location))
  {
    hide AddNsec, Clean, NoNsec, Reowned, FinalReply;
    var owner := if req.flattening then req.qname else cur;
    FinalRepliesAgree(s, req.qtype, ctx.res, owner, owner, location);
    var reply := FinalReply(s, req.qtype, ctx.res, owner, location);
    CleanSoa(s, req);
    if reply.Reply? {
      CleanOwned(reply.rrs, owner, req.qtype);
      CleanConcat(ctx.answer, reply.rrs);
      var ctx' := ctx.(res := reply.res, answer := ctx.answer + reply.rrs);
      CleanNsec(s, req, ctx', owner, req.qtype);
      CleanConcat(AddNsec(s, req, ctx', owner, req.qtype).authority, [s.soa]);
    }
  }

  lemma CleanSoa(s: Server, req: Request)
    requires Sound(s, req)
    ensures Clean([s.soa]) && Clean([]) && NoNsec([])
  {
  }

  lemma CleanOwned(rrs: seq<RR>, name: string, qtype: RType)
    requires Owned(rrs, name, qtype) && OwnedType(qtype)
    ensures Clean(rrs) && NoNsec(rrs)
  {
  }

  lemma CleanDelegation(s: Server, req: Request, ctx: Context, cur: string, location: string, ns: RRSet)
    requires Sound(s, req) && CleanSections(ctx)
    ensures CleanSections(Delegation(s, req, ctx, cur, location, ns))
  {
    hide AddNsec, Clean, NoNsec, Values, Glue;
    CleanValues(cur, NS, ns.ttl, ns.data);
    if s.lookup(location, DS).Found? {
      var ds := s.lookup(location, DS).rrset;
      CleanValues(cur, DS, ds.ttl, ds.data);
      CleanNsec(s, req, ctx, cur, DS);
      CleanConcat(ctx.authority, Values(cur, DS, ds.ttl, ds.data));
      var before := if ds.data == [] then AddNsec(s, req, ctx, cur, DS).authority
                    else ctx.authority + Values(cur, DS, ds.ttl, ds.data);
      CleanConcat(before, Values(cur, NS, ns.ttl, ns.data));
    }
  }

  lemma CleanSubDelegation(s: Server, req: Request, ctx: Context, cur: string, location: string)
    requires Sound(s, req) && CleanSections(ctx)
    ensures CleanSections(SubDelegation(s, req, ctx, cur, location))
  {
    hide AddNsec, Clean, NoNsec, Values, Glue;
    CleanSoa(s, req);
    CleanNsec(s, req, ctx.(authority := [s.soa], res := NameError), cur, req.qtype);
    if s.lookup(location, NS).Found? {
      var ns, cut := s.lookup(location, NS).rrset, location + "." + s.zone.name;
      CleanValues(cut, NS, ns.ttl, ns.data);
      CleanConcat(ctx.authority, Values(cut, NS, ns.ttl, ns.data));
      if s.lookup(location, DS).Found? {
        var ds := s.lookup(location, DS).rrset;
        var with := ctx.(authority := ctx.authority + Values(cut, NS, ns.ttl, ns.data));
        CleanNsec(s, req, with, cut, DS);
        CleanValues(cut, DS, ds.ttl, ds.data);
        var before := if ds.data == [] then AddNsec(s, req, with, cut, DS) else with;
        CleanConcat(before.authority, Values(cut, DS, ds.ttl, ds.data));
      }
    }
  }

  lemma CleanMatched(s: Server, req: Request, ctx: Context, cur: string, location: string)
    requires Sound(s, req) && CleanSections(ctx)
    ensures CleanSections(Matched(s, req, ctx, cur, location).ctx)
  {
    hide Final, Delegation, Clean, NoNsec, Host, Fqdn;
    CleanFinal(s, req, ctx, cur, location);
    if s.lookup(location, NS).Found? {
      CleanDelegation(s, req, ctx, cur, location, s.lookup(location, NS).rrset);
    }
    if s.lookup(location, CNAME).Found? {
      var cname := s.lookup(location, CNAME).rrset;
      CleanCname(cur, cname);
      CleanCname(req.qname, cname);
      CleanConcat(ctx.answer, [CnameRR(cur, cname)]);
      CleanConcat(ctx.answer, [CnameRR(req.qname, cname)]);
    }
  }

  lemma CleanCname(name: string, cname: RRSet)
    ensures Clean([CnameRR(name, cname)]) && NoNsec([CnameRR(name, cname)])
  {
  }

  lemma CleanStep(s: Server, req: Request, ctx: Context, cur: string)
    requires Sound(s, req) && CleanSections(ctx)
    ensures CleanSections(Step(s, req, ctx, cur).ctx)
  {
    hide Matched, SubDelegation, AddNsec, Clean, NoNsec, InZone, Zones.FindLocation;
    CleanSoa(s, req);
    var loc := Zones.FindLocation(s.zone, cur);
    CleanNsec(s, req, ctx.(res := NoError), req.qname, req.qtype);
    CleanNsec(s, req, ctx.(authority := [s.soa], res := NameError), cur, OTHER);
    CleanNsec(s, req, ctx.(authority := [s.soa], res := NoError), cur, OTHER);
    CleanSubDelegation(s, req, ctx, cur, loc.name);
    CleanMatched(s, req, ctx, cur, loc.name);
  }

  /** A run makes no record that signing would drop. */
  lemma {:induction false} CleanRun(s: Server, req: Request, n: nat, ctx: Context, cur: string)
    requires Sound(s, req) && CleanSections(ctx)
    ensures CleanSections(Run(s, req, n, ctx, cur))
    decreases MAX_HOPS + 1 - n
  {
    hide Step, Sound;
    if n <= MAX_HOPS {
      CleanStep(s, req, ctx, cur);
      var o := Step(s, req, ctx, cur);
      if o.Hop? {
        CleanRun(s, req, n + 1, o.ctx, o.next);
      }
    }
  }

  // ---------------------------------------------------------------- signing both sections

  method ApplyDnssec(ctx: Context, qname: string, zone: Signing.Zone)
    returns (answer: seq<Signing.Entry>, authority: seq<Signing.Entry>,
             ghost first: seq<Signing.Key>, ghost second: seq<Signing.Key>)
    ensures Signing.Visits(first, ctx.answer) && Signing.Visits(second, ctx.authority)
    ensures answer == Signing.Signed(zone, qname, ctx.answer, first)
    ensures authority == Signing.Signed(zone, qname, ctx.authority, second)
  {
    hide *;
    answer, first := Signing.SignResponse(ctx.answer, qname, zone);
    authority, second := Signing.SignResponse(ctx.authority, qname, zone);
  }

  lemma {:induction false} CountNonNsec(x: RR, rrs: seq<RR>)
    requires x.RR?
    ensures Signing.Count(x, NonNsec(rrs)) == Signing.Count(x, rrs)
  {
    if rrs != [] {
      CountNonNsec(x, rrs[1..]);
      hide Signing.Count;
      var head := if rrs[0].Nsec? then [] else [rrs[0]];
      assert rrs == [rrs[0]] + rrs[1..];
      Signing.CountConcat(x, [rrs[0]], rrs[1..]);
      Signing.CountConcat(x, head, NonNsec(rrs[1..]));
      if rrs[0].Nsec? {
        Signing.CountAbsent(x, [rrs[0]]);
        Signing.CountAbsent(x, []);
      }
    }
  }

  lemma {:induction false} CountIsIn<T>(x: T, xs: seq<T>)
    ensures Signing.Count(x, xs) > 0 <==> x in xs
  {
    if xs != [] {
      CountIsIn(x, xs[..|xs| - 1]);
      assert xs == xs[..|xs| - 1] + [xs[|xs| - 1]];
    }
  }

  /** How many NSEC records a section has. */
  function Nsecs(rrs: seq<RR>): nat {
    if rrs == [] then 0 else (if rrs[0].Nsec? then 1 else 0) + Nsecs(rrs[1..])
  }

  lemma {:induction false} NsecsAside(rrs: seq<RR>)
    ensures |rrs| == |NonNsec(rrs)| + Nsecs(rrs)
  {
    if rrs != [] {
      NsecsAside(rrs[1..]);
    }
  }

  lemma {:induction false} NsecsConcat(a: seq<RR>, b: seq<RR>)
    ensures Nsecs(a + b) == Nsecs(a) + Nsecs(b)
  {
    if a == [] {
      assert a + b == b;
    } else {
      NsecsConcat(a[1..], b);
      assert (a + b)[1..] == a[1..] + b;
    }
  }

  lemma NsecsOfOne(x: RR)
    ensures Nsecs([x]) == if x.Nsec? then 1 else 0
  {
    assert [x][1..] == [];
  }

  /** An NSEC record that occurs, and another one or the same again, make two. */
  lemma {:induction false} NsecsCount(x: RR, rrs: seq<RR>)
    requires x.Nsec?
    ensures Signing.Count(x, rrs) <= Nsecs(rrs)
    ensures forall y: RR | y.Nsec? && y != x :: Signing.Count(x, rrs) + Signing.Count(y, rrs) <= Nsecs(rrs)
    decreases |rrs|
  {
    if rrs != [] {
      var n := |rrs| - 1;
      NsecsCount(x, rrs[..n]);
      assert rrs == rrs[..n] + [rrs[n]];
      NsecsConcat(rrs[..n], [rrs[n]]);
      NsecsOfOne(rrs[n]);
    }
  }

  /** Signatures aside, the section has the plain records, each as often, and at most one NSEC record besides. */
  ghost predicate SignedVersion(plain: seq<RR>, signed: seq<Signing.Entry>) {
    && (forall x: RR | x.RR? && x.rtype != RRSIG :: Signing.Count(Some(x), signed) == Signing.Count(x, plain))
    && (forall x: RR | x.Nsec? :: Signing.Count(Some(x), signed) <= 1)
    && (forall x: RR, y: RR | x.Nsec? && y.Nsec? && Some(x) in signed && Some(y) in signed :: x == y)
  }

  lemma SectionSigned(
    zone: Signing.Zone, qname: string, plain: seq<RR>, secure: seq<RR>, order: seq<Signing.Key>)
    requires Signing.Loaded(zone) && Signing.Visits(order, secure) && Clean(secure)
    requires NonNsec(secure) == plain && |secure| <= |plain| + 1
    ensures SignedVersion(plain, Signing.Signed(zone, qname, secure, order))
    ensures |secure| == |plain| ==> forall x: RR | x.Nsec? :: Some(x) !in Signing.Signed(zone, qname, secure, order)
  {
    hide Signing.Signed, Signing.Count, Signing.Visits, Signing.Loaded, NonNsec, Nsecs;
    var signed := Signing.Signed(zone, qname, secure, order);
    forall x: RR | Signing.TypeOf(x) != RRSIG ensures Signing.Count(Some(x), signed) == Signing.Count(x, secure) {
      Signing.SigningConserves(zone, qname, secure, order, x);
      CountIsIn(x, secure);
    }
    forall x: RR | x.RR? && x.rtype != RRSIG ensures Signing.Count(Some(x), signed) == Signing.Count(x, plain) {
      CountNonNsec(x, secure);
    }
    NsecsAside(secure);
    forall x: RR, y: RR | x.Nsec? && y.Nsec? && Some(x) in signed && Some(y) in signed ensures x == y {
      NsecsCount(x, secure);
      CountIsIn(Some(x), signed);
      CountIsIn(Some(y), signed);
    }
    forall x: RR | x.Nsec?
      ensures Signing.Count(Some(x), signed) <= 1 && (|secure| == |plain| ==> Some(x) !in signed)
    {
      NsecsCount(x, secure);
      CountIsIn(Some(x), signed);
    }
  }

  /**
   With DNSSEC, whatever order signing takes: signatures aside, the response has exactly the records of the
   flattened one, with at most one NSEC record in its authority section, unless the walk ends at a failing ANAME.
   */
  lemma SecuredResponse(
    s: Server, zone: Signing.Zone, qname: string, qtype: RType, first: seq<Signing.Key>, second: seq<Signing.Key>)
    requires OwnedType(qtype) && s.soa.RR? && s.soa.rtype == SOA && Signing.Loaded(zone)
    requires var end := Walk(s, qtype, true, 0, qname); !(end.At? && Refused(s, qname, qtype, end.name))
    requires var secure := Run(s, Mode(qname, qtype, true), 0, START, qname);
             Signing.Visits(first, secure.answer) && Signing.Visits(second, secure.authority)
    ensures var plain := Run(s, Mode(qname, qtype, false), 0, START, qname);
            var secure := Run(s, Mode(qname, qtype, true), 0, START, qname);
            && secure.res == (if plain.res == NameError then NoError else plain.res)
            && secure.additional == plain.additional
            && SignedVersion(plain.answer, Signing.Signed(zone, qname, secure.answer, first))
            && (forall x: RR | x.Nsec? :: Some(x) !in Signing.Signed(zone, qname, secure.answer, first))
            && SignedVersion(plain.authority, Signing.Signed(zone, qname, secure.authority, second))
  {
    hide Run, Walk, Refused, SignedVersion, Signing.Signed, Signing.Visits, Signing.Loaded, NonNsec, Clean;
    DnssecOnlyAddsNsec(s, qname, qtype);
    var plain := Run(s, Mode(qname, qtype, false), 0, START, qname);
    var secure := Run(s, Mode(qname, qtype, true), 0, START, qname);
    assert CleanSections(START) by { CleanNothing(); }
    CleanRun(s, Mode(qname, qtype, true), 0, START, qname);
    NonNsecOfPlain(secure.answer);
    SectionSigned(zone, qname, plain.answer, secure.answer, first);
    SectionSigned(zone, qname, plain.authority, secure.authority, second);
  }

  lemma CleanNothing()
    ensures CleanSections(START)
  {
  }
}
