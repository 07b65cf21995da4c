/**
 The query loop of internal/resolver/handler.go. One pass of the loop is the function Step; Run
 follows CNAME hops with the hop bound, and the method of RequestContext is the loop itself.
 Reads of the store, ANAME resolution, address selection and the CAA search are given functions.
 */
module Resolver {
  import opened Radix
  import opened Wrappers
  import opened Zones
  import opened Records

  datatype Rcode = NoError | ServFail | NameError | NotAuth

  /** What findANAME returns for a host: addresses, rcode and ttl. */
  datatype Addresses = Addresses(ips: seq<string>, res: Rcode, ttl: nat)

  datatype Server = Server(
    index: Tree,                              // the enabled zones
    zone: Zone,                               // the zone being answered for
    soa: RR,
    minTtl: nat,
    signed: bool,                             // the zone's DnsSec setting
    dnskeys: seq<RR>,
    lookup: (string, RType) -> Lookup,        // record sets by location and type
    aname: (string, RType) -> Addresses,
    filter: RRSet -> seq<string>,
    caa: string -> Option<RRSet>)

  datatype Request = Request(qname: string, qtype: RType, dnssec: bool, flattening: bool)

  datatype Context = Context(res: Rcode, answer: seq<RR>, authority: seq<RR>, additional: seq<RR>)

  datatype Outcome = Done(ctx: Context) | Hop(ctx: Context, next: string)

  const MAX_HOPS := 10

  const START := Context(NoError, [], [], [])

  predicate InZone(s: Server, name: string) {
    FindZone(s.index, name) == s.zone.name
  }

  // ---------------------------------------------------------------- one pass of the loop

  const BITMAP_ZONE := [A, CNAME, PTR, MX, TXT, AAAA, SRV, RRSIG, NSEC, TLSA, CAA]
  const BITMAP_APEX := [A, NS, SOA, PTR, MX, TXT, AAAA, SRV, RRSIG, NSEC, TLSA, CAA]
  const BITMAP_SUBDELEGATION := [NS, DS, RRSIG, NSEC]
  const BITMAP_NAME_ERROR := [RRSIG, NSEC]

  function FilterNsecBitmap(qtype: RType, bitmap: seq<RType>): seq<RType> {
    if bitmap == [] then [] else
      (if bitmap[0] != qtype then [bitmap[0]] else []) + FilterNsecBitmap(qtype, bitmap[1..])
  }

  function AddNsec(s: Server, req: Request, ctx: Context, name: string, qtype: RType): Context {
    if !req.dnssec then ctx else
    var (res, bitmap) :=
      if name == s.zone.name then (NoError, FilterNsecBitmap(qtype, BITMAP_APEX))
      else if ctx.res == NameError then (NoError, BITMAP_NAME_ERROR)
      else if qtype == DS then (ctx.res, FilterNsecBitmap(qtype, BITMAP_SUBDELEGATION))
      else (ctx.res, FilterNsecBitmap(qtype, BITMAP_ZONE));
    ctx.(res := res, authority := ctx.authority + [Nsec(name, s.minTtl, bitmap)])
  }

  function CnameRR(name: string, cname: RRSet): RR {
    RR(name, CNAME, cname.ttl, Fqdn(Host(cname)))
  }

  function Addrs(s: Server, location: string, host: string, rtype: RType): seq<RR> {
    match s.lookup(location, rtype)
    case Failed => []
    case Found(set_) => Values(host, rtype, set_.ttl, s.filter(set_))
  }

  function Glue(s: Server, hosts: seq<string>): seq<RR> {
    if hosts == [] then [] else
      var loc := FindLocation(s.zone, hosts[0]);
      (if loc.kind == NoMatch then []
       else Addrs(s, loc.name, hosts[0], A) + Addrs(s, loc.name, hosts[0], AAAA)) + Glue(s, hosts[1..])
  }

  /** Closest-encloser match: a referral when the encloser is delegated, else a name error. */
  function SubDelegation(s: Server, req: Request, ctx: Context, cur: string, location: string): Context {
    match s.lookup(location, NS)
    case Failed => ctx.(res := ServFail)
    case Found(ns) =>
      if ns.data == [] then
        AddNsec(s, req, ctx.(authority := [s.soa], res := NameError), cur, req.qtype)
      else
        var cut := location + "." + s.zone.name;
        var ctx := ctx.(authority := ctx.authority + Values(cut, NS, ns.ttl, ns.data));
        match s.lookup(location, DS)
        case Failed => ctx.(res := ServFail)
        case Found(ds) =>
          var ctx := if ds.data == [] then AddNsec(s, req, ctx, cut, DS) else ctx;
          ctx.(authority := ctx.authority + Values(cut, DS, ds.ttl, ds.data),
               additional := ctx.additional + Glue(s, ns.data),
               res := NoError)
  }

  /** A delegation at the matched name itself. */
  function Delegation(s: Server, req: Request, ctx: Context, cur: string, location: string, ns: RRSet): Context {
    match s.lookup(location, DS)
    case Failed => ctx.(res := ServFail)
    case Found(ds) =>
      if ds.data != [] && req.qtype == DS then
        ctx.(answer := ctx.answer + Values(cur, DS, ds.ttl, ds.data), res := NoError)
      else
        var ctx := if ds.data == [] then AddNsec(s, req, ctx, cur, DS)
                   else ctx.(authority := ctx.authority + Values(cur, DS, ds.ttl, ds.data));
        ctx.(authority := ctx.authority + Values(cur, NS, ns.ttl, ns.data),
             additional := ctx.additional + Glue(s, ns.data),
             res := NoError)
  }

  datatype Reply = Broken | Unsupported | Reply(res: Rcode, rrs: seq<RR>)

  /** The records answering the query at its final location, owned by `owner`. */
  function FinalReply(s: Server, qtype: RType, res: Rcode, owner: string, location: string): Reply {
    match qtype
    case A | AAAA =>
      (match (s.lookup(location, qtype), s.lookup(location, ANAME))
       case (Found(addr), Found(aname)) =>
         if addr.data == [] && Host(aname) != "" then
           var found := s.aname(Host(aname), qtype);
           Reply(found.res, Values(owner, qtype, found.ttl, found.ips))
         else
           Reply(res, Values(owner, qtype, addr.ttl, s.filter(addr)))
       case (_, _) => Broken)
    case CNAME =>
      (match s.lookup(location, CNAME)
       case Failed => Broken
       case Found(cname) => Reply(res, if Host(cname) == "" then [] else [CnameRR(owner, cname)]))
    case TXT | NS | MX | SRV | PTR | TLSA =>
      (match s.lookup(location, qtype)
       case Failed => Broken
       case Found(rrset) => Reply(res, Values(owner, qtype, rrset.ttl, rrset.data)))
    case CAA =>
      (match s.caa(owner)
       case None => Reply(res, [])
       case Some(rrset) => Reply(res, Values(owner, CAA, rrset.ttl, rrset.data)))
    case SOA => Reply(res, [s.soa])
    case DNSKEY => Reply(res, if s.signed then s.dnskeys else [])
    case DS => Reply(res, [])
    case _ => Unsupported
  }

  function Final(s: Server, req: Request, ctx: Context, cur: string, location: string): Context {
    var owner := if req.flattening then req.qname else cur;
    match FinalReply(s, req.qtype, ctx.res, owner, location)
    case Broken => ctx.(res := ServFail)
    case Unsupported => ctx.(answer := [], authority := [s.soa], res := NoError)
    case Reply(res, rrs) =>
      var ctx := ctx.(res := res, answer := ctx.answer + rrs);
      if rrs != [] then ctx else
        var ctx := AddNsec(s, req, ctx, owner, req.qtype);
        if ctx.res == NoError then ctx.(authority := ctx.authority + [s.soa]) else ctx
  }

  function Matched(s: Server, req: Request, ctx: Context, cur: string, location: string): Outcome {
    match s.lookup(location, CNAME)
    case Failed => Done(ctx.(res := ServFail))
    case Found(cname) =>
      if Host(cname) != "" && req.qtype != CNAME then
        if !req.flattening then
          Hop(ctx.(answer := ctx.answer + [CnameRR(cur, cname)]), Fqdn(Host(cname)))
        else if !InZone(s, Host(cname)) then
          Done(ctx.(answer := ctx.answer + [CnameRR(req.qname, cname)], res := NoError))
        else
          Hop(ctx, Fqdn(Host(cname)))
      else if cur == s.zone.name then Done(Final(s, req, ctx, cur, location))
      else
        match s.lookup(location, NS)
        case Failed => Done(ctx.(res := ServFail))
        case Found(ns) =>
          if ns.data != [] then Done(Delegation(s, req, ctx, cur, location, ns))
          else Done(Final(s, req, ctx, cur, location))
  }

  function Step(s: Server, req: Request, ctx: Context, cur: string): Outcome {
    if !InZone(s, cur) then
      var ctx := ctx.(res := NoError);
      Done(if ctx.answer == [] then AddNsec(s, req, ctx, req.qname, req.qtype) else ctx)
    else
      var loc := FindLocation(s.zone, cur);
      match loc.kind
      case NoMatch =>
        Done(AddNsec(s, req, ctx.(authority := [s.soa], res := NameError), cur, OTHER))
      case EmptyNonterminalMatch =>
        Done(AddNsec(s, req, ctx.(authority := [s.soa], res := NoError), cur, OTHER))
      case CEMatch => Done(SubDelegation(s, req, ctx, cur, loc.name))
      case WildCardMatch => Matched(s, req, ctx, cur, loc.name)
      case ExactMatch => Matched(s, req, ctx, cur, loc.name)
  }

  // ---------------------------------------------------------------- the loop

  function Run(s: Server, req: Request, loopCount: nat, ctx: Context, cur: string): Context
    decreases MAX_HOPS + 1 - loopCount
  {
    if loopCount > MAX_HOPS then ctx.(answer := [], res := ServFail) else
      match Step(s, req, ctx, cur)
      case Done(ctx) => ctx
      case Hop(ctx, next) => Run(s, req, loopCount + 1, ctx, next)
  }

  /** The records form a chain of CNAMEs that leads from one name to the other. */
  predicate Linked(chain: seq<RR>, from: string, to: string) {
    if chain == [] then from == to
    else chain[0].RR? && chain[0].rtype == CNAME && chain[0].name == from && Linked(chain[1..], chain[0].data, to)
  }

  lemma {:induction false} LinkedSnoc(chain: seq<RR>, from: string, to: string, ttl: nat, next: string)
    requires Linked(chain, from, to)
    ensures Linked(chain + [RR(to, CNAME, ttl, next)], from, next)
  {
    var rr := RR(to, CNAME, ttl, next);
    if chain == [] {
      assert (chain + [rr])[1..] == [];
    } else {
      LinkedSnoc(chain[1..], chain[0].data, to, ttl, next);
      assert (chain + [rr])[1..] == chain[1..] + [rr];
    }
  }

  class RequestContext {
    const req: Request
    var res: Rcode
    var answer: seq<RR>
    var authority: seq<RR>
    var additional: seq<RR>

    constructor (req: Request)
      ensures this.req == req && Value() == START
    {
      this.req := req;
      res, answer, authority, additional := NoError, [], [], [];
    }

    function Value(): Context
      reads this
    {
      Context(res, answer, authority, additional)
    }

    /** One pass of the loop: either the request is finished, or a CNAME leads to another name. */
    method Pass(s: Server, ghost loopCount: nat, cur: string) returns (more: bool, next: string)
      requires loopCount <= MAX_HOPS
      modifies this
      ensures Run(s, req, loopCount, old(Value()), cur) ==
              if more then Run(s, req, loopCount + 1, Value(), next) else Value()
      ensures Step(s, req, old(Value()), cur) == if more then Hop(Value(), next) else Done(Value())
      ensures more ==> Value() == old(Value()).(answer := answer)
      ensures more && req.flattening ==> answer == old(answer)
      ensures more && !req.flattening ==> |answer| == old(|answer|) + 1
      ensures more && !req.flattening && Linked(old(answer), req.qname, cur) ==> Linked(answer, req.qname, next)
    {
      var outcome := Step(s, req, Value(), cur);
      HopKeepsChain(s, req, Value(), cur);
      var ctx := outcome.ctx;
      res, answer, authority, additional := ctx.res, ctx.answer, ctx.authority, ctx.additional;
      assert Value() == ctx;
      more, next := outcome.Hop?, if outcome.Hop? then outcome.next else cur;
    }

    /** `bodies` counts the passes of the loop that get past the overflow test. */
    method HandleRequest(s: Server) returns (bodies: nat)
      requires Value() == START
      modifies this
      ensures bodies <= MAX_HOPS + 1
      ensures FindZone(s.index, req.qname) != "" ==>
                && bodies > 0 && Head(s, req, bodies - 1).Some?
                && (Head(s, req, bodies).Some? ==> bodies == MAX_HOPS + 1)
      ensures Value() == if FindZone(s.index, req.qname) == "" then START.(res := NotAuth)
                         else Run(s, req, 0, START, req.qname)
    {
      hide Step;
      bodies := 0;
      if FindZone(s.index, req.qname) == "" {
        res := NotAuth;
        return;
      }
      ghost var result := Run(s, req, 0, START, req.qname);
      var currentQName := req.qname;
      var more := true;
      while more
        invariant bodies <= MAX_HOPS + 1
        invariant result == if more then Run(s, req, bodies, Value(), currentQName) else Value()
        invariant more ==> Head(s, req, bodies) == Some((Value(), currentQName))
        invariant bodies > 0 ==> Head(s, req, bodies - 1).Some?
        invariant !more ==> bodies > 0 && (Head(s, req, bodies).Some? ==> bodies == MAX_HOPS + 1)
        decreases more, MAX_HOPS + 1 - bodies
      {
        if bodies > MAX_HOPS {
          answer, res, more := [], ServFail, false;
        } else {
          more, currentQName := Pass(s, bodies, currentQName);
          bodies := bodies + 1;
        }
      }
    }
  }

  /** A hop changes nothing but the chain: one more CNAME, linked on, or none when flattening. */
  lemma HopKeepsChain(s: Server, req: Request, ctx: Context, cur: string)
    ensures var o := Step(s, req, ctx, cur);
            o.Hop? ==> o.ctx == ctx.(answer := o.ctx.answer) &&
                       (if req.flattening then o.ctx.answer == ctx.answer
                        else |o.ctx.answer| == |ctx.answer| + 1 &&
                             (Linked(ctx.answer, req.qname, cur) ==> Linked(o.ctx.answer, req.qname, o.next)))
  {
    var o := Step(s, req, ctx, cur);
    if o.Hop? && !req.flattening && Linked(ctx.answer, req.qname, cur) {
      var cname := s.lookup(FindLocation(s.zone, cur).name, CNAME).rrset;
      LinkedSnoc(ctx.answer, req.qname, cur, cname.ttl, Fqdn(Host(cname)));
    }
  }

  /** Answer, rcode and current name when the loop reaches its head for the `k`-th time, if it does. */
  function Head(s: Server, req: Request, k: nat): Option<(Context, string)> {
    if k == 0 then Some((START, req.qname)) else
      match Head(s, req, k - 1)
      case None => None
      case Some((ctx, cur)) =>
        match Step(s, req, ctx, cur)
        case Done(_) => None
        case Hop(ctx, next) => Some((ctx, next))
  }

  /**
   At every head of the loop nothing has happened yet but hops: the answer is a linked chain from the query
   name to the current one, as long as the hop count, or empty when flattening; and the run goes on from there.
   */
  lemma {:induction false} HeadsAreLinked(s: Server, req: Request, k: nat)
    requires k <= MAX_HOPS + 1 && Head(s, req, k).Some?
    ensures var (ctx, cur) := Head(s, req, k).value;
            && ctx == START.(answer := ctx.answer)
            && (if req.flattening then ctx.answer == [] else |ctx.answer| == k && Linked(ctx.answer, req.qname, cur))
            && Run(s, req, 0, START, req.qname) == Run(s, req, k, ctx, cur)
  {
    hide Step;
    if k > 0 {
      HeadsAreLinked(s, req, k - 1);
      var (ctx, cur) := Head(s, req, k - 1).value;
      HopKeepsChain(s, req, ctx, cur);
    }
  }
}
