/**
 What DNSSEC changes in a response before it is signed (`addNSec` of internal/resolver/handler.go). A zone
 that answers with DNSSEC flattens CNAMEs, so the comparison is with the flattening mode.
 */
module Dnssec {
  import opened Wrappers
  import opened Listing
  import opened Zones
  import opened Records
  import opened Resolver
  import opened Flattening
  import opened Responses

  function NonNsec(rrs: seq<RR>): seq<RR> {
    if rrs == [] then [] else (if rrs[0].Nsec? then [] else [rrs[0]]) + NonNsec(rrs[1..])
  }

  lemma {:induction false} NonNsecConcat(a: seq<RR>, b: seq<RR>)
    ensures NonNsec(a + b) == NonNsec(a) + NonNsec(b)
  {
    if a == [] {
      assert a + b == b;
    } else {
      var head := if a[0].Nsec? then [] else [a[0]];
      assert (a + b)[0] == a[0] && (a + b)[1..] == a[1..] + b;
      assert NonNsec(a) == head + NonNsec(a[1..]) && NonNsec(a + b) == head + NonNsec(a[1..] + b);
      NonNsecConcat(a[1..], b);
      hide NonNsec;
      assert (head + NonNsec(a[1..])) + NonNsec(b) == head + (NonNsec(a[1..]) + NonNsec(b));
    }
  }

  lemma {:induction false} NonNsecOfPlain(rrs: seq<RR>)
    requires forall rr | rr in rrs :: rr.RR?
    ensures NonNsec(rrs) == rrs
  {
    if rrs != [] {
      NonNsecOfPlain(rrs[1..]);
      assert rrs[0] in rrs;
    }
  }

  lemma NonNsecOfValues(name: string, rtype: RType, rrset: RRSet)
    ensures NonNsec(Values(name, rtype, rrset.ttl, rrset.data)) == Values(name, rtype, rrset.ttl, rrset.data)
  {
    hide Values, NonNsec, Reowned;
    ReownedValues(name, name, rtype, rrset.ttl, rrset.data);
    NonNsecOfPlain(Values(name, rtype, rrset.ttl, rrset.data));
  }

  lemma NonNsecOfOne(rr: RR)
    ensures NonNsec([rr]) == if rr.Nsec? then [] else [rr]
  {
    assert [rr][1..] == [];
  }

  /** The same response but for NSEC records, at most one of them, and no name errors. */
  predicate Adds(plain: Context, secure: Context) {
    && secure.answer == plain.answer && secure.additional == plain.additional
    && NonNsec(secure.authority) == plain.authority && |secure.authority| <= |plain.authority| + 1
    && secure.res == if plain.res == NameError then NoError else plain.res
  }

  /** The location has no address but an ANAME, which fails with an rcode that DNSSEC treats differently. */
  predicate AnameRefuses(s: Server, qtype: RType, location: string, owner: string) {
    && qtype in {A, AAAA} && NoSet(s.lookup(location, qtype))
    && s.lookup(location, ANAME).Found? && Host(s.lookup(location, ANAME).rrset) != ""
    && var found := s.aname(Host(s.lookup(location, ANAME).rrset), qtype);
       (found.res == NameError
        || (found.res != NoError && owner == s.zone.name && Values(owner, qtype, found.ttl, found.ips) == []))
  }

  function Mode(qname: string, qtype: RType, dnssec: bool): Request {
    Request(qname, qtype, dnssec, true)
  }

  /** A section with an NSEC record put behind it. */
  lemma NsecBehind(rrs: seq<RR>, nsec: RR)
    requires nsec.Nsec? && NonNsec(rrs) == rrs
    ensures NonNsec(rrs + [nsec]) == rrs
  {
    hide NonNsec;
    NonNsecConcat(rrs, [nsec]);
    NonNsecOfOne(nsec);
    assert rrs + [] == rrs;
  }

  /** A final location without records: the SOA, and in front of it the NSEC record. */
  lemma EmptyFinalAdds(s: Server, qname: string, qtype: RType, cur: string, location: string)
    requires s.soa.RR? && FinalReply(s, qtype, NoError, qname, location).Reply?
    requires FinalReply(s, qtype, NoError, qname, location).rrs == []
    ensures var res := FinalReply(s, qtype, NoError, qname, location).res;
            Adds(Final(s, Mode(qname, qtype, false), START, cur, location),
                 Final(s, Mode(qname, qtype, true), START, cur, location))
            <==> !(res == NameError || (res != NoError && qname == s.zone.name))
  {
    hide FinalReply, FilterNsecBitmap, NonNsec;
    NonNsecOfOne(s.soa);
    assert NonNsec([]) == [] by { NonNsecOfPlain([]); }
    var plain := Final(s, Mode(qname, qtype, false), START, cur, location);
    var secure := Final(s, Mode(qname, qtype, true), START, cur, location);
    var nsec := secure.authority[0];
    assert [] + [nsec] == [nsec] && [] + [s.soa] == [s.soa];
    NonNsecOfOne(nsec);
    NonNsecConcat([nsec], [s.soa]);
    assert secure.authority == if secure.res == NoError then [nsec] + [s.soa] else [nsec];
    assert plain.authority == if plain.res == NoError then [s.soa] else [];
  }

  lemma FullFinalAdds(s: Server, qname: string, qtype: RType, cur: string, location: string)
    requires s.soa.RR?
    requires var reply := FinalReply(s, qtype, NoError, qname, location); reply.Reply? ==> reply.rrs != []
    ensures var reply := FinalReply(s, qtype, NoError, qname, location);
            Adds(Final(s, Mode(qname, qtype, false), START, cur, location),
                 Final(s, Mode(qname, qtype, true), START, cur, location))
            <==> !(reply.Reply? && reply.res == NameError)
  {
    hide FinalReply, FilterNsecBitmap, NonNsec;
    NonNsecOfOne(s.soa);
    assert NonNsec([]) == [] by { NonNsecOfPlain([]); }
  }

  lemma FinalAdds(s: Server, qname: string, qtype: RType, cur: string, location: string)
    requires OwnedType(qtype) && s.soa.RR?
    ensures Adds(Final(s, Mode(qname, qtype, false), START, cur, location),
                 Final(s, Mode(qname, qtype, true), START, cur, location))
            <==> !AnameRefuses(s, qtype, location, qname)
  {
    hide Host, Values, Adds, Final;
    var reply := FinalReply(s, qtype, NoError, qname, location);
    if reply.Reply? && reply.rrs == [] {
      EmptyFinalAdds(s, qname, qtype, cur, location);
    } else {
      FullFinalAdds(s, qname, qtype, cur, location);
    }
  }

  lemma DelegationAdds(s: Server, qname: string, qtype: RType, cur: string, location: string, ns: RRSet)
    requires OwnedType(qtype)
    ensures Adds(Delegation(s, Mode(qname, qtype, false), START, cur, location, ns),
                 Delegation(s, Mode(qname, qtype, true), START, cur, location, ns))
  {
    hide Values, Glue, FilterNsecBitmap, NonNsec;
    assert NonNsec([]) == [] by { NonNsecOfPlain([]); }
    NonNsecOfValues(cur, NS, ns);
    if s.lookup(location, DS).Found? {
      var ds := s.lookup(location, DS).rrset;
      NonNsecOfValues(cur, DS, ds);
      NonNsecConcat([] + Values(cur, DS, ds.ttl, ds.data), Values(cur, NS, ns.ttl, ns.data));
      assert [] + Values(cur, DS, ds.ttl, ds.data) == Values(cur, DS, ds.ttl, ds.data);
      if ds.data == [] {
        var nsec := Delegation(s, Mode(qname, qtype, true), START, cur, location, ns).authority[0];
        NonNsecOfOne(nsec);
        NonNsecConcat([] + [nsec], Values(cur, NS, ns.ttl, ns.data));
        assert [] + [nsec] == [nsec] && [] + Values(cur, NS, ns.ttl, ns.data) == Values(cur, NS, ns.ttl, ns.data);
      }
    }
  }

  lemma SubDelegationAdds(s: Server, qname: string, qtype: RType, cur: string, location: string)
    requires OwnedType(qtype) && s.soa.RR? && cur != s.zone.name
    ensures Adds(SubDelegation(s, Mode(qname, qtype, false), START, cur, location),
                 SubDelegation(s, Mode(qname, qtype, true), START, cur, location))
  {
    hide Values, Glue, FilterNsecBitmap, NonNsec;
    assert NonNsec([]) == [] by { NonNsecOfPlain([]); }
    NonNsecOfOne(s.soa);
    var secure := SubDelegation(s, Mode(qname, qtype, true), START, cur, location);
    if s.lookup(location, NS).Found? {
      var ns := s.lookup(location, NS).rrset;
      if ns.data == [] {
        NsecBehind([s.soa], secure.authority[1]);
      } else {
        var cut := location + "." + s.zone.name;
        var set_ := Values(cut, NS, ns.ttl, ns.data);
        NonNsecOfValues(cut, NS, ns);
        assert [] + set_ == set_;
        if s.lookup(location, DS).Found? {
          var ds := s.lookup(location, DS).rrset;
          NonNsecOfValues(cut, DS, ds);
          NonNsecConcat(set_, Values(cut, DS, ds.ttl, ds.data));
          if ds.data == [] {
            NoValues(cut, DS, ds.ttl);
            var nsec := secure.authority[|set_|];
            assert set_ + [nsec] + [] == set_ + [nsec] && set_ + [] == set_;
            NsecBehind(set_, nsec);
          }
        }
      }
    }
  }

  /** The location answers for the name from the zone's own data, and its ANAME refuses. */
  predicate Refused(s: Server, qname: string, qtype: RType, name: string) {
    var loc := FindLocation(s.zone, name);
    && InZone(s, name) && loc.kind in {ExactMatch, WildCardMatch} && HasOwnData(s, loc.name, name)
    && AnameRefuses(s, qtype, loc.name, qname)
  }

  lemma MatchedAdds(s: Server, qname: string, qtype: RType, cur: string, location: string)
    requires OwnedType(qtype) && s.soa.RR?
    requires s.lookup(location, CNAME).Found? ==> Host(s.lookup(location, CNAME).rrset) == ""
    ensures var plain := Matched(s, Mode(qname, qtype, false), START, cur, location);
            var secure := Matched(s, Mode(qname, qtype, true), START, cur, location);
            && plain.Done? && secure.Done?
            && (Adds(plain.ctx, secure.ctx)
                <==> !(HasOwnData(s, location, cur) && AnameRefuses(s, qtype, location, qname)))
  {
    hide Final, Delegation, Host, NonNsec, AnameRefuses;
    FinalAdds(s, qname, qtype, cur, location);
    assert NonNsec([]) == [] by { NonNsecOfPlain([]); }
    if s.lookup(location, NS).Found? {
      DelegationAdds(s, qname, qtype, cur, location, s.lookup(location, NS).rrset);
    }
  }

  /** The NSEC record behind an authority section without one. */
  lemma NsecAdds(s: Server, qname: string, qtype: RType, ctx: Context, name: string, t: RType)
    requires NonNsec(ctx.authority) == ctx.authority && (ctx.res == NoError || ctx.res == NameError)
    ensures AddNsec(s, Mode(qname, qtype, false), ctx, name, t) == ctx
    ensures Adds(ctx, AddNsec(s, Mode(qname, qtype, true), ctx, name, t))
  {
    hide NonNsec, FilterNsecBitmap;
    var secure := AddNsec(s, Mode(qname, qtype, true), ctx, name, t);
    NsecBehind(ctx.authority, secure.authority[|ctx.authority|]);
  }

  /** A pass without a hop, with and without DNSSEC. */
  lemma StopAdds(s: Server, qname: string, qtype: RType, cur: string)
    requires OwnedType(qtype) && s.soa.RR? && HopAt(s, qtype, cur).None?
    ensures var plain := Step(s, Mode(qname, qtype, false), START, cur);
            var secure := Step(s, Mode(qname, qtype, true), START, cur);
            plain.Done? && secure.Done? && (Adds(plain.ctx, secure.ctx) <==> !Refused(s, qname, qtype, cur))
  {
    hide Matched, SubDelegation, FindLocation, InZone, HasOwnData, NonNsec, AnameRefuses, Host, AddNsec, Adds;
    assert NonNsec([]) == [] by { NonNsecOfPlain([]); }
    NonNsecOfOne(s.soa);
    var loc := FindLocation(s.zone, cur);
    ApexIsExact(s.zone);
    if !InZone(s, cur) {
      NsecAdds(s, qname, qtype, START.(res := NoError), qname, qtype);
    } else if loc.kind == NoMatch {
      NsecAdds(s, qname, qtype, START.(authority := [s.soa], res := NameError), cur, OTHER);
    } else if loc.kind == EmptyNonterminalMatch {
      NsecAdds(s, qname, qtype, START.(authority := [s.soa], res := NoError), cur, OTHER);
    } else if loc.kind == CEMatch {
      SubDelegationAdds(s, qname, qtype, cur, loc.name);
    } else {
      MatchedAdds(s, qname, qtype, cur, loc.name);
    }
  }

  lemma ApexIsExact(z: Zone)
    ensures FindLocation(z, z.name).kind == ExactMatch
  {
  }

  lemma {:induction false} RunAdds(s: Server, qname: string, qtype: RType, n: nat, cur: string)
    requires OwnedType(qtype) && s.soa.RR?
    ensures var plain := Run(s, Mode(qname, qtype, false), n, START, cur);
            var secure := Run(s, Mode(qname, qtype, true), n, START, cur);
            var end := Walk(s, qtype, true, n, cur);
            Adds(plain, secure) <==> !(end.At? && Refused(s, qname, qtype, end.name))
    decreases MAX_HOPS + 1 - n
  {
    hide Step, InZone, HopAt, Host, Fqdn, NonNsec, Refused;
    assert NonNsec([]) == [] by { NonNsecOfPlain([]); }
    if n <= MAX_HOPS {
      if HopAt(s, qtype, cur).None? {
        StopAdds(s, qname, qtype, cur);
      } else {
        var cname := HopAt(s, qtype, cur).value;
        HopStep(s, Mode(qname, qtype, false), START, cur, cname);
        HopStep(s, Mode(qname, qtype, true), START, cur, cname);
        if InZone(s, Host(cname)) {
          RunAdds(s, qname, qtype, n + 1, Fqdn(Host(cname)));
        }
      }
    }
  }

  /**
   With DNSSEC the unsigned response is the flattened one with at most one NSEC record added and name errors
   turned into empty answers: exactly unless the walk ends at an ANAME whose target fails.
   */
  lemma DnssecOnlyAddsNsec(s: Server, qname: string, qtype: RType)
    requires OwnedType(qtype) && s.soa.RR?
    ensures var end := Walk(s, qtype, true, 0, qname);
            Adds(Run(s, Mode(qname, qtype, false), 0, START, qname), Run(s, Mode(qname, qtype, true), 0, START, qname))
            <==> !(end.At? && Refused(s, qname, qtype, end.name))
  {
    RunAdds(s, qname, qtype, 0, qname);
  }

  // ---------------------------------------------------------------- an ANAME that fails at the apex

  /** For every server: a failed ANAME at the apex is SERVFAIL without DNSSEC and an empty answer with it. */
  lemma ApexFailureHidden(s: Server, qtype: RType)
    requires InZone(s, s.zone.name) && NoSet(s.lookup("@", CNAME)) && AnameGives(s, qtype, "@", ServFail)
    requires s.aname(Host(s.lookup("@", ANAME).rrset), qtype).ips == []
    ensures var apex := s.zone.name;
            && Run(s, Mode(apex, qtype, false), 0, START, apex) == START.(res := ServFail)
            && Run(s, Mode(apex, qtype, true), 0, START, apex).res == NoError
  {
    hide InZone, FilterNsecBitmap;
    var apex := s.zone.name;
    assert FindLocation(s.zone, apex) == Location("@", ExactMatch);
    hide FindLocation;
    ApexFinal(s, qtype);
  }

  lemma ApexFinal(s: Server, qtype: RType)
    requires AnameGives(s, qtype, "@", ServFail) && s.aname(Host(s.lookup("@", ANAME).rrset), qtype).ips == []
    ensures var apex := s.zone.name;
            && Final(s, Mode(apex, qtype, false), START, apex, "@") == START.(res := ServFail)
            && Final(s, Mode(apex, qtype, true), START, apex, "@").res == NoError
  {
    hide FilterNsecBitmap, Host;
    NoValues(s.zone.name, qtype, s.aname(Host(s.lookup("@", ANAME).rrset), qtype).ttl);
  }

  /** One such server: its apex is an ANAME for a name that cannot be resolved. */
  function Dangling(soa: RR): Server {
    Server(map[".z." := Some("z.")], Zone("z.", map[], []), soa, 0, true, [],
           (l, t) => Found(RRSet(300, if t == ANAME then ["gone."] else [])),
           (h, t) => Addresses([], ServFail, 0), rrset => [], name => None)
  }

  lemma DanglingReads(soa: RR)
    ensures var s := Dangling(soa);
            && s.lookup("@", CNAME) == s.lookup("@", A) == Found(RRSet(300, []))
            && s.lookup("@", ANAME) == Found(RRSet(300, ["gone."])) && s.aname("gone.", A) == Addresses([], ServFail, 0)
            && s.zone.name == "z." && s.index == map[".z." := Some("z.")]
  {
  }

  lemma DanglingApex(soa: RR)
    ensures var s := Dangling(soa);
            && s.zone.name == "z." && InZone(s, "z.") && NoSet(s.lookup("@", CNAME)) && AnameGives(s, A, "@", ServFail)
            && s.aname(Host(s.lookup("@", ANAME).rrset), A).ips == []
  {
    hide FindZone, Dangling;
    DanglingReads(soa);
    LoneZone(Dangling(soa).index);
    assert Host(RRSet(300, ["gone."])) == "gone.";
  }

  lemma DanglingDiffers(soa: RR)
    ensures var s := Dangling(soa);
            && Run(s, Mode("z.", A, false), 0, START, "z.").res == ServFail
            && Run(s, Mode("z.", A, true), 0, START, "z.").res == NoError
  {
    hide Run, Dangling, InZone, AnameGives, Host, Mode;
    DanglingApex(soa);
    ApexFailureHidden(Dangling(soa), A);
  }

  // ---------------------------------------------------------------- what an NSEC record says

  function OtherThan(qtype: RType): RType -> bool {
    t => t != qtype
  }

  /** The bitmap loses the type that is asked for, and nothing else. */
  lemma {:induction false} BitmapIsKept(qtype: RType, bitmap: seq<RType>)
    ensures FilterNsecBitmap(qtype, bitmap) == Kept(bitmap, OtherThan(qtype))
  {
    if bitmap != [] {
      BitmapIsKept(qtype, bitmap[1..]);
      KeptInFront(bitmap[0], bitmap[1..], OtherThan(qtype));
      assert bitmap == [bitmap[0]] + bitmap[1..];
    }
  }

  lemma {:induction false} KeptMembers<T(!new)>(xs: seq<T>, p: T -> bool)
    ensures forall x :: x in Kept(xs, p) <==> x in xs && p(x)
  {
    if xs != [] {
      KeptMembers(xs[..|xs| - 1], p);
      assert xs == xs[..|xs| - 1] + [xs[|xs| - 1]];
    }
  }

  /** The types an NSEC record admits at a name: of a missing one only its own, else all but the denied one. */
  predicate Admits(apex: bool, missing: bool, qtype: RType, t: RType) {
    if apex then t != qtype && t in {A, NS, SOA, PTR, MX, TXT, AAAA, SRV, RRSIG, NSEC, TLSA, CAA}
    else if missing then t == RRSIG || t == NSEC
    else if qtype == DS then t == NS || t == RRSIG || t == NSEC
    else t != qtype && t in {A, CNAME, PTR, MX, TXT, AAAA, SRV, RRSIG, NSEC, TLSA, CAA}
  }

  lemma FilteredMembers(qtype: RType, bitmap: seq<RType>)
    ensures forall t :: t in FilterNsecBitmap(qtype, bitmap) <==> t in bitmap && t != qtype
  {
    BitmapIsKept(qtype, bitmap);
    KeptMembers(bitmap, OtherThan(qtype));
  }

  /** The bitmap that is chosen for a name. */
  function Bitmap(apex: bool, missing: bool, qtype: RType): seq<RType> {
    if apex then FilterNsecBitmap(qtype, BITMAP_APEX)
    else if missing then BITMAP_NAME_ERROR
    else FilterNsecBitmap(qtype, if qtype == DS then BITMAP_SUBDELEGATION else BITMAP_ZONE)
  }

  lemma FullBitmaps(t: RType)
    ensures t in BITMAP_APEX <==> t in {A, NS, SOA, PTR, MX, TXT, AAAA, SRV, RRSIG, NSEC, TLSA, CAA}
    ensures t in BITMAP_ZONE <==> t in {A, CNAME, PTR, MX, TXT, AAAA, SRV, RRSIG, NSEC, TLSA, CAA}
  {
  }

  lemma SmallBitmaps(t: RType)
    ensures t in BITMAP_SUBDELEGATION <==> t == NS || t == DS || t == RRSIG || t == NSEC
    ensures t in BITMAP_NAME_ERROR <==> t == RRSIG || t == NSEC
  {
  }

  lemma BitmapAdmits(apex: bool, missing: bool, qtype: RType, t: RType)
    ensures t in Bitmap(apex, missing, qtype) <==> Admits(apex, missing, qtype, t)
  {
    hide FilterNsecBitmap;
    if apex {
      FilteredMembers(qtype, BITMAP_APEX);
      FullBitmaps(t);
    } else if missing {
      SmallBitmaps(t);
    } else if qtype == DS {
      FilteredMembers(qtype, BITMAP_SUBDELEGATION);
      SmallBitmaps(t);
    } else {
      FilteredMembers(qtype, BITMAP_ZONE);
      FullBitmaps(t);
    }
  }

  /** The NSEC record for a denial: owner, the zone's minimum ttl, and exactly the types that are admitted. */
  lemma NsecSays(s: Server, req: Request, ctx: Context, name: string, qtype: RType)
    requires req.dnssec
    ensures var r := AddNsec(s, req, ctx, name, qtype);
            && |r.authority| == |ctx.authority| + 1 && r.authority[..|ctx.authority|] == ctx.authority
            && r.answer == ctx.answer && r.additional == ctx.additional
            && r.res == (if name == s.zone.name || ctx.res == NameError then NoError else ctx.res)
            && var nsec := r.authority[|ctx.authority|];
               && nsec.Nsec? && nsec.name == name && nsec.ttl == s.minTtl
               && forall t :: t in nsec.bitmap <==> Admits(name == s.zone.name, ctx.res == NameError, qtype, t)
  {
    hide FilterNsecBitmap, Admits;
    var apex, missing := name == s.zone.name, ctx.res == NameError;
    var nsec := AddNsec(s, req, ctx, name, qtype).authority[|ctx.authority|];
    assert nsec.bitmap == Bitmap(apex, missing, qtype);
    hide AddNsec, Bitmap;
    forall t ensures t in nsec.bitmap <==> Admits(apex, missing, qtype, t) {
      BitmapAdmits(apex, missing, qtype, t);
    }
  }
}
