/**
 CNAME flattening preserves meaning (section 3.6.2 of RFC 1034). The response of a flattening zone
 is computed from the response the same zone would give without flattening; the equation holds
 exactly when every hop of the walk is judged alike by both modes and the hop bound is not met at
 the moment the chain leaves the zone.
 */
module Flattening {
  import opened Names
  import opened Radix
  import opened Wrappers
  import opened Zones
  import opened Records
  import opened Resolver

  /** Query types whose final records are owned by the name that was found. */
  predicate OwnedType(t: RType) {
    t in {A, AAAA, TXT, NS, MX, SRV, PTR, TLSA, OTHER}
  }

  function NonCname(rrs: seq<RR>): seq<RR> {
    if rrs == [] then [] else
      (if rrs[0].RR? && rrs[0].rtype == CNAME then [] else [rrs[0]]) + NonCname(rrs[1..])
  }

  /**
   What a client should see instead of an unflattened answer: the final records under the query
   name; or, when the chain has left the zone, one CNAME from the query name to its last target.
   */
  function FlatAnswer(s: Server, qname: string, answer: seq<RR>): seq<RR> {
    var final := NonCname(answer);
    if final != [] then Reowned(final, qname)
    else if answer == [] then []
    else
      var last := answer[|answer| - 1];
      if last.RR? && !InZone(s, last.data) then [RR(qname, last.rtype, last.ttl, last.data)] else []
  }

  function Flattened(s: Server, qname: string, ctx: Context): Context {
    ctx.(answer := FlatAnswer(s, qname, ctx.answer))
  }

  /** The CNAME that is followed from `cur`, if one is. */
  function HopAt(s: Server, qtype: RType, cur: string): Option<RRSet> {
    var loc := FindLocation(s.zone, cur);
    if InZone(s, cur) && loc.kind in {ExactMatch, WildCardMatch} && qtype != CNAME then
      match s.lookup(loc.name, CNAME)
      case Failed => None
      case Found(cname) => if Host(cname) == "" then None else Some(cname)
    else None
  }

  /**
   The walk meets no hop on which the modes part ways. A target that counts as outside while the
   chain is followed must also be outside once qualified, and not be the eleventh name.
   */
  predicate Flattenable(s: Server, qtype: RType, loopCount: nat, cur: string)
    decreases MAX_HOPS + 1 - loopCount
  {
    loopCount > MAX_HOPS ||
    match HopAt(s, qtype, cur)
    case None => true
    case Some(cname) =>
      var next := Fqdn(Host(cname));
      if !InZone(s, Host(cname)) then loopCount < MAX_HOPS && !InZone(s, next)
      else if InZone(s, next) then Flattenable(s, qtype, loopCount + 1, next)
      else loopCount == MAX_HOPS
  }

  predicate AllCname(chain: seq<RR>) {
    forall rr | rr in chain :: rr.RR? && rr.rtype == CNAME
  }

  /** CNAMEs only, the last of which points at `cur`. */
  predicate EndsAt(chain: seq<RR>, cur: string) {
    AllCname(chain) && (chain != [] ==> chain[|chain| - 1].data == cur)
  }

  lemma {:induction false} NonCnameOfChain(chain: seq<RR>, final: seq<RR>)
    requires AllCname(chain) && forall rr | rr in final :: rr.RR? && rr.rtype != CNAME
    ensures NonCname(chain + final) == final
  {
    if chain != [] {
      NonCnameOfChain(chain[1..], final);
      assert (chain + final)[1..] == chain[1..] + final;
    } else if final != [] {
      NonCnameOfChain([], final[1..]);
      assert chain + final == final && [] + final[1..] == final[1..];
    }
  }

  lemma {:induction false} NonCnameHasNone(rrs: seq<RR>)
    ensures forall rr | rr in NonCname(rrs) :: !(rr.RR? && rr.rtype == CNAME)
  {
    if rrs != [] {
      NonCnameHasNone(rrs[1..]);
    }
  }

  lemma {:induction false} ReownedNonCname(rrs: seq<RR>, name: string)
    requires forall rr | rr in rrs :: !(rr.RR? && rr.rtype == CNAME)
    ensures forall rr | rr in Reowned(rrs, name) :: !(rr.RR? && rr.rtype == CNAME)
  {
    if rrs != [] {
      ReownedNonCname(rrs[1..], name);
    }
  }

  /** A chain that ends inside the zone flattens to nothing, one that ends outside to its last link. */
  lemma FlatAnswerOfChain(s: Server, qname: string, chain: seq<RR>, cur: string)
    requires EndsAt(chain, cur)
    ensures FlatAnswer(s, qname, chain) ==
            if chain == [] || InZone(s, cur) then [] else [RR(qname, CNAME, chain[|chain| - 1].ttl, cur)]
  {
    hide NonCname;
    NonCnameOfChain(chain, []);
    assert chain + [] == chain;
    assert chain != [] ==> chain[|chain| - 1] in chain;
  }

  lemma FlatAnswerOfFinal(s: Server, qname: string, chain: seq<RR>, final: seq<RR>)
    requires AllCname(chain) && final != [] && forall rr | rr in final :: rr.RR? && rr.rtype != CNAME
    ensures FlatAnswer(s, qname, chain + final) == Reowned(final, qname)
  {
    NonCnameOfChain(chain, final);
  }

  /** No answer flattens to a CNAME whose target lies inside the zone. */
  lemma FlatCnameLeaves(s: Server, qname: string, answer: seq<RR>, rr: RR)
    requires rr.RR? && rr.rtype == CNAME && FlatAnswer(s, qname, answer) == [rr]
    ensures !InZone(s, rr.data)
  {
    assert rr in FlatAnswer(s, qname, answer);
    NonCnameHasNone(answer);
    ReownedNonCname(NonCname(answer), qname);
  }

  function Req(qname: string, qtype: RType, flattening: bool): Request {
    Request(qname, qtype, false, flattening)
  }

  predicate Owned(rrs: seq<RR>, name: string, rtype: RType) {
    forall rr | rr in rrs :: rr.RR? && rr.rtype == rtype && rr.name == name
  }

  lemma FinalRepliesAgree(s: Server, qtype: RType, res: Rcode, cur: string, qname: string, location: string)
    requires OwnedType(qtype)
    ensures var u, f := FinalReply(s, qtype, res, cur, location), FinalReply(s, qtype, res, qname, location);
            if u.Reply? then f == Reply(u.res, Reowned(u.rrs, qname)) && Owned(u.rrs, cur, qtype) else f == u
  {
    hide Values, Reowned, Host;
    match qtype
    case A | AAAA =>
      if s.lookup(location, qtype).Found? && s.lookup(location, ANAME).Found? {
        var addr, aname := s.lookup(location, qtype).rrset, s.lookup(location, ANAME).rrset;
        var found := s.aname(Host(aname), qtype);
        ReownedValues(cur, qname, qtype, found.ttl, found.ips);
        ReownedValues(cur, qname, qtype, addr.ttl, s.filter(addr));
      }
    case TXT | NS | MX | SRV | PTR | TLSA =>
      if s.lookup(location, qtype).Found? {
        var rrset := s.lookup(location, qtype).rrset;
        ReownedValues(cur, qname, qtype, rrset.ttl, rrset.data);
      }
    case _ =>
  }

  /** Appending the final records to a chain, in the unflattened mode, and to nothing in the other. */
  lemma AppendsAgree(s: Server, qname: string, chain: seq<RR>, rrs: seq<RR>, cur: string, qtype: RType)
    requires EndsAt(chain, cur) && InZone(s, cur) && Owned(rrs, cur, qtype) && qtype != CNAME
    ensures Reowned(rrs, qname) == FlatAnswer(s, qname, chain + rrs)
    ensures rrs == [] <==> Reowned(rrs, qname) == []
  {
    hide FlatAnswer, InZone;
    FlatAnswerOfChain(s, qname, chain, cur);
    if rrs == [] {
      assert chain + rrs == chain;
    } else {
      FlatAnswerOfFinal(s, qname, chain, rrs);
    }
  }

  /** The last pass of the loop: same rcode, authority and glue, and answers that flatten alike. */
  lemma FinalsAgree(s: Server, qname: string, qtype: RType, chain: seq<RR>, cur: string, location: string)
    requires OwnedType(qtype) && EndsAt(chain, cur) && InZone(s, cur)
    ensures Final(s, Req(qname, qtype, true), START, cur, location) ==
            Flattened(s, qname, Final(s, Req(qname, qtype, false), START.(answer := chain), cur, location))
  {
    hide FinalReply, FilterNsecBitmap, FlatAnswer, InZone, Reowned, Owned;
    FinalRepliesAgree(s, qtype, NoError, cur, qname, location);
    var u := FinalReply(s, qtype, NoError, cur, location);
    if u.Reply? {
      AppendsAgree(s, qname, chain, u.rrs, cur, qtype);
      assert [] + Reowned(u.rrs, qname) == Reowned(u.rrs, qname);
    } else {
      FlatAnswerOfChain(s, qname, chain, cur);
      FlatAnswerOfChain(s, qname, [], cur);
    }
  }

  lemma MatchedAgree(s: Server, qname: string, qtype: RType, chain: seq<RR>, cur: string, location: string)
    requires OwnedType(qtype) && EndsAt(chain, cur) && InZone(s, cur)
    requires s.lookup(location, CNAME).Found? ==> Host(s.lookup(location, CNAME).rrset) == ""
    ensures var f := Matched(s, Req(qname, qtype, true), START, cur, location);
            var u := Matched(s, Req(qname, qtype, false), START.(answer := chain), cur, location);
            u.Done? && f == Done(Flattened(s, qname, u.ctx))
  {
    hide Final;
    FinalsAgree(s, qname, qtype, chain, cur, location);
    FlatAnswerOfChain(s, qname, chain, cur);
  }

  lemma SubDelegationAgrees(s: Server, qname: string, qtype: RType, chain: seq<RR>, cur: string, location: string)
    ensures SubDelegation(s, Req(qname, qtype, true), START, cur, location) ==
            SubDelegation(s, Req(qname, qtype, false), START.(answer := chain), cur, location).(answer := [])
    ensures SubDelegation(s, Req(qname, qtype, false), START.(answer := chain), cur, location).answer == chain
  {
  }

  lemma StopsAgree(s: Server, qname: string, qtype: RType, chain: seq<RR>, cur: string)
    requires OwnedType(qtype) && EndsAt(chain, cur) && (chain == [] || InZone(s, cur))
    requires HopAt(s, qtype, cur).None?
    ensures var f := Step(s, Req(qname, qtype, true), START, cur);
            var u := Step(s, Req(qname, qtype, false), START.(answer := chain), cur);
            u.Done? && f == Done(Flattened(s, qname, u.ctx))
  {
    hide Matched, SubDelegation, InZone, FindLocation, FlatAnswer;
    FlatAnswerOfChain(s, qname, chain, cur);
    var loc := FindLocation(s.zone, cur);
    if InZone(s, cur) && loc.kind in {ExactMatch, WildCardMatch} {
      MatchedAgree(s, qname, qtype, chain, cur, loc.name);
    } else {
      SubDelegationAgrees(s, qname, qtype, chain, cur, loc.name);
    }
  }

  /** What a pass does with a CNAME that is followed. */
  lemma HopStep(s: Server, req: Request, ctx: Context, cur: string, cname: RRSet)
    requires HopAt(s, req.qtype, cur) == Some(cname)
    ensures Step(s, req, ctx, cur) ==
            if !req.flattening then Hop(ctx.(answer := ctx.answer + [CnameRR(cur, cname)]), Fqdn(Host(cname)))
            else if InZone(s, Host(cname)) then Hop(ctx, Fqdn(Host(cname)))
            else Done(ctx.(answer := ctx.answer + [CnameRR(req.qname, cname)], res := NoError))
  {
    hide InZone, FindLocation, Host, Fqdn, Final, SubDelegation, Delegation;
  }

  lemma HopSteps(s: Server, qname: string, qtype: RType, chain: seq<RR>, cur: string, cname: RRSet)
    requires HopAt(s, qtype, cur) == Some(cname)
    ensures Step(s, Req(qname, qtype, false), START.(answer := chain), cur) ==
            Hop(START.(answer := chain + [CnameRR(cur, cname)]), Fqdn(Host(cname)))
    ensures Step(s, Req(qname, qtype, true), START, cur) ==
            if InZone(s, Host(cname)) then Hop(START, Fqdn(Host(cname)))
            else Done(START.(answer := [CnameRR(qname, cname)]))
  {
    hide Step, HopAt, InZone, Fqdn, Host;
    HopStep(s, Req(qname, qtype, false), START.(answer := chain), cur, cname);
    HopStep(s, Req(qname, qtype, true), START, cur, cname);
    assert [] + [CnameRR(qname, cname)] == [CnameRR(qname, cname)];
  }

  lemma OutsideStep(s: Server, req: Request, ctx: Context, cur: string)
    requires !InZone(s, cur) && !req.dnssec
    ensures Step(s, req, ctx, cur) == Done(ctx.(res := NoError))
  {
  }

  lemma FlatOfNothing(s: Server, qname: string)
    ensures FlatAnswer(s, qname, []) == []
  {
  }

  /** Both modes from the same name on, the unflattened one carrying the chain so far. */
  lemma {:induction false} FlattenFrom(s: Server, qname: string, qtype: RType, n: nat, chain: seq<RR>, cur: string)
    requires OwnedType(qtype) && EndsAt(chain, cur) && (chain == [] || InZone(s, cur))
    ensures var f := Run(s, Req(qname, qtype, true), n, START, cur);
            var u := Run(s, Req(qname, qtype, false), n, START.(answer := chain), cur);
            f == Flattened(s, qname, u) <==> Flattenable(s, qtype, n, cur)
    decreases MAX_HOPS + 1 - n
  {
    hide Step, InZone, FindLocation, FlatAnswer, HopAt, Host, Fqdn;
    var flat, plain := Req(qname, qtype, true), Req(qname, qtype, false);
    if n > MAX_HOPS {
      FlatOfNothing(s, qname);
    } else if HopAt(s, qtype, cur).None? {
      StopsAgree(s, qname, qtype, chain, cur);
    } else {
      var cname := HopAt(s, qtype, cur).value;
      var chain' := chain + [CnameRR(cur, cname)];
      var next := Fqdn(Host(cname));
      HopSteps(s, qname, qtype, chain, cur, cname);
      FlatAnswerOfChain(s, qname, chain', next);
      FlatOfNothing(s, qname);
      if InZone(s, Host(cname)) && InZone(s, next) {
        FlattenFrom(s, qname, qtype, n + 1, chain', next);
      } else if InZone(s, next) {
        var u := Run(s, plain, n + 1, START.(answer := chain'), next);
        if FlatAnswer(s, qname, u.answer) == [CnameRR(qname, cname)] {
          FlatCnameLeaves(s, qname, u.answer, CnameRR(qname, cname));
        }
      } else {
        OutsideStep(s, plain, START.(answer := chain'), next);
        OutsideStep(s, flat, START, next);
      }
    }
  }

  /**
   With DNSSEC off, for every query of an owned type: the flattening zone's response is the
   flattened response of the non-flattening zone if and only if the walk is flattenable.
   */
  lemma FlatteningPreservesMeaning(s: Server, qname: string, qtype: RType)
    requires OwnedType(qtype)
    ensures Run(s, Req(qname, qtype, true), 0, START, qname) ==
            Flattened(s, qname, Run(s, Req(qname, qtype, false), 0, START, qname))
            <==> Flattenable(s, qtype, 0, qname)
  {
    hide Run, Flattened, Flattenable;
    FlattenFrom(s, qname, qtype, 0, [], qname);
    assert START.(answer := []) == START;
  }

  /** A zone whose apex is an alias written without its final dot. */
  function Unqualified(soa: RR): Server {
    Server(map[".z." := Some("z.")], Zone("z.", map[], []), soa, 0, false, [],
           (l, t) => Found(RRSet(300, if t == CNAME then ["z"] else [])),
           (h, t) => Addresses([], NoError, 0), rrset => [], name => None)
  }

  lemma LoneZone(t: Tree)
    requires t == map[".z." := Some("z.")]
    ensures FindZone(t, "z.") == "z." && FindZone(t, "z") == ""
  {
    hide Reversed;
    ReversedLiterals();
    assert "." + "z." == ".z." && "." + "z" == ".z";
    assert LongestPrefix(t, ".z.") == Some(".z.");
    hide LongestPrefix;
    assert LongestPrefix(t, "z.").None?;
  }

  lemma UnqualifiedReads(soa: RR)
    ensures var s := Unqualified(soa);
            && s.lookup("@", CNAME) == Found(RRSet(300, ["z"]))
            && s.zone.name == "z." && s.index == map[".z." := Some("z.")]
  {
  }

  lemma UnqualifiedHop(soa: RR)
    ensures !Flattenable(Unqualified(soa), TXT, 0, "z.")
  {
    hide FindZone, Unqualified;
    var s := Unqualified(soa);
    UnqualifiedReads(soa);
    LoneZone(s.index);
    assert InZone(s, "z.") && !InZone(s, "z");
    hide InZone;
    assert Host(RRSet(300, ["z"])) == "z" && Fqdn("z") == "z.";
    assert HopAt(s, TXT, "z.") == Some(RRSet(300, ["z"]));
  }

  /** Such a target counts as outside when flattening and as inside otherwise: the modes differ. */
  lemma UnqualifiedTargetDiffers(soa: RR)
    ensures var s := Unqualified(soa);
            Run(s, Req("z.", TXT, true), 0, START, "z.") !=
            Flattened(s, "z.", Run(s, Req("z.", TXT, false), 0, START, "z."))
  {
    hide Run, Flattened, Flattenable, Unqualified, Req;
    UnqualifiedHop(soa);
    FlatteningPreservesMeaning(Unqualified(soa), "z.", TXT);
  }

  lemma ReversedLiterals()
    ensures Reversed(".z.") == ".z." && Reversed(".z") == "z."
  {
  }

  /** The name made of `n` letters. */
  function Alias(n: nat): (l: string)
    ensures |l| == n && '.' !in l
  {
    seq(n, _ => 'a')
  }

  /** Aliases a, aa, aaa and so on, each pointing at the next, in an index of theirs; the eleventh leaves the zone. */
  function Eleven(soa: RR, tree: Tree): Server {
    Server(map[".z." := Some("z.")], Zone("z.", tree, seq(11, (i: nat) => Alias(i + 1))), soa, 0, false, [],
           (l, t) => Found(RRSet(300, if t == CNAME then [Target(|l|)] else [])),
           (h, t) => Addresses([], NoError, 0), rrset => [], name => None)
  }

  function Target(n: nat): string {
    if n >= 11 then "out." else Alias(n + 1) + ".z."
  }

  lemma AliasFound(z: Zone, n: nat)
    requires Built(z) && z.name == "z." && Alias(n) in z.locations
    ensures FindLocation(z, Alias(n) + ".z.") == Location(Alias(n), ExactMatch)
  {
    hide FindLocation, Alias;
    var p := [Alias(n)];
    InZoneQuery(z, p);
    assert Text(p) == Alias(n);
    assert Alias(n) + "." + "z." == Alias(n) + ".z.";
  }

  lemma LoneZoneIndex(t: Tree)
    requires t == map[".z." := Some("z.")]
    ensures ZoneIndex(t, ["z."])
  {
    hide Reversed;
    ReversedLiterals();
    assert "." + "z." == ".z.";
  }

  lemma AliasInZone(t: Tree, n: nat)
    requires t == map[".z." := Some("z.")]
    ensures FindZone(t, Alias(n) + ".z.") == "z." && FindZone(t, "out.") == ""
  {
    hide Alias, FindZone, ZoneIndex, Holds;
    LoneZoneIndex(t);
    FindZoneIsDeepest(t, ["z."], Alias(n) + ".z.");
    FindZoneIsDeepest(t, ["z."], "out.");
    AliasHeld(n);
    OutIsOutside();
  }

  lemma AliasHeld(n: nat)
    ensures Holds("z.", Alias(n) + ".z.")
  {
    hide Alias;
    LabelsConcat(Alias(n), "z.");
    assert Alias(n) + "." + "z." == Alias(n) + ".z.";
  }

  lemma OutIsOutside()
    ensures !Holds("z.", "out.")
  {
    QualifiedHolds(["z"], ["out"]);
    assert Text(["z"]) + "." == "z." && Text(["out"]) + "." == "out.";
    assert ["z"][0] != ["out"][0];
  }

  lemma ElevenHop(soa: RR, tree: Tree, n: nat)
    requires Built(Eleven(soa, tree).zone) && 1 <= n <= 11
    ensures var s := Eleven(soa, tree);
            && HopAt(s, TXT, Alias(n) + ".z.") == Some(RRSet(300, [Target(n)]))
            && InZone(s, Alias(n) + ".z.") && !InZone(s, "out.") && Fqdn(Target(n)) == Target(n)
  {
    hide FindZone, FindLocation, Alias;
    var s := Eleven(soa, tree);
    assert s.zone.locations[n - 1] == Alias(n);
    AliasFound(s.zone, n);
    AliasInZone(s.index, n);
  }

  lemma {:induction false} ElevenWalk(soa: RR, tree: Tree, n: nat)
    requires Built(Eleven(soa, tree).zone) && n <= 10
    ensures !Flattenable(Eleven(soa, tree), TXT, n, Alias(n + 1) + ".z.")
    decreases 10 - n
  {
    hide HopAt, InZone, Alias, Eleven, Fqdn;
    ElevenHop(soa, tree, n + 1);
    if n < 10 {
      ElevenHop(soa, tree, n + 2);
      ElevenWalk(soa, tree, n + 1);
    }
  }

  /** A chain that leaves the zone by its eleventh alias is answered when flattening and fails otherwise. */
  lemma EleventhHopDiffers(soa: RR, tree: Tree)
    requires Built(Eleven(soa, tree).zone)
    ensures var s, qname := Eleven(soa, tree), Alias(1) + ".z.";
            Run(s, Req(qname, TXT, true), 0, START, qname) !=
            Flattened(s, qname, Run(s, Req(qname, TXT, false), 0, START, qname))
  {
    hide Run, Flattened, Flattenable, Eleven, Req, Alias;
    ElevenWalk(soa, tree, 0);
    FlatteningPreservesMeaning(Eleven(soa, tree), Alias(1) + ".z.", TXT);
  }

  function Hops(s: Server, qtype: RType, loopCount: nat, cur: string): nat
    decreases MAX_HOPS + 1 - loopCount
  {
    if loopCount > MAX_HOPS || HopAt(s, qtype, cur).None? then 0
    else 1 + Hops(s, qtype, loopCount + 1, Fqdn(Host(HopAt(s, qtype, cur).value)))
  }

  /** Fully qualified CNAME targets and at most ten of them are enough. */
  lemma {:induction false} ShortChainsFlatten(s: Server, qtype: RType, loopCount: nat, cur: string)
    requires forall l: string | s.lookup(l, CNAME).Found? ::
               var host := Host(s.lookup(l, CNAME).rrset); host == "" || host == Fqdn(host)
    requires loopCount + Hops(s, qtype, loopCount, cur) <= MAX_HOPS
    ensures Flattenable(s, qtype, loopCount, cur)
    decreases MAX_HOPS + 1 - loopCount
  {
    hide InZone, FindLocation;
    if HopAt(s, qtype, cur).Some? {
      var host := Host(HopAt(s, qtype, cur).value);
      assert host == Fqdn(host);
      if InZone(s, host) {
        ShortChainsFlatten(s, qtype, loopCount + 1, host);
      }
    }
  }

  /** A client that starts at `from` can walk the answer: linked CNAMEs, then records of the last name. */
  predicate Followable(answer: seq<RR>, from: string, qtype: RType) {
    if answer != [] && answer[0].RR? && answer[0].rtype == CNAME
    then answer[0].name == from && Followable(answer[1..], answer[0].data, qtype)
    else Owned(answer, from, qtype)
  }

  lemma {:induction false} ChainThenFinal(chain: seq<RR>, final: seq<RR>, from: string, cur: string, qtype: RType)
    requires Linked(chain, from, cur) && Owned(final, cur, qtype) && qtype != CNAME
    ensures Followable(chain + final, from, qtype)
  {
    if chain == [] {
      assert chain + final == final;
      assert final != [] ==> final[0] in final;
    } else {
      ChainThenFinal(chain[1..], final, chain[0].data, cur, qtype);
      assert (chain + final)[1..] == chain[1..] + final;
    }
  }

  lemma FinalAnswer(s: Server, req: Request, ctx: Context, cur: string, location: string)
    requires OwnedType(req.qtype) && !req.flattening
    ensures var answer := Final(s, req, ctx, cur, location).answer;
            answer == [] || exists final :: answer == ctx.answer + final && Owned(final, cur, req.qtype)
  {
    hide FinalReply, FilterNsecBitmap;
    FinalRepliesAgree(s, req.qtype, ctx.res, cur, cur, location);
    var reply := FinalReply(s, req.qtype, ctx.res, cur, location);
    var final := if reply.Reply? then reply.rrs else [];
    assert ctx.answer + [] == ctx.answer;
    assert Owned(final, cur, req.qtype);
  }

  lemma StopAnswer(s: Server, req: Request, ctx: Context, cur: string)
    requires OwnedType(req.qtype) && !req.flattening
    ensures var o := Step(s, req, ctx, cur);
            o.Done? ==> o.ctx.answer == [] ||
                        exists final :: o.ctx.answer == ctx.answer + final && Owned(final, cur, req.qtype)
  {
    hide Final, InZone, FindLocation, FilterNsecBitmap, Values, Glue;
    assert ctx.answer + [] == ctx.answer && Owned([], cur, req.qtype);
    FinalAnswer(s, req, ctx, cur, FindLocation(s.zone, cur).name);
  }

  /** Without flattening, every answer can be followed from the query name, on any zone graph. */
  lemma {:induction false} UnflattenedIsFollowable(s: Server, req: Request, n: nat, ctx: Context, cur: string)
    requires OwnedType(req.qtype) && !req.flattening && Linked(ctx.answer, req.qname, cur)
    ensures Followable(Run(s, req, n, ctx, cur).answer, req.qname, req.qtype)
    decreases MAX_HOPS + 1 - n
  {
    hide Step;
    if n <= MAX_HOPS {
      var o := Step(s, req, ctx, cur);
      HopKeepsChain(s, req, ctx, cur);
      if o.Hop? {
        UnflattenedIsFollowable(s, req, n + 1, o.ctx, o.next);
      } else {
        StopAnswer(s, req, ctx, cur);
        if o.ctx.answer != [] {
          var final :| o.ctx.answer == ctx.answer + final && Owned(final, cur, req.qtype);
          ChainThenFinal(ctx.answer, final, req.qname, cur, req.qtype);
        }
      }
    }
  }

  /** Names from which every CNAME leads back among them, as on a cycle. */
  predicate Closed(s: Server, qtype: RType, names: set<string>) {
    forall n | n in names :: HopAt(s, qtype, n).Some? && InZone(s, Host(HopAt(s, qtype, n).value))
                             && Fqdn(Host(HopAt(s, qtype, n).value)) in names
  }

  /** A query caught in such a set overflows, in either mode: server failure and nothing else. */
  lemma {:induction false} CycleOverflows(
    s: Server, qname: string, qtype: RType, n: nat, chain: seq<RR>, cur: string, names: set<string>)
    requires Closed(s, qtype, names) && cur in names
    ensures Run(s, Req(qname, qtype, false), n, START.(answer := chain), cur) == START.(res := ServFail)
    ensures Run(s, Req(qname, qtype, true), n, START, cur) == START.(res := ServFail)
    decreases MAX_HOPS + 1 - n
  {
    hide Step, HopAt, InZone, Fqdn, Host;
    if n <= MAX_HOPS {
      var cname := HopAt(s, qtype, cur).value;
      HopSteps(s, qname, qtype, chain, cur, cname);
      CycleOverflows(s, qname, qtype, n + 1, chain + [CnameRR(cur, cname)], Fqdn(Host(cname)), names);
    }
  }
}
