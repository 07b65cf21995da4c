/**
 Signing a section of a response (internal/dnssec/dnssec.go, `SplitSets` of
 internal/types/dns_types.go). The signature of a record set is a function of the zone.
 */
module Signing {
  import opened Records
  import opened Listing
  import opened Wrappers

  datatype Key = Key(name: string, rtype: RType)

  /** A record of a signed section; a signature that could not be made leaves a nil record. */
  type Entry = Option<RR>

  /** `dnsKeySig` is made with the key-signing key when the zone is loaded; `sign` uses the zone key. */
  datatype Zone = Zone(name: string, dnsKeySig: Entry, sign: seq<RR> -> Option<string>)

  predicate Loaded(zone: Zone) {
    zone.dnsKeySig.Some? ==> TypeOf(zone.dnsKeySig.value) == RRSIG
  }

  function TypeOf(rr: RR): RType {
    if rr.Nsec? then NSEC else rr.rtype
  }

  function KeyOf(rr: RR): Key {
    Key(rr.name, TypeOf(rr))
  }

  predicate Unsignable(rtype: RType) {
    rtype == RRSIG || rtype == OPT
  }

  // ---------------------------------------------------------------- splitting

  /** The record set of a key: its records, in the order in which they occur. */
  function SetOf(rrs: seq<RR>, key: Key): (set_: seq<RR>)
    ensures forall rr | rr in set_ :: KeyOf(rr) == key
  {
    if rrs == [] then [] else
      var last := rrs[|rrs| - 1];
      SetOf(rrs[..|rrs| - 1], key) + if KeyOf(last) == key then [last] else []
  }

  predicate HasSet(rrs: seq<RR>, key: Key) {
    !Unsignable(key.rtype) && exists i | 0 <= i < |rrs| :: KeyOf(rrs[i]) == key
  }

  method SplitSets(rrs: seq<RR>) returns (m: map<Key, seq<RR>>)
    ensures forall key :: key in m <==> HasSet(rrs, key)
    ensures forall key | key in m :: m[key] == SetOf(rrs, key)
  {
    m := map[];
    for n := 0 to |rrs|
      invariant forall key :: key in m <==> HasSet(rrs[..n], key)
      invariant forall key | key in m :: m[key] == SetOf(rrs[..n], key)
    {
      var r := rrs[n];
      assert rrs[..n + 1] == rrs[..n] + [r];
      SetsGrow(rrs[..n], r);
      if TypeOf(r) == RRSIG || TypeOf(r) == OPT {
        continue;
      }
      if KeyOf(r) in m {
        var s := m[KeyOf(r)];
        s := s + [r];
        m := m[KeyOf(r) := s];
        continue;
      }
      var s := [r];
      m := m[KeyOf(r) := s];
    }
    assert rrs[..|rrs|] == rrs;
  }

  lemma SetsGrow(rrs: seq<RR>, r: RR)
    ensures forall key :: HasSet(rrs + [r], key) <==> HasSet(rrs, key) || (key == KeyOf(r) && !Unsignable(key.rtype))
    ensures forall key :: SetOf(rrs + [r], key) == SetOf(rrs, key) + if key == KeyOf(r) then [r] else []
    ensures !HasSet(rrs, KeyOf(r)) && !Unsignable(TypeOf(r)) ==> SetOf(rrs, KeyOf(r)) == []
  {
    var all := rrs + [r];
    assert all[..|all| - 1] == rrs && all[|all| - 1] == r;
    forall key ensures HasSet(all, key) <==> HasSet(rrs, key) || (key == KeyOf(r) && !Unsignable(key.rtype)) {
      if HasSet(rrs, key) {
        var i :| 0 <= i < |rrs| && KeyOf(rrs[i]) == key;
        assert KeyOf(all[i]) == key;
      }
      assert KeyOf(all[|rrs|]) == KeyOf(r);
    }
    NoSet(rrs, KeyOf(r));
  }

  lemma {:induction false} NoSet(rrs: seq<RR>, key: Key)
    ensures SetOf(rrs, key) == [] <==> forall i | 0 <= i < |rrs| :: KeyOf(rrs[i]) != key
  {
    if rrs != [] {
      NoSet(rrs[..|rrs| - 1], key);
    }
  }

  /** Records of one owner and type. */
  function OfSet(name: string, rtype: RType): RR -> bool {
    (rr: RR) => rr.name == name && TypeOf(rr) == rtype
  }

  /** A record set is all records of its owner and type, in the order of the section. */
  lemma {:induction false} SetIsKept(rrs: seq<RR>, key: Key)
    ensures SetOf(rrs, key) == Kept(rrs, OfSet(key.name, key.rtype))
  {
    if rrs != [] {
      SetIsKept(rrs[..|rrs| - 1], key);
    }
  }

  // ---------------------------------------------------------------- signing

  /** The signature made for a set, nil when that fails. */
  function SignRRSet(zone: Zone, records: seq<RR>): Entry
    requires records != []
  {
    match zone.sign(records)
    case None => None
    case Some(sig) => Some(RR(records[0].name, RRSIG, records[0].ttl, sig))
  }

  /** The signature that follows a set, if any: delegations below the query's zone are not signed. */
  function Signature(zone: Zone, qname: string, records: seq<RR>): Option<Entry>
    requires records != []
  {
    var rtype := TypeOf(records[0]);
    if Unsignable(rtype) || (rtype == NS && qname != zone.name) then None
    else if rtype == DNSKEY then Some(zone.dnsKeySig)
    else Some(SignRRSet(zone, records))
  }

  function Wrapped(rrs: seq<RR>): (r: seq<Entry>)
    ensures |r| == |rrs| && forall i | 0 <= i < |rrs| :: r[i] == Some(rrs[i])
  {
    seq(|rrs|, i requires 0 <= i < |rrs| => Some(rrs[i]))
  }

  function Sealed(zone: Zone, qname: string, records: seq<RR>): seq<Entry>
    requires records != []
  {
    match Signature(zone, qname, records)
    case None => Wrapped(records)
    case Some(sig) => Wrapped(records) + [sig]
  }

  function Block(zone: Zone, qname: string, rrs: seq<RR>, key: Key): seq<Entry> {
    if SetOf(rrs, key) == [] then [] else Sealed(zone, qname, SetOf(rrs, key))
  }

  function Signed(zone: Zone, qname: string, rrs: seq<RR>, order: seq<Key>): seq<Entry>
    decreases |order|
  {
    if order == [] then [] else
      Signed(zone, qname, rrs, order[..|order| - 1]) + Block(zone, qname, rrs, order[|order| - 1])
  }

  /** An order in which all sets of the section can be visited. */
  ghost predicate Visits(order: seq<Key>, rrs: seq<RR>) {
    && (forall i, j | 0 <= i < j < |order| :: order[i] != order[j])
    && forall key :: key in order <==> HasSet(rrs, key)
  }

  /** One turn of the loop over the sets. */
  method AppendSet(res: seq<Entry>, records: seq<RR>, qname: string, zone: Zone) returns (r: seq<Entry>)
    requires records != []
    ensures r == res + Sealed(zone, qname, records)
  {
    r := res + Wrapped(records);
    match TypeOf(records[0])
    case RRSIG => return;
    case OPT => return;
    case DNSKEY => r := r + [zone.dnsKeySig];
    case NS =>
      if qname == zone.name {
        r := r + [SignRRSet(zone, records)];
      }
    case _ => r := r + [SignRRSet(zone, records)];
  }

  lemma SignedNext(zone: Zone, qname: string, rrs: seq<RR>, order: seq<Key>, key: Key)
    ensures Signed(zone, qname, rrs, order + [key]) == Signed(zone, qname, rrs, order) + Block(zone, qname, rrs, key)
  {
    hide Block;
    assert (order + [key])[..|order|] == order;
  }

  /** The sets are visited in any order, as iteration over a map is. */
  method SignResponse(rrs: seq<RR>, qname: string, zone: Zone) returns (res: seq<Entry>, ghost order: seq<Key>)
    ensures Visits(order, rrs) && res == Signed(zone, qname, rrs, order)
  {
    hide SetOf, HasSet, Sealed;
    res, order := [], [];
    var sets := SplitSets(rrs);
    var pending := sets.Keys;
    while pending != {}
      invariant pending <= sets.Keys
      invariant forall key :: key in order <==> key in sets && key !in pending
      invariant forall i, j | 0 <= i < j < |order| :: order[i] != order[j]
      invariant res == Signed(zone, qname, rrs, order)
    {
      hide Signed;
      var key :| key in pending;
      pending := pending - {key};
      HasRecords(rrs, key);
      res := AppendSet(res, sets[key], qname, zone);
      SignedNext(zone, qname, rrs, order, key);
      order := order + [key];
    }
  }

  lemma HasRecords(rrs: seq<RR>, key: Key)
    requires HasSet(rrs, key)
    ensures SetOf(rrs, key) != []
  {
    hide SetOf;
    NoSet(rrs, key);
  }

  // ---------------------------------------------------------------- what every order guarantees

  function Count<T(==)>(x: T, xs: seq<T>): nat {
    if xs == [] then 0 else Count(x, xs[..|xs| - 1]) + if xs[|xs| - 1] == x then 1 else 0
  }

  lemma {:induction false} CountConcat<T>(x: T, a: seq<T>, b: seq<T>)
    ensures Count(x, a + b) == Count(x, a) + Count(x, b)
    decreases |b|
  {
    if b == [] {
      assert a + b == a;
    } else {
      CountConcat(x, a, b[..|b| - 1]);
      assert (a + b)[..|a + b| - 1] == a + b[..|b| - 1];
    }
  }

  lemma {:induction false} CountWrapped(x: RR, rrs: seq<RR>)
    ensures Count(Some(x), Wrapped(rrs)) == Count(x, rrs)
  {
    if rrs != [] {
      var n := |rrs| - 1;
      CountWrapped(x, rrs[..n]);
      assert Wrapped(rrs)[..n] == Wrapped(rrs[..n]);
    }
  }

  lemma {:induction false} CountInSet(x: RR, rrs: seq<RR>, key: Key)
    ensures Count(x, SetOf(rrs, key)) == if KeyOf(x) == key then Count(x, rrs) else 0
    decreases |rrs|
  {
    if rrs != [] {
      var n := |rrs| - 1;
      CountInSet(x, rrs[..n], key);
      CountConcat(x, SetOf(rrs[..n], key), [rrs[n]]);
      hide SetOf;
      assert SetOf(rrs[..n], key) + [] == SetOf(rrs[..n], key);
    }
  }

  lemma {:induction false} CountAbsent<T>(x: T, xs: seq<T>)
    requires forall i | 0 <= i < |xs| :: xs[i] != x
    ensures Count(x, xs) == 0
  {
    if xs != [] {
      CountAbsent(x, xs[..|xs| - 1]);
    }
  }

  lemma CountInBlock(zone: Zone, qname: string, rrs: seq<RR>, key: Key, x: RR)
    requires Loaded(zone) && TypeOf(x) != RRSIG
    ensures Count(Some(x), Block(zone, qname, rrs, key)) == if KeyOf(x) == key then Count(x, rrs) else 0
  {
    hide Count, SetOf;
    var records := SetOf(rrs, key);
    CountInSet(x, rrs, key);
    if records == [] {
      CountAbsent(x, []);
      CountAbsent(Some(x), []);
    } else {
      CountWrapped(x, records);
      var sig := Signature(zone, qname, records);
      if sig.Some? {
        CountConcat(Some(x), Wrapped(records), [sig.value]);
        CountAbsent(Some(x), [sig.value]);
      }
    }
  }

  lemma {:induction false} CountSigned(zone: Zone, qname: string, rrs: seq<RR>, order: seq<Key>, x: RR)
    requires Loaded(zone) && TypeOf(x) != RRSIG
    requires forall i, j | 0 <= i < j < |order| :: order[i] != order[j]
    ensures Count(Some(x), Signed(zone, qname, rrs, order)) == if KeyOf(x) in order then Count(x, rrs) else 0
    decreases |order|
  {
    hide Block, Count;
    if order == [] {
      CountAbsent(Some(x), []);
    } else {
      var n := |order| - 1;
      CountSigned(zone, qname, rrs, order[..n], x);
      CountInBlock(zone, qname, rrs, order[n], x);
      CountConcat(Some(x), Signed(zone, qname, rrs, order[..n]), Block(zone, qname, rrs, order[n]));
      assert order == order[..n] + [order[n]];
    }
  }

  /**
   Whatever the order, every record occurs as often as before; only OPT records (and signatures that
   were already there) are lost. So without those the records are conserved.
   */
  lemma SigningConserves(zone: Zone, qname: string, rrs: seq<RR>, order: seq<Key>, x: RR)
    requires Loaded(zone) && Visits(order, rrs) && (x.RR? ==> x.rtype != RRSIG)
    ensures Count(Some(x), Signed(zone, qname, rrs, order)) == if x.RR? && x.rtype == OPT then 0 else Count(x, rrs)
  {
    hide Signed, Count;
    CountSigned(zone, qname, rrs, order, x);
    if TypeOf(x) != OPT && KeyOf(x) !in order {
      assert !HasSet(rrs, KeyOf(x));
      CountAbsent(x, rrs);
    }
  }

  /** A signature, made or nil, as opposed to a record that was there before. */
  predicate IsSig(e: Entry) {
    e.None? || TypeOf(e.value) == RRSIG
  }

  predicate Keyed(e: Entry, key: Key) {
    !IsSig(e) && e.value.name == key.name && TypeOf(e.value) == key.rtype
  }

  /** A block is the records of one set, then at most one signature. */
  lemma BlockShape(zone: Zone, qname: string, rrs: seq<RR>, key: Key)
    requires Loaded(zone) && HasSet(rrs, key)
    ensures var n := |SetOf(rrs, key)|;
            var b := Block(zone, qname, rrs, key);
            && 0 < n <= |b| <= n + 1
            && b[..n] == Wrapped(SetOf(rrs, key))
            && (forall i | 0 <= i < n :: Keyed(b[i], key))
            && (|b| == n <==> key.rtype == NS && qname != zone.name)
            && (|b| == n + 1 ==> Some(b[n]) == Signature(zone, qname, SetOf(rrs, key)) && IsSig(b[n]))
  {
    HasRecords(rrs, key);
    NotUnsignable(rrs, key);
    hide SetOf, HasSet;
    var records := SetOf(rrs, key);
    forall i | 0 <= i < |records| ensures KeyOf(records[i]) == key {
      assert records[i] in records;
    }
    assert KeyOf(records[0]) == key;
  }

  lemma NotUnsignable(rrs: seq<RR>, key: Key)
    requires HasSet(rrs, key)
    ensures !Unsignable(key.rtype)
  {
  }

  /** No plain record in a signed section has a key that was not visited. */
  lemma {:induction false} KeysOfSigned(zone: Zone, qname: string, rrs: seq<RR>, order: seq<Key>, i: nat)
    requires Loaded(zone) && (forall k | k in order :: HasSet(rrs, k))
    requires i < |Signed(zone, qname, rrs, order)|
    ensures var e := Signed(zone, qname, rrs, order)[i];
            IsSig(e) || KeyOf(e.value) in order
    decreases |order|
  {
    hide Block, SetOf, HasSet;
    var n := |order| - 1;
    var before := Signed(zone, qname, rrs, order[..n]);
    if i < |before| {
      KeysOfSigned(zone, qname, rrs, order[..n], i);
    } else {
      assert order[n] in order;
      BlockShape(zone, qname, rrs, order[n]);
      assert Signed(zone, qname, rrs, order)[i] == Block(zone, qname, rrs, order[n])[i - |before|];
    }
  }

  /** Each record set stays in one piece. */
  ghost predicate Contiguous(res: seq<Entry>) {
    forall i, j, k, key | 0 <= i < j < k < |res| && Keyed(res[i], key) && Keyed(res[k], key) :: Keyed(res[j], key)
  }

  lemma {:induction false} SigningKeepsSetsTogether(zone: Zone, qname: string, rrs: seq<RR>, order: seq<Key>)
    requires Loaded(zone) && (forall k | k in order :: HasSet(rrs, k))
    requires forall i, j | 0 <= i < j < |order| :: order[i] != order[j]
    ensures Contiguous(Signed(zone, qname, rrs, order))
    decreases |order|
  {
    hide Block, SetOf, HasSet;
    if order != [] {
      var n := |order| - 1;
      var key := order[n];
      var before, last := Signed(zone, qname, rrs, order[..n]), Block(zone, qname, rrs, key);
      SigningKeepsSetsTogether(zone, qname, rrs, order[..n]);
      assert key in order;
      BlockShape(zone, qname, rrs, key);
      forall i | 0 <= i < |before| ensures !Keyed(before[i], key) {
        KeysOfSigned(zone, qname, rrs, order[..n], i);
      }
      assert Signed(zone, qname, rrs, order) == before + last;
      AppendContiguous(before, last, key);
    }
  }

  lemma AppendContiguous(before: seq<Entry>, last: seq<Entry>, key: Key)
    requires Contiguous(before) && forall i | 0 <= i < |before| :: !Keyed(before[i], key)
    requires forall i | 0 <= i < |last| :: Keyed(last[i], key) || (i == |last| - 1 && IsSig(last[i]))
    ensures Contiguous(before + last)
  {
  }

  /** The record at `i` ends its set: the next one, if any, is of another set. */
  predicate EndsSet(res: seq<Entry>, i: nat)
    requires i < |res|
  {
    !IsSig(res[i]) && (i + 1 == |res| || !Keyed(res[i + 1], KeyOf(res[i].value)))
  }

  /** The entry is what signing these records with the zone key gives: a signature of their owner and ttl, or nil. */
  predicate Covers(zone: Zone, records: seq<RR>, name: string, e: Entry) {
    records != [] &&
    match zone.sign(records)
    case None => e == None
    case Some(sig) => e == Some(RR(name, RRSIG, records[0].ttl, sig))
  }

  /**
   Right after the last record of a set comes the signature of the whole set, for DNSKEY the stored one; after a
   delegation, that is an NS set in the answer to a query for another name than the zone's, comes none.
   */
  predicate Closed(zone: Zone, qname: string, rrs: seq<RR>, res: seq<Entry>, i: nat)
    requires i < |res| && !IsSig(res[i])
  {
    var name, rtype := res[i].value.name, TypeOf(res[i].value);
    if rtype == NS && qname != zone.name then i + 1 == |res| || !IsSig(res[i + 1])
    else
      && i + 1 < |res|
      && if rtype == DNSKEY then res[i + 1] == zone.dnsKeySig
         else Covers(zone, Kept(rrs, OfSet(name, rtype)), name, res[i + 1])
  }

  /** Signatures stand only behind the records of a set, never behind one another. */
  predicate SignaturesApart(res: seq<Entry>) {
    forall i | 0 <= i < |res| && IsSig(res[i]) :: i > 0 && !IsSig(res[i - 1])
  }

  ghost predicate AllClosed(zone: Zone, qname: string, rrs: seq<RR>, res: seq<Entry>) {
    forall i | 0 <= i < |res| && EndsSet(res, i) :: Closed(zone, qname, rrs, res, i)
  }

  ghost predicate WellSigned(zone: Zone, qname: string, rrs: seq<RR>, res: seq<Entry>) {
    AllClosed(zone, qname, rrs, res) && SignaturesApart(res)
  }

  lemma AppendApart(before: seq<Entry>, last: seq<Entry>, n: nat)
    requires SignaturesApart(before) && 0 < n <= |last| <= n + 1
    requires forall i | 0 <= i < n :: !IsSig(last[i])
    ensures SignaturesApart(before + last)
  {
  }

  /** Sets closed before stay closed when a new set follows. */
  lemma ClosedBefore(zone: Zone, qname: string, rrs: seq<RR>, before: seq<Entry>, last: seq<Entry>, i: nat)
    requires i < |before| && AllClosed(zone, qname, rrs, before) && EndsSet(before + last, i)
    requires last != [] && !IsSig(last[0])
    ensures Closed(zone, qname, rrs, before + last, i)
  {
    hide SetOf, Signature;
    var res := before + last;
    assert res[i] == before[i];
    if i + 1 < |before| {
      assert res[i + 1] == before[i + 1];
    } else {
      assert res[i + 1] == last[0];
    }
    assert EndsSet(before, i);
    assert Closed(zone, qname, rrs, before, i);
  }

  /** What the signature of a set is. */
  lemma SignatureCovers(zone: Zone, qname: string, rrs: seq<RR>, key: Key)
    requires HasSet(rrs, key) && SetOf(rrs, key) != [] && !(key.rtype == NS && qname != zone.name)
    ensures var sig := Signature(zone, qname, SetOf(rrs, key));
            && sig.Some?
            && if key.rtype == DNSKEY then sig.value == zone.dnsKeySig
               else Covers(zone, Kept(rrs, OfSet(key.name, key.rtype)), key.name, sig.value)
  {
    SetIsKept(rrs, key);
    NotUnsignable(rrs, key);
    hide Kept, HasSet;
    var records := SetOf(rrs, key);
    assert KeyOf(records[0]) == key by { assert records[0] in records; }
  }

  /** The new set is closed by its own signature. */
  lemma ClosedLast(zone: Zone, qname: string, rrs: seq<RR>, before: seq<Entry>, key: Key, i: nat)
    requires Loaded(zone) && HasSet(rrs, key)
    requires |before| <= i < |before + Block(zone, qname, rrs, key)|
    requires EndsSet(before + Block(zone, qname, rrs, key), i)
    ensures Closed(zone, qname, rrs, before + Block(zone, qname, rrs, key), i)
  {
    BlockShape(zone, qname, rrs, key);
    hide SetOf, HasSet, Signature, Block;
    var last, n, k := Block(zone, qname, rrs, key), |SetOf(rrs, key)|, i - |before|;
    if !(key.rtype == NS && qname != zone.name) {
      SignatureCovers(zone, qname, rrs, key);
    }
    var res := before + last;
    assert res[i] == last[k];
    assert k < n;
    if k + 1 < |last| {
      assert res[i + 1] == last[k + 1];
    }
    assert k == n - 1 && KeyOf(res[i].value) == key;
  }

  lemma AppendWellSigned(zone: Zone, qname: string, rrs: seq<RR>, before: seq<Entry>, key: Key)
    requires Loaded(zone) && HasSet(rrs, key) && WellSigned(zone, qname, rrs, before)
    ensures WellSigned(zone, qname, rrs, before + Block(zone, qname, rrs, key))
  {
    BlockShape(zone, qname, rrs, key);
    hide Block, SetOf, HasSet, Closed, SignaturesApart;
    var last := Block(zone, qname, rrs, key);
    AppendApart(before, last, |SetOf(rrs, key)|);
    assert Keyed(last[0], key);
    forall i | 0 <= i < |before + last| && EndsSet(before + last, i)
      ensures Closed(zone, qname, rrs, before + last, i)
    {
      if i < |before| {
        ClosedBefore(zone, qname, rrs, before, last, i);
      } else {
        ClosedLast(zone, qname, rrs, before, key, i);
      }
    }
  }

  lemma NothingToSign(zone: Zone, qname: string, rrs: seq<RR>)
    ensures WellSigned(zone, qname, rrs, [])
  {
  }

  lemma {:induction false} SigningSignsOnce(zone: Zone, qname: string, rrs: seq<RR>, order: seq<Key>)
    requires Loaded(zone) && (forall k | k in order :: HasSet(rrs, k))
    ensures WellSigned(zone, qname, rrs, Signed(zone, qname, rrs, order))
    decreases |order|
  {
    hide Block, HasSet, WellSigned;
    if order == [] {
      NothingToSign(zone, qname, rrs);
    } else {
      var n := |order| - 1;
      SigningSignsOnce(zone, qname, rrs, order[..n]);
      assert order[n] in order;
      AppendWellSigned(zone, qname, rrs, Signed(zone, qname, rrs, order[..n]), order[n]);
    }
  }

  predicate NoNil(res: seq<Entry>) {
    forall i | 0 <= i < |res| :: res[i].Some?
  }

  /** The signature of the set, where it needs one, can be made. */
  predicate Signable(zone: Zone, qname: string, rrs: seq<RR>, key: Key) {
    SetOf(rrs, key) != [] ==> Signature(zone, qname, SetOf(rrs, key)) != Some(None)
  }

  lemma BlockHasNoNil(zone: Zone, qname: string, rrs: seq<RR>, key: Key)
    ensures NoNil(Block(zone, qname, rrs, key)) <==> Signable(zone, qname, rrs, key)
  {
    hide SetOf;
    var records, b := SetOf(rrs, key), Block(zone, qname, rrs, key);
    if records != [] && Signature(zone, qname, records).Some? {
      assert b[|records|] == Signature(zone, qname, records).value;
    }
  }

  /** A section has a nil record exactly when some set that needs a signature cannot be signed. */
  lemma {:induction false} NilMeansUnsigned(zone: Zone, qname: string, rrs: seq<RR>, order: seq<Key>)
    ensures NoNil(Signed(zone, qname, rrs, order)) <==> forall k | k in order :: Signable(zone, qname, rrs, k)
    decreases |order|
  {
    hide Block, Signable;
    if order != [] {
      var n := |order| - 1;
      var before, last := Signed(zone, qname, rrs, order[..n]), Block(zone, qname, rrs, order[n]);
      NilMeansUnsigned(zone, qname, rrs, order[..n]);
      BlockHasNoNil(zone, qname, rrs, order[n]);
      NoNilConcat(before, last);
      assert order == order[..n] + [order[n]];
    }
  }

  lemma NoNilConcat(a: seq<Entry>, b: seq<Entry>)
    ensures NoNil(a + b) <==> NoNil(a) && NoNil(b)
  {
    if NoNil(a + b) {
      forall i | 0 <= i < |a| ensures a[i].Some? {
        assert a[i] == (a + b)[i];
      }
      forall i | 0 <= i < |b| ensures b[i].Some? {
        assert b[i] == (a + b)[|a| + i];
      }
    }
  }

  /** The signed section, for every order in which its sets may be visited. */
  lemma EveryOrderSigns(zone: Zone, qname: string, rrs: seq<RR>, order: seq<Key>)
    requires Loaded(zone) && Visits(order, rrs)
    ensures var res := Signed(zone, qname, rrs, order);
            && Contiguous(res) && WellSigned(zone, qname, rrs, res)
            && (NoNil(res) <==> forall k | HasSet(rrs, k) :: Signable(zone, qname, rrs, k))
            && forall x: RR | x.RR? ==> x.rtype != RRSIG ::
                 Count(Some(x), res) == if x.RR? && x.rtype == OPT then 0 else Count(x, rrs)
  {
    hide Signed, Contiguous, WellSigned, Count, HasSet, NoNil, Signable;
    SigningKeepsSetsTogether(zone, qname, rrs, order);
    SigningSignsOnce(zone, qname, rrs, order);
    NilMeansUnsigned(zone, qname, rrs, order);
    forall x: RR | x.RR? ==> x.rtype != RRSIG
      ensures Count(Some(x), Signed(zone, qname, rrs, order)) == if x.RR? && x.rtype == OPT then 0 else Count(x, rrs)
    {
      SigningConserves(zone, qname, rrs, order, x);
    }
  }
}
