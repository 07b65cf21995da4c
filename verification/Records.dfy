/**
 Resource records and record sets, as far as the resolver looks at them. The rdata of a record is
 one string; for the types that name a host it is that host.
 */
module Records {
  import opened Listing

  datatype RType =
    | A | AAAA | CNAME | TXT | NS | MX | SRV | CAA | PTR | TLSA
    | SOA | DNSKEY | DS | ANAME | RRSIG | NSEC | OPT | OTHER

  datatype RR =
    | RR(name: string, rtype: RType, ttl: nat, data: string)
    | Nsec(name: string, ttl: nat, bitmap: seq<RType>)

  datatype RRSet = RRSet(ttl: nat, data: seq<string>)

  /** One read of the record store: it can fail; an absent key reads as an empty set. */
  datatype Lookup = Failed | Found(rrset: RRSet)

  function Fqdn(host: string): string {
    if host != "" && host[|host| - 1] == '.' then host else host + "."
  }

  /** The single host of a CNAME or ANAME set, "" when it is empty. */
  function Host(rrset: RRSet): string {
    if rrset.data == [] then "" else rrset.data[0]
  }

  function Render(rtype: RType, data: string): string {
    if rtype in {CNAME, NS, PTR} then Fqdn(data) else data
  }

  /** The records of a set under an owner name; blank entries are skipped. */
  function Values(name: string, rtype: RType, ttl: nat, data: seq<string>): seq<RR> {
    if data == [] then []
    else if data[0] == "" then Values(name, rtype, ttl, data[1..])
    else [RR(name, rtype, ttl, Render(rtype, data[0]))] + Values(name, rtype, ttl, data[1..])
  }

  function Reowned(rrs: seq<RR>, name: string): seq<RR> {
    if rrs == [] then [] else [rrs[0].(name := name)] + Reowned(rrs[1..], name)
  }

  lemma {:induction false} ReownedValues(owner: string, name: string, rtype: RType, ttl: nat, data: seq<string>)
    ensures Reowned(Values(owner, rtype, ttl, data), name) == Values(name, rtype, ttl, data)
    ensures forall rr | rr in Values(owner, rtype, ttl, data) :: rr.RR? && rr.rtype == rtype && rr.name == owner
  {
    if data != [] {
      ReownedValues(owner, name, rtype, ttl, data[1..]);
    }
  }

  // ---------------------------------------------------------------- what the records of a set are

  function NotBlank(): string -> bool {
    (value: string) => value != ""
  }

  /** The name with a final dot. */
  predicate Qualifies(host: string, name: string) {
    if host != "" && host[|host| - 1] == '.' then name == host else name == host + "."
  }

  /** One stored value as a record: types that name a host have it qualified, the others as it is. */
  predicate Shows(rr: RR, name: string, rtype: RType, ttl: nat, value: string) {
    && rr.RR? && rr.name == name && rr.rtype == rtype && rr.ttl == ttl
    && if rtype == CNAME || rtype == NS || rtype == PTR then Qualifies(value, rr.data) else rr.data == value
  }

  /** One record for every value that is not blank, in the order of the values, with owner, type and ttl. */
  predicate Lists(rrs: seq<RR>, name: string, rtype: RType, ttl: nat, data: seq<string>) {
    var values := Kept(data, NotBlank());
    |rrs| == |values| && forall k | 0 <= k < |rrs| :: Shows(rrs[k], name, rtype, ttl, values[k])
  }

  lemma ListsInFront(rr: RR, rrs: seq<RR>, name: string, rtype: RType, ttl: nat, value: string, data: seq<string>)
    requires Lists(rrs, name, rtype, ttl, data)
    ensures value == "" ==> Lists(rrs, name, rtype, ttl, [value] + data)
    ensures value != "" && Shows(rr, name, rtype, ttl, value) ==> Lists([rr] + rrs, name, rtype, ttl, [value] + data)
  {
    hide Kept, Shows;
    KeptInFront(value, data, NotBlank());
    assert [] + Kept(data, NotBlank()) == Kept(data, NotBlank());
  }

  lemma NothingListed(name: string, rtype: RType, ttl: nat)
    ensures Lists([], name, rtype, ttl, [])
  {
  }

  lemma {:induction false} ValuesListed(name: string, rtype: RType, ttl: nat, data: seq<string>)
    ensures Lists(Values(name, rtype, ttl, data), name, rtype, ttl, data)
  {
    hide Lists;
    if data == [] {
      NothingListed(name, rtype, ttl);
    } else {
      var rr := RR(name, rtype, ttl, Render(rtype, data[0]));
      ValuesListed(name, rtype, ttl, data[1..]);
      ListsInFront(rr, Values(name, rtype, ttl, data[1..]), name, rtype, ttl, data[0], data[1..]);
      assert data == [data[0]] + data[1..];
    }
  }

  lemma {:induction false} ReownedAt(rrs: seq<RR>, name: string)
    ensures |Reowned(rrs, name)| == |rrs|
    ensures forall k | 0 <= k < |rrs| :: Reowned(rrs, name)[k] == rrs[k].(name := name)
  {
    if rrs != [] {
      ReownedAt(rrs[1..], name);
    }
  }

  /** Listing is kept by a change of owner. */
  lemma ReownedListed(rrs: seq<RR>, owner: string, name: string, rtype: RType, ttl: nat, data: seq<string>)
    requires Lists(rrs, owner, rtype, ttl, data)
    ensures Lists(Reowned(rrs, name), name, rtype, ttl, data)
  {
    hide Reowned, Kept;
    ReownedAt(rrs, name);
  }

  /** A listing is determined by what it lists. */
  lemma ListsOnce(a: seq<RR>, b: seq<RR>, name: string, rtype: RType, ttl: nat, data: seq<string>)
    requires Lists(a, name, rtype, ttl, data) && Lists(b, name, rtype, ttl, data)
    ensures a == b
  {
    hide Kept;
    forall k | 0 <= k < |a| ensures a[k] == b[k] {
      var value := Kept(data, NotBlank())[k];
      assert Shows(a[k], name, rtype, ttl, value) && Shows(b[k], name, rtype, ttl, value);
    }
  }
}
