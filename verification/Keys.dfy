/**
 The keys under which zone data lies in Redis (internal/storage/data_handler.go). A key is a list of
 parts joined by colons; reading the parts back shows that different keys never collide.
 */
module Keys {

  datatype Key =
    | ZonesKey
    | RevisionKey
    | LabelsKey(zone: string)
    | ConfigKey(zone: string)
    | RRSetKey(zone: string, location: string, rtype: string)
    | PubKey(zone: string, kind: string)
    | PrivKey(zone: string, kind: string)
    | ZoneWildcardKey(zone: string)

  const KEY_PREFIX := "z42:zones:"

  /** The key builders, spelled as the source spells them. */
  function Render(k: Key): string {
    match k
    case ZonesKey => "z42:zones"
    case RevisionKey => "z42:revision"
    case LabelsKey(zone) => KEY_PREFIX + zone + ":labels"
    case ConfigKey(zone) => KEY_PREFIX + zone + ":config"
    case RRSetKey(zone, location, rtype) => KEY_PREFIX + zone + ":labels:" + location + ":" + rtype
    case PubKey(zone, kind) => KEY_PREFIX + zone + ":" + kind + ":pub"
    case PrivKey(zone, kind) => KEY_PREFIX + zone + ":" + kind + ":priv"
    case ZoneWildcardKey(zone) => KEY_PREFIX + zone + ":*"
  }

  function Parts(k: Key): seq<string> {
    match k
    case ZonesKey => ["z42", "zones"]
    case RevisionKey => ["z42", "revision"]
    case LabelsKey(zone) => ["z42", "zones", zone, "labels"]
    case ConfigKey(zone) => ["z42", "zones", zone, "config"]
    case RRSetKey(zone, location, rtype) => ["z42", "zones", zone, "labels", location, rtype]
    case PubKey(zone, kind) => ["z42", "zones", zone, kind, "pub"]
    case PrivKey(zone, kind) => ["z42", "zones", zone, kind, "priv"]
    case ZoneWildcardKey(zone) => ["z42", "zones", zone, "*"]
  }

  /** No part of the key holds a colon. */
  predicate Valid(k: Key) {
    match k
    case LabelsKey(zone) => ':' !in zone
    case ConfigKey(zone) => ':' !in zone
    case RRSetKey(zone, location, rtype) => ':' !in zone && ':' !in location && ':' !in rtype
    case PubKey(zone, kind) => ':' !in zone && ':' !in kind
    case PrivKey(zone, kind) => ':' !in zone && ':' !in kind
    case ZoneWildcardKey(zone) => ':' !in zone
    case _ => true
  }

  function FirstColon(s: string): (i: nat)
    ensures i <= |s|
  {
    if s == "" || s[0] == ':' then 0 else 1 + FirstColon(s[1..])
  }

  /** strings.Split with a colon. */
  function Split(s: string): seq<string>
    decreases |s|
  {
    var i := FirstColon(s);
    if i == |s| then [s] else [s[..i]] + Split(s[i + 1..])
  }

  lemma {:induction false} FirstColonOf(head: string, rest: string)
    requires ':' !in head
    ensures FirstColon(head) == |head| && FirstColon(head + ":" + rest) == |head|
  {
    if head != "" {
      FirstColonOf(head[1..], rest);
      assert (head + ":" + rest)[1..] == head[1..] + ":" + rest;
    }
  }

  lemma SplitHead(head: string, rest: string)
    requires ':' !in head
    ensures Split(head) == [head] && Split(head + ":" + rest) == [head] + Split(rest)
  {
    FirstColonOf(head, rest);
    var s := head + ":" + rest;
    assert s[..|head|] == head && s[|head| + 1..] == rest;
  }

  lemma SplitUnder(zone: string, rest: string)
    requires ':' !in zone
    ensures Split(KEY_PREFIX + zone + ":" + rest) == ["z42", "zones", zone] + Split(rest)
  {
    hide Split, FirstColon;
    var tail := zone + ":" + rest;
    assert KEY_PREFIX + zone + ":" + rest == KEY_PREFIX + tail;
    assert KEY_PREFIX == "z42:" + "zones:";
    assert KEY_PREFIX + tail == "z42" + ":" + ("zones" + ":" + tail);
    SplitHead("z42", "zones" + ":" + tail);
    SplitHead("zones", tail);
    SplitHead(zone, rest);
  }

  lemma SplitPair(a: string, b: string)
    requires ':' !in a && ':' !in b
    ensures Split(a + ":" + b) == [a, b]
  {
    SplitHead(a, b);
    SplitHead(b, "");
  }

  lemma SplitZoneKey(zone: string, a: string)
    requires ':' !in zone && ':' !in a
    ensures Split(KEY_PREFIX + zone + (":" + a)) == ["z42", "zones", zone, a]
  {
    hide Split, FirstColon;
    SplitUnder(zone, a);
    SplitHead(a, "");
    assert KEY_PREFIX + zone + (":" + a) == KEY_PREFIX + zone + ":" + a;
  }

  lemma SplitCryptoKey(zone: string, kind: string, a: string)
    requires ':' !in zone && ':' !in kind && ':' !in a
    ensures Split(KEY_PREFIX + zone + ":" + kind + (":" + a)) == ["z42", "zones", zone, kind, a]
  {
    hide Split, FirstColon;
    SplitUnder(zone, kind + ":" + a);
    SplitPair(kind, a);
    assert KEY_PREFIX + zone + ":" + kind + (":" + a) == KEY_PREFIX + zone + ":" + (kind + ":" + a);
  }

  lemma Regroup(front: string, location: string, rtype: string)
    ensures front + ":labels:" + location + ":" + rtype == front + ":" + ("labels" + ":" + (location + ":" + rtype))
  {
    assert ":labels:" == ":" + ("labels" + ":");
    assert front + ":labels:" + location + ":" + rtype == front + (":labels:" + (location + ":" + rtype));
  }

  lemma SplitRRSetKey(zone: string, location: string, rtype: string)
    requires ':' !in zone && ':' !in location && ':' !in rtype
    ensures Split(KEY_PREFIX + zone + ":labels:" + location + ":" + rtype)
            == ["z42", "zones", zone, "labels", location, rtype]
  {
    hide Split, FirstColon;
    var tail := location + ":" + rtype;
    SplitUnder(zone, "labels" + ":" + tail);
    SplitHead("labels", tail);
    SplitPair(location, rtype);
    Regroup(KEY_PREFIX + zone, location, rtype);
  }

  /** Reading a key back gives the parts it was built from. */
  lemma SplitOfRender(k: Key)
    requires Valid(k)
    ensures Split(Render(k)) == Parts(k)
  {
    hide Split;
    match k
    case ZonesKey => SplitPair("z42", "zones"); assert Render(k) == "z42" + ":" + "zones";
    case RevisionKey => SplitPair("z42", "revision"); assert Render(k) == "z42" + ":" + "revision";
    case LabelsKey(zone) => SplitZoneKey(zone, "labels"); assert ":" + "labels" == ":labels";
    case ConfigKey(zone) => SplitZoneKey(zone, "config"); assert ":" + "config" == ":config";
    case ZoneWildcardKey(zone) => SplitZoneKey(zone, "*"); assert ":" + "*" == ":*";
    case PubKey(zone, kind) => SplitCryptoKey(zone, kind, "pub"); assert ":" + "pub" == ":pub";
    case PrivKey(zone, kind) => SplitCryptoKey(zone, kind, "priv"); assert ":" + "priv" == ":priv";
    case RRSetKey(zone, location, rtype) => SplitRRSetKey(zone, location, rtype);
  }

  /** Different keys are different strings: the builders are injective and mutually disjoint. */
  lemma RenderInjective(a: Key, b: Key)
    requires Valid(a) && Valid(b) && Render(a) == Render(b)
    ensures a == b
  {
    SplitOfRender(a);
    SplitOfRender(b);
    var p, q := Parts(a), Parts(b);
    assert |p| == |q| && forall i | 0 <= i < |p| :: p[i] == q[i];
  }

  function TrimPrefix(s: string, prefix: string): string {
    if prefix <= s then s[|prefix|..] else s
  }

  function SplitDbKey(key: string): seq<string> {
    Split(TrimPrefix(key, KEY_PREFIX))
  }

  predicate IsRRSetEntry(parts: seq<string>) {
    |parts| == 4 && parts[1] == "labels"
  }

  lemma SplitBelowPrefix(rest: string)
    ensures Split(KEY_PREFIX + rest) == ["z42", "zones"] + Split(rest)
    ensures TrimPrefix(KEY_PREFIX + rest, KEY_PREFIX) == rest
  {
    hide Split, FirstColon;
    assert KEY_PREFIX == "z42:" + "zones:";
    assert KEY_PREFIX + rest == "z42" + ":" + ("zones" + ":" + rest);
    SplitHead("z42", "zones" + ":" + rest);
    SplitHead("zones", rest);
  }

  lemma EntryOf(k: Key, rest: string)
    requires Valid(k) && Render(k) == KEY_PREFIX + rest
    ensures SplitDbKey(Render(k)) == Parts(k)[2..]
  {
    hide Split, Render;
    SplitOfRender(k);
    SplitBelowPrefix(rest);
    assert (["z42", "zones"] + Split(rest))[2..] == Split(rest);
  }

  /** A change notification drops a cached record set exactly when the changed key is one. */
  lemma RRSetEntriesAreRRSets(k: Key)
    requires Valid(k)
    ensures KEY_PREFIX <= Render(k) ==> (IsRRSetEntry(SplitDbKey(Render(k))) <==> k.RRSetKey?)
  {
    hide Split;
    if KEY_PREFIX <= Render(k) {
      EntryOf(k, Render(k)[|KEY_PREFIX|..]);
    }
  }

  /** The keys of one zone, letter by letter. */
  lemma KeySpellings()
    ensures Render(ZonesKey) == "z42:zones" && Render(RevisionKey) == "z42:revision"
    ensures Render(LabelsKey("a.")) == "z42:zones:a.:labels" && Render(ConfigKey("a.")) == "z42:zones:a.:config"
    ensures Render(RRSetKey("a.", "www", "mx")) == "z42:zones:a.:labels:www:mx"
    ensures Render(PubKey("a.", "ksk")) == "z42:zones:a.:ksk:pub"
    ensures Render(PrivKey("a.", "ksk")) == "z42:zones:a.:ksk:priv"
    ensures Render(ZoneWildcardKey("a.")) == "z42:zones:a.:*"
  {
  }
}
