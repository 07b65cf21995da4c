/**
 The zone tables of the API database (internal/api/database/db.go, internal.go) and the events their
 mutations leave behind. Replaying the events into Redis, as ApplyEvent of
 internal/storage/data_handler.go does, keeps Redis in agreement with the tables.
 */
module Database {
  import opened Wrappers
  import opened Keys
  import opened Redis
  import opened Replication

  datatype ZoneRow = ZoneRow(enabled: bool, config: string)

  datatype Record = Record(value: string, enabled: bool)

  /** The key-signing and the zone-signing key of a zone. */
  datatype Crypto = Crypto(kskPublic: string, kskPrivate: string, zskPublic: string, zskPrivate: string)

  /** Rows by name; a location belongs to a zone and a record to a location. */
  datatype Tables = Tables(
    zones: map<string, ZoneRow>,
    keys: map<string, Crypto>,
    locations: map<(string, string), bool>,
    records: map<(string, string, string), Record>)

  const EMPTY := Tables(map[], map[], map[], map[])

  datatype Op =
    | AddZone(zone: string, row: ZoneRow, ns: string, crypto: Crypto)
    | UpdateZone(zone: string, row: ZoneRow)
    | AddLocation(zone: string, location: string, enabled: bool)
    | UpdateLocation(zone: string, location: string, enabled: bool)
    | AddRecord(zone: string, location: string, rtype: string, record: Record)
    | UpdateRecord(zone: string, location: string, rtype: string, record: Record)
    | DeleteRecord(zone: string, location: string, rtype: string)

  /** Names are free of colons, as the key builders need. */
  predicate Named(op: Op) {
    && ':' !in op.zone
    && (!op.AddZone? && !op.UpdateZone? ==> ':' !in op.location)
    && (op.AddRecord? || op.UpdateRecord? || op.DeleteRecord? ==> ':' !in op.rtype)
  }

  /** The rows the operation refers to exist, and the unique indexes hold. */
  predicate Accepts(t: Tables, op: Op) {
    match op
    case AddZone(z, _, _, _) => z !in t.zones
    case UpdateZone(z, _) => z in t.zones
    case AddLocation(z, l, _) => z in t.zones && (z, l) !in t.locations
    case UpdateLocation(z, l, _) => z in t.zones && (z, l) in t.locations
    case AddRecord(z, l, rt, _) => z in t.zones && (z, l) in t.locations && (z, l, rt) !in t.records
    case UpdateRecord(z, l, rt, _) => z in t.zones && (z, l) in t.locations && (z, l, rt) in t.records
    case DeleteRecord(z, l, rt) => z in t.zones && (z, l) in t.locations && (z, l, rt) in t.records
  }

  function Mutated(t: Tables, op: Op): Tables {
    match op
    case AddZone(z, row, ns, crypto) =>
      Tables(t.zones[z := row], t.keys[z := crypto], t.locations[(z, "@") := true],
             t.records[(z, "@", "ns") := Record(ns, true)])
    case UpdateZone(z, row) => t.(zones := t.zones[z := row])
    case AddLocation(z, l, enabled) => t.(locations := t.locations[(z, l) := enabled])
    case UpdateLocation(z, l, enabled) => t.(locations := t.locations[(z, l) := enabled])
    case AddRecord(z, l, rt, record) => t.(records := t.records[(z, l, rt) := record])
    case UpdateRecord(z, l, rt, record) => t.(records := t.records[(z, l, rt) := record])
    case DeleteRecord(z, l, rt) => t.(records := t.records - {(z, l, rt)})
  }

  /** Every zone has its keys, a location's zone and a record's location exist. */
  predicate Referential(t: Tables) {
    && t.keys.Keys == t.zones.Keys
    && (forall zl | zl in t.locations :: zl.0 in t.zones)
    && (forall zlt | zlt in t.records :: (zlt.0, zlt.1) in t.locations)
  }

  lemma MutatedReferential(t: Tables, op: Op)
    requires Referential(t) && Accepts(t, op)
    ensures Referential(Mutated(t, op))
  {
  }

  /** Which operations are accepted, for tables that refer to one another properly. */
  lemma AcceptsExactly(t: Tables, op: Op)
    requires Referential(t)
    ensures Accepts(t, op) <==>
            match op
            case AddZone(z, _, _, _) => z !in t.zones
            case UpdateZone(z, _) => z in t.zones
            case AddLocation(z, l, _) => z in t.zones && (z, l) !in t.locations
            case UpdateLocation(z, l, _) => (z, l) in t.locations
            case AddRecord(z, l, rt, _) => (z, l) in t.locations && (z, l, rt) !in t.records
            case UpdateRecord(z, l, rt, _) => (z, l, rt) in t.records
            case DeleteRecord(z, l, rt) => (z, l, rt) in t.records
  {
  }

  /** The same row in both tables, or none in either. */
  predicate SameRow<K, V(==)>(a: map<K, V>, b: map<K, V>, k: K) {
    (k in a <==> k in b) && (k in a && k in b ==> a[k] == b[k])
  }

  predicate HasRow<K, V(==)>(a: map<K, V>, k: K, v: V) {
    k in a && a[k] == v
  }

  /** Only the rows that an operation names change. */
  lemma OtherRowsStay(t: Tables, op: Op, z: string, l: string, rt: string)
    ensures var t' := Mutated(t, op);
            && (z != op.zone || !(op.AddZone? || op.UpdateZone?) ==> SameRow(t.zones, t'.zones, z))
            && (z != op.zone || !op.AddZone? ==> SameRow(t.keys, t'.keys, z))
            && (z != op.zone || op.UpdateZone? || op.AddRecord? || op.UpdateRecord? || op.DeleteRecord?
                || (op.AddZone? && l != "@") || ((op.AddLocation? || op.UpdateLocation?) && l != op.location)
                ==> SameRow(t.locations, t'.locations, (z, l)))
            && (z != op.zone || op.UpdateZone? || op.AddLocation? || op.UpdateLocation?
                || (op.AddZone? && (l != "@" || rt != "ns"))
                || ((op.AddRecord? || op.UpdateRecord? || op.DeleteRecord?) && (l != op.location || rt != op.rtype))
                ==> SameRow(t.records, t'.records, (z, l, rt)))
  {
  }

  /** And the rows that it names become what it says. */
  lemma NamedRowsChange(t: Tables, op: Op)
    ensures var t' := Mutated(t, op);
            match op
            case AddZone(z, row, ns, crypto) =>
              && HasRow(t'.zones, z, row) && HasRow(t'.keys, z, crypto)
              && HasRow(t'.locations, (z, "@"), true) && HasRow(t'.records, (z, "@", "ns"), Record(ns, true))
            case UpdateZone(z, row) => HasRow(t'.zones, z, row)
            case AddLocation(z, l, enabled) => HasRow(t'.locations, (z, l), enabled)
            case UpdateLocation(z, l, enabled) => HasRow(t'.locations, (z, l), enabled)
            case AddRecord(z, l, rt, record) => HasRow(t'.records, (z, l, rt), record)
            case UpdateRecord(z, l, rt, record) => HasRow(t'.records, (z, l, rt), record)
            case DeleteRecord(z, l, rt) => (z, l, rt) !in t'.records
  {
  }

  /** Deleting a record that has just been added is accepted and undoes it. */
  lemma DeleteUndoesAdd(t: Tables, z: string, l: string, rt: string, record: Record)
    requires Accepts(t, AddRecord(z, l, rt, record))
    ensures var t' := Mutated(t, AddRecord(z, l, rt, record));
            Accepts(t', DeleteRecord(z, l, rt)) && Mutated(t', DeleteRecord(z, l, rt)) == t
  {
  }

  /** How a transaction ends: committed, rolled back, or committed without the caller hearing of it. */
  datatype Outcome = Committed | RolledBack | Unheard

  class DataBase {
    var tables: Tables
    var events: seq<(int, Op)>

    constructor ()
      ensures tables == EMPTY && events == [] && Valid()
    {
      tables, events := EMPTY, [];
    }

    /** The event log explains the tables. */
    predicate Valid()
      reads this
    {
      History(events) && tables == TablesAfter(events)
    }

    /** Rows and event in one transaction: an operation that is refused, unauthorised or rolled back leaves no trace. */
    method Execute(op: Op, authorized: bool, revision: int, outcome: Outcome) returns (done: bool)
      requires Valid()
      modifies this
      ensures Valid()
      ensures var taken := Accepts(old(tables), op) && (authorized || op.AddZone?) && outcome != RolledBack;
              && done == (taken && outcome == Committed)
              && tables == (if taken then Mutated(old(tables), op) else old(tables))
              && events == if taken then old(events) + [(revision, op)] else old(events)
    {
      if !Accepts(tables, op) || (!authorized && !op.AddZone?) {
        return false;
      }
      ghost var before := events;
      var rows, log := Mutated(tables, op), events + [(revision, op)];
      if outcome == RolledBack {
        return false;
      }
      HistoryNext(before, revision, op);
      tables, events := rows, log;
      done := outcome == Committed;
    }
  }

  // ---------------------------------------------------------------- what the events do to Redis

  datatype KeyAction = KeyAction(key: Key, action: Action)

  function KeyActions(z: string, crypto: Crypto): seq<KeyAction> {
    [KeyAction(PubKey(z, "ksk"), Set(Text(crypto.kskPublic))),
     KeyAction(PrivKey(z, "ksk"), Set(Text(crypto.kskPrivate))),
     KeyAction(PubKey(z, "zsk"), Set(Text(crypto.zskPublic))),
     KeyAction(PrivKey(z, "zsk"), Set(Text(crypto.zskPrivate)))]
  }

  /** The commands ApplyEvent queues for an event, revision aside. */
  function Actions(op: Op): seq<KeyAction> {
    match op
    case AddZone(z, row, ns, crypto) =>
      (if row.enabled then [KeyAction(ZonesKey, SAdd(z))] else [])
      + ([KeyAction(ZoneWildcardKey(z), Del), KeyAction(LabelsKey(z), SAdd("@"))]
      + ([KeyAction(ConfigKey(z), Set(Text(row.config))), KeyAction(RRSetKey(z, "@", "ns"), Set(Text(ns)))]
      + KeyActions(z, crypto)))
    case UpdateZone(z, row) =>
      [KeyAction(ZonesKey, if row.enabled then SAdd(z) else SRem(z))]
      + [KeyAction(LabelsKey(z), SAdd("@")), KeyAction(ConfigKey(z), Set(Text(row.config)))]
    case AddLocation(z, l, enabled) =>
      if enabled then [KeyAction(LabelsKey(z), SAdd(l))] else []
    case UpdateLocation(z, l, enabled) =>
      [KeyAction(LabelsKey(z), if enabled then SAdd(l) else SRem(l))]
    case AddRecord(z, l, rt, record) =>
      if record.enabled then [KeyAction(RRSetKey(z, l, rt), Set(Text(record.value)))] else []
    case UpdateRecord(z, l, rt, record) =>
      [KeyAction(RRSetKey(z, l, rt), if record.enabled then Set(Text(record.value)) else Del)]
    case DeleteRecord(z, l, rt) => [KeyAction(RRSetKey(z, l, rt), Del)]
  }

  function Rendered(actions: seq<KeyAction>): seq<Command> {
    if actions == [] then []
    else [Command(Render(actions[0].key), actions[0].action)] + Rendered(actions[1..])
  }

  function View(st: Store, k: Key): Option<Value> {
    Get(st, Render(k))
  }

  function One(a: KeyAction, k: Key, v: Option<Value>): Option<Value> {
    if a.key == k then Act(v, a.action) else v
  }

  /** What a list of actions makes of one key. */
  function Effect(actions: seq<KeyAction>, k: Key, v: Option<Value>): Option<Value>
    decreases |actions|
  {
    if actions == [] then v else Effect(actions[1..], k, One(actions[0], k, v))
  }

  predicate AllValid(actions: seq<KeyAction>) {
    forall a | a in actions :: Valid(a.key)
  }

  /** Executing rendered commands acts on every key separately: no two keys share a string. */
  lemma {:induction false} ViewAfter(st: Store, actions: seq<KeyAction>, k: Key)
    requires AllValid(actions) && Valid(k)
    ensures View(ExecAll(st, Rendered(actions)), k) == Effect(actions, k, View(st, k))
    decreases |actions|
  {
    hide Render, Valid, View, Exec, One;
    if actions != [] {
      var a := actions[0];
      assert a in actions;
      ViewAfterOne(st, a, k);
      ViewAfter(Exec(st, Command(Render(a.key), a.action)), actions[1..], k);
      assert Rendered(actions)[1..] == Rendered(actions[1..]);
    }
  }

  lemma ViewAfterOne(st: Store, a: KeyAction, k: Key)
    requires Valid(a.key) && Valid(k)
    ensures View(Exec(st, Command(Render(a.key), a.action)), k) == One(a, k, View(st, k))
  {
    hide Render, Valid, Act;
    if a.key != k && Render(a.key) == Render(k) {
      RenderInjective(a.key, k);
    }
  }

  lemma {:induction false} EffectConcat(a: seq<KeyAction>, b: seq<KeyAction>, k: Key, v: Option<Value>)
    ensures Effect(a + b, k, v) == Effect(b, k, Effect(a, k, v))
    decreases |a|
  {
    if a == [] {
      assert a + b == b;
    } else {
      EffectConcat(a[1..], b, k, One(a[0], k, v));
      assert (a + b)[1..] == a[1..] + b;
    }
  }

  lemma {:induction false} NoEffect(actions: seq<KeyAction>, k: Key, v: Option<Value>)
    requires forall a | a in actions :: a.key != k
    ensures Effect(actions, k, v) == v
    decreases |actions|
  {
    if actions != [] {
      assert actions[0] in actions;
      NoEffect(actions[1..], k, v);
    }
  }

  lemma EffectOfTwo(a: KeyAction, b: KeyAction, k: Key, v: Option<Value>)
    ensures Effect([a, b], k, v) == One(b, k, One(a, k, v))
    ensures Effect([a], k, v) == One(a, k, v)
  {
    assert [a, b][1..] == [b] && [b][1..] == [] && [a][1..] == [];
    assert Effect([b], k, One(a, k, v)) == One(b, k, One(a, k, v));
  }

  /** Keys the resolver reads zone data and signing keys from. */
  predicate Served(k: Key) {
    k.ZonesKey? || k.LabelsKey? || k.ConfigKey? || k.RRSetKey? || k.PubKey? || k.PrivKey?
  }

  /** The effect of a whole event on one served key. */
  function OpEffect(op: Op, k: Key, v: Option<Value>): Option<Value> {
    match op
    case AddZone(z, row, ns, crypto) =>
      if k == ZonesKey && row.enabled then Act(v, SAdd(z))
      else if k == LabelsKey(z) then Act(v, SAdd("@"))
      else if k == ConfigKey(z) then Some(Text(row.config))
      else if k == RRSetKey(z, "@", "ns") then Some(Text(ns))
      else if k == PubKey(z, "ksk") then Some(Text(crypto.kskPublic))
      else if k == PrivKey(z, "ksk") then Some(Text(crypto.kskPrivate))
      else if k == PubKey(z, "zsk") then Some(Text(crypto.zskPublic))
      else if k == PrivKey(z, "zsk") then Some(Text(crypto.zskPrivate))
      else v
    case UpdateZone(z, row) =>
      if k == ZonesKey then Act(v, if row.enabled then SAdd(z) else SRem(z))
      else if k == LabelsKey(z) then Act(v, SAdd("@"))
      else if k == ConfigKey(z) then Some(Text(row.config))
      else v
    case AddLocation(z, l, enabled) => if k == LabelsKey(z) && enabled then Act(v, SAdd(l)) else v
    case UpdateLocation(z, l, enabled) =>
      if k == LabelsKey(z) then Act(v, if enabled then SAdd(l) else SRem(l)) else v
    case AddRecord(z, l, rt, record) =>
      if k == RRSetKey(z, l, rt) && record.enabled then Some(Text(record.value)) else v
    case UpdateRecord(z, l, rt, record) =>
      if k == RRSetKey(z, l, rt) then (if record.enabled then Some(Text(record.value)) else None) else v
    case DeleteRecord(z, l, rt) => if k == RRSetKey(z, l, rt) then None else v
  }

  lemma EffectOfKeys(op: Op, k: Key, v: Option<Value>)
    requires op.AddZone?
    ensures Effect(KeyActions(op.zone, op.crypto), k, v) ==
            if k == PubKey(op.zone, "ksk") then Some(Text(op.crypto.kskPublic))
            else if k == PrivKey(op.zone, "ksk") then Some(Text(op.crypto.kskPrivate))
            else if k == PubKey(op.zone, "zsk") then Some(Text(op.crypto.zskPublic))
            else if k == PrivKey(op.zone, "zsk") then Some(Text(op.crypto.zskPrivate))
            else v
  {
    hide Effect;
    var acts := KeyActions(op.zone, op.crypto);
    assert acts == [acts[0], acts[1]] + [acts[2], acts[3]];
    EffectConcat([acts[0], acts[1]], [acts[2], acts[3]], k, v);
    EffectOfTwo(acts[0], acts[1], k, v);
    EffectOfTwo(acts[2], acts[3], k, One(acts[1], k, One(acts[0], k, v)));
  }

  lemma EffectOfAddZone(op: Op, k: Key, v: Option<Value>)
    requires op.AddZone? && Served(k)
    ensures Effect(Actions(op), k, v) == OpEffect(op, k, v)
  {
    hide Effect, KeyActions;
    var AddZone(z, row, ns, crypto) := op;
    var a := if row.enabled then [KeyAction(ZonesKey, SAdd(z))] else [];
    var b1, b2 := KeyAction(ZoneWildcardKey(z), Del), KeyAction(LabelsKey(z), SAdd("@"));
    var c1 := KeyAction(ConfigKey(z), Set(Text(row.config)));
    var c2 := KeyAction(RRSetKey(z, "@", "ns"), Set(Text(ns)));
    var d := KeyActions(z, crypto);
    var va := Effect(a, k, v);
    var vb := Effect([b1, b2], k, va);
    EffectConcat(a, [b1, b2] + ([c1, c2] + d), k, v);
    EffectConcat([b1, b2], [c1, c2] + d, k, va);
    EffectConcat([c1, c2], d, k, vb);
    EffectOfKeys(op, k, Effect([c1, c2], k, vb));
    EffectOfTwo(b1, b2, k, va);
    EffectOfTwo(c1, c2, k, vb);
    if row.enabled {
      EffectOfTwo(a[0], b1, k, v);
    } else {
      NoEffect(a, k, v);
    }
  }

  lemma EffectOfOp(op: Op, k: Key, v: Option<Value>)
    requires Served(k)
    ensures Effect(Actions(op), k, v) == OpEffect(op, k, v)
  {
    if op.AddZone? {
      EffectOfAddZone(op, k, v);
    } else if op.UpdateZone? {
      var acts := Actions(op);
      EffectConcat([acts[0]], [acts[1], acts[2]], k, v);
      EffectOfTwo(acts[0], acts[1], k, v);
      EffectOfTwo(acts[1], acts[2], k, One(acts[0], k, v));
      assert acts == [acts[0]] + [acts[1], acts[2]];
    } else if |Actions(op)| == 1 {
      EffectOfTwo(Actions(op)[0], Actions(op)[0], k, v);
    }
  }

  // ---------------------------------------------------------------- agreement

  /** What Redis holds under a served key is what the tables say. */
  ghost predicate AgreesOn(t: Tables, k: Key, v: Option<Value>) {
    match k
    case RRSetKey(z, l, rt) =>
      v == if (z, l, rt) in t.records && t.records[(z, l, rt)].enabled
           then Some(Text(t.records[(z, l, rt)].value)) else None
    case ConfigKey(z) => v == if z in t.zones then Some(Text(t.zones[z].config)) else None
    case ZonesKey =>
      SetLike(v) && forall z :: z in MembersOf(v) <==> z in t.zones && t.zones[z].enabled
    case LabelsKey(z) =>
      SetLike(v) && forall l | l != "@" :: l in MembersOf(v) <==> (z, l) in t.locations && t.locations[(z, l)]
    case PubKey(z, kind) =>
      v == if z in t.keys && kind == "ksk" then Some(Text(t.keys[z].kskPublic))
           else if z in t.keys && kind == "zsk" then Some(Text(t.keys[z].zskPublic)) else None
    case PrivKey(z, kind) =>
      v == if z in t.keys && kind == "ksk" then Some(Text(t.keys[z].kskPrivate))
           else if z in t.keys && kind == "zsk" then Some(Text(t.keys[z].zskPrivate)) else None
    case _ => true
  }

  ghost predicate Agrees(t: Tables, st: Store) {
    forall k | Valid(k) && Served(k) :: AgreesOn(t, k, View(st, k))
  }

  lemma AddZoneAgrees(t: Tables, op: Op, k: Key, v: Option<Value>)
    requires op.AddZone? && !k.PubKey? && !k.PrivKey?
    requires Referential(t) && Accepts(t, op) && Served(k) && AgreesOn(t, k, v)
    ensures AgreesOn(Mutated(t, op), k, OpEffect(op, k, v))
  {
  }

  lemma KeysAgree(t: Tables, op: Op, k: Key, v: Option<Value>)
    requires (op.AddZone? || op.UpdateZone?) && (k.PubKey? || k.PrivKey?)
    requires Referential(t) && Accepts(t, op) && AgreesOn(t, k, v)
    ensures AgreesOn(Mutated(t, op), k, OpEffect(op, k, v))
  {
  }

  lemma UpdateZoneAgrees(t: Tables, op: Op, k: Key, v: Option<Value>)
    requires op.UpdateZone? && !k.PubKey? && !k.PrivKey?
    requires Referential(t) && Accepts(t, op) && Served(k) && AgreesOn(t, k, v)
    ensures AgreesOn(Mutated(t, op), k, OpEffect(op, k, v))
  {
  }

  lemma LocationOpAgrees(t: Tables, op: Op, k: Key, v: Option<Value>)
    requires op.AddLocation? || op.UpdateLocation?
    requires Referential(t) && Accepts(t, op) && Served(k) && AgreesOn(t, k, v)
    ensures AgreesOn(Mutated(t, op), k, OpEffect(op, k, v))
  {
  }

  lemma RecordOpAgrees(t: Tables, op: Op, k: Key, v: Option<Value>)
    requires op.AddRecord? || op.UpdateRecord? || op.DeleteRecord?
    requires Referential(t) && Accepts(t, op) && Served(k) && AgreesOn(t, k, v)
    ensures AgreesOn(Mutated(t, op), k, OpEffect(op, k, v))
  {
  }

  /** One operation moves tables and served key in step. */
  lemma OpKeepsAgreement(t: Tables, op: Op, k: Key, v: Option<Value>)
    requires Referential(t) && Accepts(t, op) && Served(k) && AgreesOn(t, k, v)
    ensures AgreesOn(Mutated(t, op), k, OpEffect(op, k, v))
  {
    hide *;
    if (op.AddZone? || op.UpdateZone?) && (k.PubKey? || k.PrivKey?) {
      KeysAgree(t, op, k, v);
    } else if op.AddZone? {
      AddZoneAgrees(t, op, k, v);
    } else if op.UpdateZone? {
      UpdateZoneAgrees(t, op, k, v);
    } else if op.AddLocation? || op.UpdateLocation? {
      LocationOpAgrees(t, op, k, v);
    } else {
      RecordOpAgrees(t, op, k, v);
    }
  }

  lemma AllValidConcat(a: seq<KeyAction>, b: seq<KeyAction>)
    requires AllValid(a) && AllValid(b)
    ensures AllValid(a + b)
  {
  }

  lemma AllValidPair(a: KeyAction, b: KeyAction)
    requires Valid(a.key) && Valid(b.key)
    ensures AllValid([a, b]) && AllValid([a])
  {
  }

  lemma AddZoneValid(op: Op)
    requires op.AddZone? && Named(op)
    ensures AllValid(Actions(op))
  {
    var AddZone(z, row, ns, crypto) := op;
    var a := if row.enabled then [KeyAction(ZonesKey, SAdd(z))] else [];
    var b1, b2 := KeyAction(ZoneWildcardKey(z), Del), KeyAction(LabelsKey(z), SAdd("@"));
    var c1 := KeyAction(ConfigKey(z), Set(Text(row.config)));
    var c2 := KeyAction(RRSetKey(z, "@", "ns"), Set(Text(ns)));
    KeyActionsValid(z, crypto);
    assert Valid(b1.key) && Valid(b2.key) && Valid(c1.key) && Valid(c2.key) && AllValid(a);
    hide AllValid, Valid, KeyActions;
    AllValidPair(b1, b2);
    AllValidPair(c1, c2);
    AllValidConcat([c1, c2], KeyActions(z, crypto));
    AllValidConcat([b1, b2], [c1, c2] + KeyActions(z, crypto));
    AllValidConcat(a, [b1, b2] + ([c1, c2] + KeyActions(z, crypto)));
  }

  lemma KeyActionsValid(z: string, crypto: Crypto)
    requires ':' !in z
    ensures AllValid(KeyActions(z, crypto))
  {
    var acts := KeyActions(z, crypto);
    assert Valid(acts[0].key) && Valid(acts[1].key) && Valid(acts[2].key) && Valid(acts[3].key);
    hide Valid;
    AllValidPair(acts[0], acts[1]);
    AllValidPair(acts[2], acts[3]);
    AllValidConcat([acts[0], acts[1]], [acts[2], acts[3]]);
    assert acts == [acts[0], acts[1]] + [acts[2], acts[3]];
  }

  lemma ActionsValid(op: Op)
    requires Named(op)
    ensures AllValid(Actions(op))
  {
    if op.AddZone? {
      AddZoneValid(op);
    } else if op.UpdateZone? {
      var acts := Actions(op);
      AllValidPair(acts[0], acts[0]);
      AllValidPair(acts[1], acts[2]);
      assert acts == [acts[0]] + [acts[1], acts[2]];
    }
  }

  /** The event as it reaches the updater. */
  function Encoded(e: (int, Op)): Event {
    Event(e.0, Decoded(Rendered(Actions(e.1))))
  }

  lemma {:induction false} RenderedConcat(a: seq<KeyAction>, b: seq<KeyAction>)
    ensures Rendered(a + b) == Rendered(a) + Rendered(b)
  {
    if a == [] {
      assert a + b == b;
    } else {
      RenderedConcat(a[1..], b);
      assert (a + b)[1..] == a[1..] + b;
    }
  }

  /** Applying an event changes a served key as its operation says; the revision is elsewhere. */
  lemma ApplyView(st: Store, e: (int, Op), k: Key)
    requires Named(e.1) && Valid(k) && Served(k)
    ensures View(Apply(st, Encoded(e)), k) == OpEffect(e.1, k, View(st, k))
  {
    hide Rendered, ExecAll, Effect, OpEffect, Actions, View, Render;
    var actions, last := Actions(e.1), KeyAction(RevisionKey, Set(Number(e.0)));
    LastRendered(last);
    RenderedConcat(actions, [last]);
    ActionsValid(e.1);
    ViewAfter(st, actions + [last], k);
    EffectConcat(actions, [last], k, View(st, k));
    EffectOfOp(e.1, k, View(st, k));
    NoEffect([last], k, OpEffect(e.1, k, View(st, k)));
  }

  lemma LastRendered(last: KeyAction)
    requires last.key == RevisionKey
    ensures Rendered([last]) == [Command(Render(RevisionKey), last.action)]
  {
    assert Rendered([last][1..]) == [];
  }

  // ---------------------------------------------------------------- whole histories

  function TablesAfter(events: seq<(int, Op)>): Tables {
    if events == [] then EMPTY else Mutated(TablesAfter(events[..|events| - 1]), events[|events| - 1].1)
  }

  /** Every event was accepted by the tables its predecessors left. */
  predicate History(events: seq<(int, Op)>) {
    forall i | 0 <= i < |events| :: Accepts(TablesAfter(events[..i]), events[i].1)
  }

  predicate AllNamed(events: seq<(int, Op)>) {
    forall i | 0 <= i < |events| :: Named(events[i].1)
  }

  function Log(events: seq<(int, Op)>): seq<Event> {
    seq(|events|, i requires 0 <= i < |events| => Encoded(events[i]))
  }

  lemma HistoryPrefix(events: seq<(int, Op)>, k: nat)
    requires History(events) && k <= |events|
    ensures History(events[..k]) && Log(events[..k]) == Log(events)[..k]
    ensures AllNamed(events) ==> AllNamed(events[..k])
  {
    hide TablesAfter, Accepts, Encoded;
    forall i | 0 <= i < k ensures Accepts(TablesAfter(events[..k][..i]), events[..k][i].1) {
      assert events[..k][..i] == events[..i];
    }
  }

  lemma HistoryNext(events: seq<(int, Op)>, revision: int, op: Op)
    requires History(events) && Accepts(TablesAfter(events), op)
    ensures var events' := events + [(revision, op)];
            History(events') && TablesAfter(events') == Mutated(TablesAfter(events), op)
  {
    hide Mutated, Accepts;
    var events' := events + [(revision, op)];
    assert events'[..|events|] == events;
    forall i | 0 <= i < |events'| ensures Accepts(TablesAfter(events'[..i]), events'[i].1) {
      assert i < |events| ==> events'[..i] == events[..i];
    }
  }

  lemma {:induction false} HistoryReferential(events: seq<(int, Op)>)
    requires History(events)
    ensures Referential(TablesAfter(events))
  {
    hide Mutated, Accepts;
    if events != [] {
      var n := |events| - 1;
      HistoryPrefix(events, n);
      HistoryReferential(events[..n]);
      MutatedReferential(TablesAfter(events[..n]), events[n].1);
    }
  }

  /** The last event of a history, in the tables and in the replay. */
  lemma LastEvent(events: seq<(int, Op)>)
    requires events != []
    ensures var n := |events| - 1;
            && TablesAfter(events) == Mutated(TablesAfter(events[..n]), events[n].1)
            && Replay(map[], Log(events)) == Apply(Replay(map[], Log(events)[..n]), Encoded(events[n]))
  {
    hide Mutated, Replay, Encoded;
    var n := |events| - 1;
    ReplayNext(map[], Log(events), n);
    assert Log(events)[..n + 1] == Log(events);
  }

  lemma EmptyAgrees()
    ensures Agrees(TablesAfter([]), Replay(map[], Log([])))
  {
  }

  /** Replaying the events of any accepted history reproduces the tables in Redis. */
  lemma {:induction false} ReplayAgrees(events: seq<(int, Op)>)
    requires History(events) && AllNamed(events)
    ensures Agrees(TablesAfter(events), Replay(map[], Log(events)))
  {
    if events == [] {
      EmptyAgrees();
    } else {
      var n := |events| - 1;
      assert Named(events[n].1) && Accepts(TablesAfter(events[..n]), events[n].1);
      HistoryPrefix(events, n);
      hide History, AllNamed, TablesAfter, Replay, Agrees, Log, Apply, Encoded, Mutated, Accepts, Named;
      ReplayAgrees(events[..n]);
      HistoryReferential(events[..n]);
      LastEventAgrees(TablesAfter(events[..n]), Replay(map[], Log(events[..n])), events[n]);
      LastEvent(events);
    }
  }

  lemma LastEventAgrees(t: Tables, st: Store, e: (int, Op))
    requires Referential(t) && Accepts(t, e.1) && Named(e.1) && Agrees(t, st)
    ensures Agrees(Mutated(t, e.1), Apply(st, Encoded(e)))
  {
    hide AgreesOn, Mutated, Apply, Encoded, OpEffect, View, Accepts, Referential;
    forall k | Valid(k) && Served(k) ensures AgreesOn(Mutated(t, e.1), k, View(Apply(st, Encoded(e)), k)) {
      ApplyView(st, e, k);
      OpKeepsAgreement(t, e.1, k, View(st, k));
    }
  }

  /**
   End to end: at the end of every run of the replication protocol, Redis agrees with the database
   as it was right after the last replicated event.
   */
  lemma RedisFollowsDatabase(steps: seq<Step>, events: seq<(int, Op)>)
    requires IsRun(Sys([], map[], Idle), steps)
    requires End(Sys([], map[], Idle), steps).log == Log(events) && History(events) && AllNamed(events)
    ensures var s := End(Sys([], map[], Idle), steps);
            Applied(s) <= |events| && Agrees(TablesAfter(events[..Applied(s)]), s.store)
  {
    hide Agrees, TablesAfter, Replay, IsRun, End, CountUpTo, Encoded;
    ExactlyOnce(map[], [], steps);
    var k := Applied(End(Sys([], map[], Idle), steps));
    HistoryPrefix(events, k);
    ReplayAgrees(events[..k]);
  }
}
