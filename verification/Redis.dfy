/**
 The part of Redis the updater writes to, and the MULTI/EXEC transaction of
 pkg/hiredis/transaction.go.
 */
module Redis {
  import opened Wrappers

  datatype Value = Text(text: string) | Number(n: int) | Members(members: set<string>)

  type Store = map<string, Value>

  datatype Action = Set(value: Value) | Del | SAdd(member: string) | SRem(member: string)

  datatype Command = Command(key: string, action: Action)

  function Get(st: Store, key: string): Option<Value> {
    if key in st then Some(st[key]) else None
  }

  /** What an action makes of a key; a set action on a key of another type has no effect. */
  function Act(was: Option<Value>, action: Action): Option<Value> {
    match action
    case Set(value) => Some(value)
    case Del => None
    case SAdd(member) =>
      if was.None? then Some(Members({member}))
      else if was.value.Members? then Some(Members(was.value.members + {member}))
      else was
    case SRem(member) =>
      if was.Some? && was.value.Members? then
        var rest := was.value.members - {member};
        if rest == {} then None else Some(Members(rest))
      else was
  }

  function Exec(st: Store, c: Command): Store {
    match Act(Get(st, c.key), c.action)
    case None => st - {c.key}
    case Some(value) => st[c.key := value]
  }

  function ExecAll(st: Store, commands: seq<Command>): Store
    decreases |commands|
  {
    if commands == [] then st else ExecAll(Exec(st, commands[0]), commands[1..])
  }

  lemma {:induction false} ExecAllConcat(st: Store, a: seq<Command>, b: seq<Command>)
    ensures ExecAll(st, a + b) == ExecAll(ExecAll(st, a), b)
    decreases |a|
  {
    if a == [] {
      assert a + b == b;
    } else {
      ExecAllConcat(Exec(st, a[0]), a[1..], b);
      assert (a + b)[1..] == a[1..] + b;
    }
  }

  // ---------------------------------------------------------------- doing it all again

  function Acts(was: Option<Value>, actions: seq<Action>): Option<Value>
    decreases |actions|
  {
    if actions == [] then was else Acts(Act(was, actions[0]), actions[1..])
  }

  /** The actions of a list of commands on one key. */
  function On(commands: seq<Command>, key: string): seq<Action> {
    if commands == [] then []
    else (if commands[0].key == key then [commands[0].action] else []) + On(commands[1..], key)
  }

  lemma {:induction false} GetAfter(st: Store, commands: seq<Command>, key: string)
    ensures Get(ExecAll(st, commands), key) == Acts(Get(st, key), On(commands, key))
    decreases |commands|
  {
    hide Act;
    if commands != [] {
      var c, rest := commands[0], On(commands[1..], key);
      GetAfter(Exec(st, c), commands[1..], key);
      if c.key == key {
        assert ([c.action] + rest)[1..] == rest;
      } else {
        assert [] + rest == rest;
      }
    }
  }

  predicate Overwrites(action: Action) {
    action.Set? || action.Del?
  }

  /** After an overwriting action nothing that was there before matters. */
  lemma {:induction false} OverwritingForgets(actions: seq<Action>, u: Option<Value>, v: Option<Value>)
    requires exists a | a in actions :: Overwrites(a)
    ensures Acts(u, actions) == Acts(v, actions)
    decreases |actions|
  {
    if !Overwrites(actions[0]) {
      var a :| a in actions && Overwrites(a);
      assert a in actions[1..];
      OverwritingForgets(actions[1..], Act(u, actions[0]), Act(v, actions[0]));
    }
  }

  predicate SetLike(v: Option<Value>) {
    v.Some? ==> v.value.Members?
  }

  function MembersOf(v: Option<Value>): set<string> {
    if v.Some? && v.value.Members? then v.value.members else {}
  }

  /** Whether `x` ends up in the set, given whether it was there. */
  function Ends(actions: seq<Action>, x: string, was: bool): bool
    decreases |actions|
  {
    if actions == [] then was
    else Ends(actions[1..], x, if actions[0] == SAdd(x) then true else if actions[0] == SRem(x) then false else was)
  }

  /** Ending up there or not, and doing it again, changes nothing. */
  lemma {:induction false} EndsAgain(actions: seq<Action>, x: string, u: bool, v: bool)
    requires u == v || SAdd(x) in actions || SRem(x) in actions
    ensures Ends(actions, x, u) == Ends(actions, x, v)
    decreases |actions|
  {
    if actions != [] && actions[0] != SAdd(x) && actions[0] != SRem(x) {
      EndsAgain(actions[1..], x, u, v);
    }
  }

  lemma {:induction false} EndsUntouched(actions: seq<Action>, x: string, was: bool)
    requires SAdd(x) !in actions && SRem(x) !in actions
    ensures Ends(actions, x, was) == was
    decreases |actions|
  {
    if actions != [] {
      EndsUntouched(actions[1..], x, was);
    }
  }

  predicate NoneOverwrites(actions: seq<Action>) {
    forall a | a in actions :: !Overwrites(a)
  }

  /** Set actions on a set: the members are as predicted, and an empty set is no set. */
  lemma {:induction false} SetActs(actions: seq<Action>, v: Option<Value>, x: string)
    requires NoneOverwrites(actions) && SetLike(v)
    ensures SetLike(Acts(v, actions)) && (x in MembersOf(Acts(v, actions)) <==> Ends(actions, x, x in MembersOf(v)))
    ensures actions != [] ==> (Acts(v, actions).None? <==> MembersOf(Acts(v, actions)) == {})
    decreases |actions|
  {
    if actions != [] {
      assert actions[0] in actions;
      var v' := Act(v, actions[0]);
      assert SetLike(v') && (v'.None? <==> MembersOf(v') == {});
      SetActs(actions[1..], v', x);
    }
  }

  lemma {:induction false} OtherTypeStays(actions: seq<Action>, v: Option<Value>)
    requires NoneOverwrites(actions) && !SetLike(v)
    ensures Acts(v, actions) == v
    decreases |actions|
  {
    if actions != [] {
      assert actions[0] in actions;
      OtherTypeStays(actions[1..], v);
    }
  }

  lemma SetActsAgain(actions: seq<Action>, v: Option<Value>)
    requires NoneOverwrites(actions) && SetLike(v) && actions != []
    ensures Acts(Acts(v, actions), actions) == Acts(v, actions)
  {
    hide Acts, Ends;
    var w := Acts(v, actions);
    SetActs(actions, v, "");
    SetActs(actions, w, "");
    forall x ensures x in MembersOf(Acts(w, actions)) <==> x in MembersOf(w) {
      SetActs(actions, v, x);
      SetActs(actions, w, x);
      if SAdd(x) in actions || SRem(x) in actions {
        EndsAgain(actions, x, x in MembersOf(v), x in MembersOf(w));
      } else {
        EndsUntouched(actions, x, x in MembersOf(w));
      }
    }
    assert MembersOf(Acts(w, actions)) == MembersOf(w);
  }

  /** Whatever a list of actions does to a key, doing it again changes nothing. */
  lemma ActsAgain(actions: seq<Action>, v: Option<Value>)
    ensures Acts(Acts(v, actions), actions) == Acts(v, actions)
  {
    if !NoneOverwrites(actions) {
      OverwritingForgets(actions, v, Acts(v, actions));
    } else if !SetLike(v) {
      OtherTypeStays(actions, v);
    } else if actions != [] {
      SetActsAgain(actions, v);
    }
  }

  /** A list of commands is idempotent as a whole, for every store. */
  lemma ExecAllAgain(st: Store, commands: seq<Command>)
    ensures ExecAll(ExecAll(st, commands), commands) == ExecAll(st, commands)
  {
    hide ExecAll, Acts, On;
    var once := ExecAll(st, commands);
    var twice := ExecAll(once, commands);
    forall key ensures Get(twice, key) == Get(once, key) {
      GetAfter(st, commands, key);
      GetAfter(once, commands, key);
      ActsAgain(On(commands, key), Get(st, key));
    }
    SameStore(once, twice);
  }

  lemma SameStore(a: Store, b: Store)
    requires forall key :: Get(a, key) == Get(b, key)
    ensures a == b
  {
    assert forall key :: key in a <==> Get(a, key).Some?;
    assert forall key :: key in b <==> Get(b, key).Some?;
    assert forall key | key in a :: a[key] == Get(a, key).value && b[key] == Get(b, key).value;
  }

  // ---------------------------------------------------------------- transactions

  /** What happens to EXEC: executed and acknowledged, never executed, or executed unheard. */
  datatype Reply = Acknowledged | NotExecuted | ReplyLost

  class Server {
    var store: Store

    constructor (store: Store)
      ensures this.store == store
    {
      this.store := store;
    }
  }

  /** A transaction is passed by value: each command returns a copy that carries its error on. */
  datatype Transaction = Transaction(error: bool)

  /** Commands queue on one connection; a connection that has failed once fails from then on. */
  class Connection {
    const server: Server
    var queue: seq<Command>
    var broken: bool

    constructor (server: Server)
      ensures this.server == server && queue == [] && !broken
    {
      this.server := server;
      queue, broken := [], false;
    }

    method Start(sent: bool) returns (t: Transaction)
      requires queue == [] && !broken
      modifies this
      ensures queue == [] && broken == t.error == !sent
    {
      broken := !sent;
      t := Transaction(broken);
    }

    method Send(t: Transaction, c: Command, sent: bool) returns (copy: Transaction)
      modifies this
      ensures broken == (old(broken) || (!t.error && !sent))
      ensures copy.error == (t.error || broken)
      ensures queue == if copy.error then old(queue) else old(queue) + [c]
    {
      if t.error {
        return t;
      }
      if broken || !sent {
        broken := true;
        return Transaction(true);
      }
      queue := queue + [c];
      copy := t;
    }

    /** All of the queue takes effect in one step, or none of it does. */
    method Commit(t: Transaction, reply: Reply) returns (failed: bool)
      modifies server
      ensures failed == (t.error || broken || reply != Acknowledged)
      ensures server.store == if t.error || broken || reply == NotExecuted then old(server.store)
                              else ExecAll(old(server.store), queue)
    {
      if t.error || broken {
        return true;
      }
      if reply != NotExecuted {
        server.store := ExecAll(server.store, queue);
      }
      failed := reply != Acknowledged;
    }
  }
}
