/**
 The replication log: the database appends events, the updater (cmd/zone_updater/zone_updater.go)
 polls the ones above the revision stored in Redis and applies each in a transaction that also
 moves the revision. Any step may be followed by a crash, a commit may fail, and a commit may
 succeed without the updater hearing of it.
 */
module Replication {
  import opened Redis
  import Keys

  /** `commands` is absent when the payload of the event cannot be decoded. */
  datatype Payload = Undecodable | Decoded(commands: seq<Command>)

  datatype Event = Event(revision: int, payload: Payload)

  const REVISION_KEY := Keys.Render(Keys.RevisionKey)

  const BATCH := 100

  function Revision(st: Store): int {
    if REVISION_KEY in st && st[REVISION_KEY].Number? then st[REVISION_KEY].n else 0
  }

  function Commands(e: Event): seq<Command>
    requires e.payload.Decoded?
  {
    e.payload.commands + [Command(REVISION_KEY, Set(Number(e.revision)))]
  }

  function Apply(st: Store, e: Event): Store {
    if e.payload.Decoded? then ExecAll(st, Commands(e)) else st
  }

  lemma ApplyMovesRevision(st: Store, e: Event)
    requires e.payload.Decoded?
    ensures Revision(Apply(st, e)) == e.revision
  {
    var c := Command(REVISION_KEY, Set(Number(e.revision)));
    ExecAllConcat(st, e.payload.commands, [c]);
    var st' := ExecAll(st, e.payload.commands);
    assert ExecAll(st', [c]) == Exec(st', c);
  }

  /** In-order replay from the initial store. */
  function Replay(init: Store, log: seq<Event>): Store {
    if log == [] then init else Apply(Replay(init, log[..|log| - 1]), log[|log| - 1])
  }

  /** Revisions come from an auto-increment column: positive and strictly increasing, gaps allowed. */
  predicate Ordered(log: seq<Event>) {
    && (forall i | 0 <= i < |log| :: log[i].revision > 0)
    && (forall i, j | 0 <= i < j < |log| :: log[i].revision < log[j].revision)
  }

  /** How many events of the log have a revision of at most `r`. */
  function CountUpTo(log: seq<Event>, r: int): (k: nat)
    ensures k <= |log|
    ensures Ordered(log) ==> forall i | 0 <= i < |log| :: log[i].revision <= r <==> i < k
  {
    if log == [] || log[|log| - 1].revision <= r then |log| else CountUpTo(log[..|log| - 1], r)
  }

  /** The next events after revision `r`, at most one batch of them. */
  function NextBatch(log: seq<Event>, r: int): seq<Event> {
    var k := CountUpTo(log, r);
    log[k..if k + BATCH < |log| then k + BATCH else |log|]
  }

  // ---------------------------------------------------------------- the protocol

  datatype Updater = Idle | Polled(revision: int) | Applying(batch: seq<Event>)

  datatype Sys = Sys(log: seq<Event>, store: Store, updater: Updater)

  datatype Step =
    | Append(event: Event)
    | ReadRevision
    | FetchEvents
    | CommitAcknowledged
    | CommitNotExecuted
    | CommitReplyLost
    | Sleep
    | Crash

  predicate Enabled(s: Sys, step: Step) {
    match step
    case Append(e) => e.revision > 0 && forall i | 0 <= i < |s.log| :: s.log[i].revision < e.revision
    case ReadRevision => s.updater.Idle?
    case FetchEvents => s.updater.Polled?
    case CommitNotExecuted => s.updater.Applying? && s.updater.batch != []
    case Sleep => s.updater.Applying? && s.updater.batch == []
    case Crash => true
    case _ => s.updater.Applying? && s.updater.batch != [] && s.updater.batch[0].payload.Decoded?
  }

  /** A failed or undecodable event ends the process; it starts over by reading the revision. */
  function After(s: Sys, step: Step): Sys
    requires Enabled(s, step)
  {
    match step
    case Append(e) => s.(log := s.log + [e])
    case ReadRevision => s.(updater := Polled(Revision(s.store)))
    case FetchEvents => s.(updater := Applying(NextBatch(s.log, s.updater.revision)))
    case CommitAcknowledged =>
      s.(store := Apply(s.store, s.updater.batch[0]), updater := Applying(s.updater.batch[1..]))
    case CommitReplyLost => s.(store := Apply(s.store, s.updater.batch[0]), updater := Idle)
    case CommitNotExecuted => s.(updater := Idle)
    case Sleep => s.(updater := Idle)
    case Crash => s.(updater := Idle)
  }

  ghost predicate IsRun(s: Sys, steps: seq<Step>)
    decreases |steps|
  {
    steps != [] ==> Enabled(s, steps[0]) && IsRun(After(s, steps[0]), steps[1..])
  }

  ghost function End(s: Sys, steps: seq<Step>): Sys
    requires IsRun(s, steps)
    decreases |steps|
  {
    if steps == [] then s else End(After(s, steps[0]), steps[1..])
  }

  function Applied(s: Sys): nat {
    CountUpTo(s.log, Revision(s.store))
  }

  /** The store is the replay of exactly the events whose revision is at most the stored one. */
  predicate Synced(init: Store, log: seq<Event>, store: Store) {
    var k := CountUpTo(log, Revision(store));
    && store == Replay(init, log[..k])
    && Revision(store) == (if k == 0 then 0 else log[k - 1].revision)
    && forall i | 0 <= i < k :: log[i].payload.Decoded?
  }

  predicate Inv(init: Store, s: Sys) {
    && Revision(init) == 0
    && Ordered(s.log)
    && Synced(init, s.log, s.store)
    && match s.updater
       case Idle => true
       case Polled(r) => r == Revision(s.store)
       case Applying(batch) => Contiguous(s.log, Applied(s), batch)
  }

  /** The batch is the stretch of the log that starts at position `k`. */
  predicate Contiguous(log: seq<Event>, k: nat, batch: seq<Event>) {
    k + |batch| <= |log| && batch == log[k..k + |batch|]
  }

  lemma {:induction false} CountIs(log: seq<Event>, r: int, k: nat)
    requires Ordered(log) && k <= |log|
    requires k > 0 ==> log[k - 1].revision <= r
    requires k < |log| ==> log[k].revision > r
    ensures CountUpTo(log, r) == k
  {
    var c := CountUpTo(log, r);
    assert k > 0 ==> forall i | 0 <= i < k :: log[i].revision <= log[k - 1].revision;
  }

  /** Applying the event right behind a synced prefix keeps the store synced, one event further. */
  lemma ApplyNext(init: Store, log: seq<Event>, store: Store)
    requires Ordered(log) && Synced(init, log, store)
    requires var k := CountUpTo(log, Revision(store)); k < |log| && log[k].payload.Decoded?
    ensures var k := CountUpTo(log, Revision(store));
            var store' := Apply(store, log[k]);
            Synced(init, log, store') && CountUpTo(log, Revision(store')) == k + 1
  {
    hide Apply, Replay, Revision, CountUpTo;
    var k := CountUpTo(log, Revision(store));
    ApplyMovesRevision(store, log[k]);
    CountIs(log, log[k].revision, k + 1);
    ReplayNext(init, log, k);
  }

  lemma ReplayNext(init: Store, log: seq<Event>, k: nat)
    requires k < |log|
    ensures Replay(init, log[..k + 1]) == Apply(Replay(init, log[..k]), log[k])
  {
    assert log[..k + 1][..k] == log[..k];
  }

  lemma AppendKeepsOrder(log: seq<Event>, e: Event)
    requires Ordered(log) && e.revision > 0 && forall i | 0 <= i < |log| :: log[i].revision < e.revision
    ensures Ordered(log + [e])
  {
  }

  lemma AppendKeepsCount(log: seq<Event>, e: Event, r: int)
    requires Ordered(log) && Ordered(log + [e]) && r < e.revision
    ensures CountUpTo(log + [e], r) == CountUpTo(log, r)
  {
    hide CountUpTo;
    var log', k := log + [e], CountUpTo(log, r);
    assert log'[k] == if k < |log| then log[k] else e;
    if k > 0 {
      assert log'[k - 1] == log[k - 1];
    }
    CountIs(log', r, k);
  }

  /** Being synced is a matter of the applied part of the log only. */
  lemma SyncedByPrefix(init: Store, log: seq<Event>, log': seq<Event>, store: Store)
    requires Synced(init, log, store) && CountUpTo(log', Revision(store)) == CountUpTo(log, Revision(store))
    requires var k := CountUpTo(log, Revision(store)); k <= |log| && k <= |log'| && log'[..k] == log[..k]
    ensures Synced(init, log', store)
  {
    hide Revision, Replay, CountUpTo;
    var k := CountUpTo(log, Revision(store));
    assert forall i | 0 <= i < k :: log'[i] == log'[..k][i] == log[..k][i] == log[i];
  }

  /** A new event lies above every revision in use, so it changes nothing that was said before. */
  lemma AppendKeepsSync(init: Store, log: seq<Event>, store: Store, e: Event)
    requires Ordered(log) && Synced(init, log, store) && Revision(init) == 0
    requires e.revision > 0 && forall i | 0 <= i < |log| :: log[i].revision < e.revision
    ensures var log' := log + [e];
            Ordered(log') && Synced(init, log', store) &&
            CountUpTo(log', Revision(store)) == CountUpTo(log, Revision(store))
  {
    hide Revision, Replay, CountUpTo;
    var k := CountUpTo(log, Revision(store));
    AppendKeepsOrder(log, e);
    assert Revision(store) < e.revision;
    hide Synced, Ordered;
    AppendKeepsCount(log, e, Revision(store));
    assert (log + [e])[..k] == log[..k];
    SyncedByPrefix(init, log, log + [e], store);
  }

  /** A batch is a hundred events, or all that are left. */
  lemma BatchSize(log: seq<Event>, r: int)
    ensures var left := |log| - CountUpTo(log, r);
            |NextBatch(log, r)| == if left < 100 then left else 100
  {
    hide CountUpTo;
  }

  lemma BatchIsContiguous(log: seq<Event>, r: int)
    ensures Contiguous(log, CountUpTo(log, r), NextBatch(log, r))
  {
  }

  lemma StepKeepsInv(init: Store, s: Sys, step: Step)
    requires Inv(init, s) && Enabled(s, step)
    ensures Inv(init, After(s, step))
  {
    hide Apply, Replay, Revision, CountUpTo;
    match step
    case Append(e) =>
      AppendKeepsSync(init, s.log, s.store, e);
      if s.updater.Applying? {
        var k, n := Applied(s), |s.updater.batch|;
        assert (s.log + [e])[k..k + n] == s.log[k..k + n];
      }
    case FetchEvents => BatchIsContiguous(s.log, s.updater.revision);
    case CommitAcknowledged => CommitKeepsSync(init, s);
    case CommitReplyLost => CommitKeepsSync(init, s);
    case _ =>
  }

  lemma CommitKeepsSync(init: Store, s: Sys)
    requires Inv(init, s) && Enabled(s, CommitAcknowledged)
    ensures var s' := After(s, CommitAcknowledged); Inv(init, s') && Applied(s') == Applied(s) + 1
  {
    hide Apply, Replay, Revision, CountUpTo;
    var k, batch := Applied(s), s.updater.batch;
    assert batch[0] == s.log[k];
    ApplyNext(init, s.log, s.store);
    assert batch[1..] == s.log[k + 1..k + |batch|];
  }

  /**
   Exactly once: at the end of every run, whatever crashed and whatever was lost on the way, Redis
   holds the replay of exactly the events up to its revision, and the unapplied batch is the
   stretch of the log right behind it.
   */
  lemma {:induction false} ExactlyOnce(init: Store, log: seq<Event>, steps: seq<Step>)
    requires Revision(init) == 0 && Ordered(log)
    requires IsRun(Sys(log, init, Idle), steps)
    ensures Inv(init, End(Sys(log, init, Idle), steps))
  {
    CountIs(log, 0, 0);
    assert log[..0] == [];
    RunKeepsInv(init, Sys(log, init, Idle), steps);
  }

  lemma {:induction false} RunKeepsInv(init: Store, s: Sys, steps: seq<Step>)
    requires Inv(init, s) && IsRun(s, steps)
    ensures Inv(init, End(s, steps))
    decreases |steps|
  {
    hide Inv, After, Enabled;
    if steps != [] {
      StepKeepsInv(init, s, steps[0]);
      RunKeepsInv(init, After(s, steps[0]), steps[1..]);
    }
  }

  /** From every reachable state the next decodable event gets through once nothing fails. */
  lemma Progress(init: Store, s: Sys) returns (steps: seq<Step>)
    requires Inv(init, s) && Applied(s) < |s.log| && s.log[Applied(s)].payload.Decoded?
    ensures IsRun(s, steps) && End(s, steps).log == s.log && Applied(End(s, steps)) == Applied(s) + 1
  {
    hide Apply, Replay, Revision, CountUpTo;
    steps := [Crash, ReadRevision, FetchEvents, CommitAcknowledged];
    var s1 := After(s, Crash);
    var s2 := After(s1, ReadRevision);
    var s3 := After(s2, FetchEvents);
    StepKeepsInv(init, s, Crash);
    StepKeepsInv(init, s1, ReadRevision);
    StepKeepsInv(init, s2, FetchEvents);
    assert s3.updater.batch[0] == s.log[Applied(s)];
    CommitKeepsSync(init, s3);
    hide After, Enabled;
    FirstStep(s3, CommitAcknowledged, []);
    FirstStep(s2, FetchEvents, [CommitAcknowledged]);
    FirstStep(s1, ReadRevision, [FetchEvents, CommitAcknowledged]);
    FirstStep(s, Crash, [ReadRevision, FetchEvents, CommitAcknowledged]);
    assert [CommitAcknowledged] + [] == [CommitAcknowledged];
    assert [FetchEvents] + [CommitAcknowledged] == [FetchEvents, CommitAcknowledged];
    assert [ReadRevision] + [FetchEvents, CommitAcknowledged] == [ReadRevision, FetchEvents, CommitAcknowledged];
    assert [Crash] + [ReadRevision, FetchEvents, CommitAcknowledged] == steps;
  }

  lemma FirstStep(s: Sys, step: Step, rest: seq<Step>)
    requires Enabled(s, step) && IsRun(After(s, step), rest)
    ensures IsRun(s, [step] + rest) && End(s, [step] + rest) == End(After(s, step), rest)
  {
    assert ([step] + rest)[1..] == rest;
  }

  /** An event that cannot be decoded is never passed: replication stops in front of it for good. */
  lemma UndecodableBlocks(init: Store, s: Sys, i: nat)
    requires Inv(init, s) && i < |s.log| && s.log[i].payload.Undecodable?
    ensures Applied(s) <= i
  {
  }

  lemma {:induction false} RunConcat(s: Sys, a: seq<Step>, b: seq<Step>)
    requires IsRun(s, a) && IsRun(End(s, a), b)
    ensures IsRun(s, a + b) && End(s, a + b) == End(End(s, a), b)
    decreases |a|
  {
    hide Enabled, After;
    if a == [] {
      assert a + b == b;
    } else {
      RunConcat(After(s, a[0]), a[1..], b);
      assert (a + b)[0] == a[0] && (a + b)[1..] == a[1..] + b;
    }
  }

  /** Some run gets exactly the first `n` events of the log into the store. */
  ghost predicate CanReach(init: Store, log: seq<Event>, n: nat) {
    exists steps ::
      && IsRun(Sys(log, init, Idle), steps)
      && End(Sys(log, init, Idle), steps).log == log && Applied(End(Sys(log, init, Idle), steps)) == n
  }

  lemma {:induction false} DecodableReached(init: Store, log: seq<Event>, n: nat)
    requires Revision(init) == 0 && Ordered(log) && n <= |log| && forall i | 0 <= i < n :: log[i].payload.Decoded?
    ensures CanReach(init, log, n)
  {
    hide IsRun, End, Inv, Applied;
    var s := Sys(log, init, Idle);
    if n == 0 {
      NothingApplied(init, log);
    } else {
      DecodableReached(init, log, n - 1);
      var steps :| IsRun(s, steps) && End(s, steps).log == log && Applied(End(s, steps)) == n - 1;
      ExactlyOnce(init, log, steps);
      var more := Progress(init, End(s, steps));
      RunConcat(s, steps, more);
    }
  }

  lemma NothingApplied(init: Store, log: seq<Event>)
    requires Revision(init) == 0 && Ordered(log)
    ensures IsRun(Sys(log, init, Idle), []) && End(Sys(log, init, Idle), []) == Sys(log, init, Idle)
    ensures Applied(Sys(log, init, Idle)) == 0
  {
    CountIs(log, 0, 0);
  }

  /** The log can be replicated up to an event exactly when it and all events before it can be decoded. */
  lemma ReachTheorem(init: Store, log: seq<Event>, n: nat)
    requires Revision(init) == 0 && Ordered(log) && n <= |log|
    ensures CanReach(init, log, n) <==> forall i | 0 <= i < n :: log[i].payload.Decoded?
  {
    hide IsRun, End, Inv, Applied;
    if forall i | 0 <= i < n :: log[i].payload.Decoded? {
      DecodableReached(init, log, n);
    } else if CanReach(init, log, n) {
      var steps :| IsRun(Sys(log, init, Idle), steps)
                   && End(Sys(log, init, Idle), steps).log == log && Applied(End(Sys(log, init, Idle), steps)) == n;
      ExactlyOnce(init, log, steps);
      var i :| 0 <= i < n && !log[i].payload.Decoded?;
      UndecodableBlocks(init, End(Sys(log, init, Idle), steps), i);
    }
  }

  // ---------------------------------------------------------------- commits that come late

  /**
   All this rests on EXEC taking effect, if ever, before the updater goes on. An EXEC that is executed later,
   for an event that has been passed, takes the revision back to that event.
   */
  lemma LateCommitRewinds(init: Store, log: seq<Event>, store: Store, i: nat)
    requires Ordered(log) && Synced(init, log, store) && i < CountUpTo(log, Revision(store))
    ensures CountUpTo(log, Revision(Apply(store, log[i]))) == i + 1
  {
    hide Apply, Replay, Revision, CountUpTo;
    ApplyMovesRevision(store, log[i]);
    CountIs(log, log[i].revision, i + 1);
  }

  function AllCommands(log: seq<Event>): seq<Command>
    requires forall e | e in log :: e.payload.Decoded?
  {
    if log == [] then [] else AllCommands(log[..|log| - 1]) + Commands(log[|log| - 1])
  }

  lemma {:induction false} ReplayIsExec(st: Store, log: seq<Event>)
    requires forall e | e in log :: e.payload.Decoded?
    ensures Replay(st, log) == ExecAll(st, AllCommands(log))
  {
    hide Commands;
    if log != [] {
      var n := |log| - 1;
      ReplayIsExec(st, log[..n]);
      ExecAllConcat(st, AllCommands(log[..n]), Commands(log[n]));
    }
  }

  lemma {:induction false} ReplayConcat(st: Store, a: seq<Event>, b: seq<Event>)
    ensures Replay(st, a + b) == Replay(Replay(st, a), b)
    decreases |b|
  {
    hide Apply;
    if b == [] {
      assert a + b == a;
    } else {
      var n := |b| - 1;
      ReplayConcat(st, a, b[..n]);
      assert (a + b)[..|a| + n] == a + b[..n];
    }
  }

  /** Replaying a stretch of the log that has just been replayed changes nothing. */
  lemma ReplayAgain(st: Store, log: seq<Event>)
    requires forall e | e in log :: e.payload.Decoded?
    ensures Replay(Replay(st, log), log) == Replay(st, log)
  {
    hide Replay, ExecAll, AllCommands;
    ReplayIsExec(st, log);
    ReplayIsExec(Replay(st, log), log);
    ExecAllAgain(st, AllCommands(log));
  }

  /** An updater that starts over from the rewound revision repairs the store: it ends up as it was. */
  lemma LateCommitHeals(init: Store, log: seq<Event>, store: Store, i: nat)
    requires Ordered(log) && Synced(init, log, store) && i < CountUpTo(log, Revision(store))
    ensures var k := CountUpTo(log, Revision(store));
            Replay(Apply(store, log[i]), log[i + 1..k]) == store
  {
    hide Apply, Replay, Revision, CountUpTo;
    var k := CountUpTo(log, Revision(store));
    var stretch := log[i..k];
    assert log[..k] == log[..i] + stretch;
    ReplayConcat(init, log[..i], stretch);
    forall e | e in stretch ensures e.payload.Decoded? {
      var j :| i <= j < k && log[j] == e;
    }
    ReplayAgain(Replay(init, log[..i]), stretch);
    assert stretch == [log[i]] + log[i + 1..k];
    ReplayConcat(store, [log[i]], log[i + 1..k]);
    ReplayOne(store, log[i]);
  }

  lemma ReplayOne(st: Store, e: Event)
    ensures Replay(st, [e]) == Apply(st, e)
  {
    assert [e][..0] == [];
  }

  const FIRST := Event(1, Decoded([Command("k", Del)]))
  const SECOND := Event(2, Decoded([Command("k", Set(Text("v")))]))
  const THIRD := Event(3, Decoded([]))

  /** The store at a revision of that log, with and without what the second event writes. */
  function Written(revision: int): Store {
    map[REVISION_KEY := Number(revision), "k" := Text("v")]
  }

  function Unwritten(revision: int): Store {
    map[REVISION_KEY := Number(revision)]
  }

  lemma ExecTwo(st: Store, a: Command, b: Command)
    ensures ExecAll(st, [a]) == Exec(st, a) && ExecAll(st, [a, b]) == Exec(Exec(st, a), b)
  {
    assert [a][1..] == [] && [b][1..] == [] && [a, b][1..] == [b];
    assert ExecAll(Exec(st, a), [b]) == Exec(Exec(st, a), b);
  }

  lemma AppliedByHand()
    ensures Apply(map[], FIRST) == Unwritten(1) && Apply(Unwritten(1), SECOND) == Written(2)
    ensures Apply(Written(2), FIRST) == Unwritten(1)
    ensures Apply(Unwritten(1), THIRD) == Unwritten(3) && Apply(Written(2), THIRD) == Written(3)
  {
    hide ExecAll;
    var c1, c2 := Command(REVISION_KEY, Set(Number(1))), Command(REVISION_KEY, Set(Number(2)));
    var c3 := Command(REVISION_KEY, Set(Number(3)));
    var del, set_ := FIRST.payload.commands[0], SECOND.payload.commands[0];
    assert Commands(FIRST) == [del, c1] && Commands(SECOND) == [set_, c2] && Commands(THIRD) == [c3];
    ExecTwo(map[], del, c1);
    ExecTwo(Unwritten(1), set_, c2);
    ExecTwo(Written(2), del, c1);
    ExecTwo(Unwritten(1), c3, c3);
    ExecTwo(Written(2), c3, c3);
  }

  /** But an updater that still holds a batch goes on behind it, and what the late commit undid is lost for good. */
  lemma LateCommitPersists()
    ensures var log := [FIRST, SECOND, THIRD];
            var store := Replay(map[], log[..2]);
            && Ordered(log) && Synced(map[], log, store) && CountUpTo(log, Revision(store)) == 2
            && !Synced(map[], log, Apply(Apply(store, FIRST), THIRD))
            && Revision(Apply(Apply(store, FIRST), THIRD)) == 3
  {
    hide Apply, Replay;
    var log := [FIRST, SECOND, THIRD];
    AppliedByHand();
    ReplayOne(map[], FIRST);
    ReplayConcat(map[], [FIRST], [SECOND]);
    ReplayOne(Unwritten(1), SECOND);
    ReplayConcat(map[], [FIRST, SECOND], [THIRD]);
    ReplayOne(Written(2), THIRD);
    assert [FIRST] + [SECOND] == [FIRST, SECOND] == log[..2];
    assert [FIRST, SECOND] + [THIRD] == log == log[..3];
    CountIs(log, 2, 2);
    CountIs(log, 3, 3);
    assert "k" in Written(3) && "k" !in Unwritten(3);
  }

  // ---------------------------------------------------------------- the updater's own code

  method GetEvents(log: seq<Event>, revision: int, count: nat) returns (res: seq<Event>)
    requires Ordered(log)
    ensures var k := CountUpTo(log, revision);
            res == log[k..if k + count < |log| then k + count else |log|]
  {
    var k := CountUpTo(log, revision);
    res := [];
    for i := 0 to |log|
      invariant res == if i <= k then [] else log[k..if k + count < i then k + count else i]
    {
      if log[i].revision > revision && |res| < count {
        res := res + [log[i]];
      }
    }
  }

  /**
   `sent` tells which of the commands reach the connection, `reply` what becomes of EXEC. At the commands
   named by `restarts` the code goes back to the transaction it started with, and so drops the copies made
   since then with whatever error they carry; the revision is always sent from the first copy.
   */
  method ApplyEvent(server: Server, e: Event, restarts: nat -> bool, sent: nat -> bool, reply: Reply)
    returns (failed: bool)
    modifies server
    ensures !failed ==> e.payload.Decoded? && server.store == Apply(old(server.store), e)
    ensures failed ==> server.store == old(server.store) || server.store == Apply(old(server.store), e)
    ensures e.payload.Undecodable? ==> failed && server.store == old(server.store)
    ensures e.payload.Decoded? && reply == Acknowledged && (forall i :: sent(i)) ==> !failed
  {
    if e.payload.Undecodable? {
      return true;
    }
    var commands := e.payload.commands;
    var connection := new Connection(server);
    var tx := connection.Start(sent(0));
    var t := tx;
    for i := 0 to |commands|
      invariant connection.server == server && fresh(connection) && unchanged(server)
      invariant t.error || tx.error ==> connection.broken
      invariant !connection.broken ==> connection.queue == commands[..i]
      invariant (forall j :: sent(j)) ==> !connection.broken
    {
      if restarts(i) {
        t := tx;
      }
      t := connection.Send(t, commands[i], sent(i + 1));
      assert commands[..i + 1] == commands[..i] + [commands[i]];
    }
    assert commands[..|commands|] == commands;
    t := connection.Send(tx, Command(REVISION_KEY, Set(Number(e.revision))), sent(|commands| + 1));
    failed := connection.Commit(t, reply);
  }

  /** One turn of the updater's endless loop; `died` is its Fatal exit. */
  method Poll(
    server: Server, log: seq<Event>, ghost init: Store,
    restarts: (nat, nat) -> bool, sent: (nat, nat) -> bool, replies: nat -> Reply)
    returns (died: bool)
    requires Ordered(log) && Synced(init, log, server.store)
    modifies server
    ensures Synced(init, log, server.store)
    ensures var k, k' := CountUpTo(log, old(Revision(server.store))), CountUpTo(log, Revision(server.store));
            k <= k' && (!died ==> k' == k + |NextBatch(log, old(Revision(server.store)))|)
  {
    hide Apply, Replay, Revision, CountUpTo;
    var revision := Revision(server.store);
    var events := GetEvents(log, revision, BATCH);
    ghost var k := CountUpTo(log, revision);
    for i := 0 to |events|
      invariant Synced(init, log, server.store)
      invariant CountUpTo(log, Revision(server.store)) == k + i
    {
      ghost var before := server.store;
      assert events[i] == log[k + i];
      if log[k + i].payload.Decoded? {
        ApplyNext(init, log, before);
      }
      died := ApplyEvent(server, events[i], (j: nat) => restarts(i, j), (j: nat) => sent(i, j), replies(i));
      if died {
        return;
      }
    }
    died := false;
  }
}
