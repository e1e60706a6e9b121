/** Runs of the whole system, from its first start, that end where one would not expect:
    succeeded without the ownership transfer, succeeded after Duplicate had refused the job,
    and failed with clone and role still there. */
module SagaWitness {
  import opened Prelude
  import opened Catalog
  import opened Scripts
  import opened ScriptProofs
  import opened Saga
  import opened SagaProofs
  import opened SagaRecovery
  import opened SagaTransfer
  import opened SagaFailure
  import opened Verdicts
  import Ops = Operations
  import Store = OperationStore

  // ----- a job that nothing is wrong with -----

  function JobOfRequest(r: Ops.Request): Job
    requires r.result.Some?
  {
    JobFor(r.result.value, "")
  }

  function SourceRow(c: Catalog, r: Ops.Request): Database
    requires r.result.Some? && r.result.value.source in c.dbs
  {
    c.dbs[r.result.value.source]
  }

  /** A request that the handler accepts and a fault-free Duplicate serves. */
  predicate Clonable(p: Policy, c: Catalog, r: Ops.Request) {
    Sound(c) && Acceptable(p, c, r) && Ops.ValidId(r.id) && Ops.Insertable(r, LockList(r.result.value)) &&
    Verdict(p, c, JobOfRequest(r)).None? && r.result.value.source in c.dbs
  }

  /** The verdict covers what Duplicate asks of the source's row. */
  lemma SourceIsFine(p: Policy, c: Catalog, r: Ops.Request)
    requires Clonable(p, c, r)
    ensures r.result.value.source !in p.databases
    ensures var row := SourceRow(c, r); SourceError(p, JobOfRequest(r), row, RoleOf(c, row.owner)).None?
  {
    DeniedIsKept(p, SourceRow(c, r).owner);
    hide KeptRole, Acceptable, Sound;
  }

  function NewStore(r: Ops.Request): Ops.Table
    requires r.result.Some?
  {
    Ops.Inserted(Ops.Table(map[], map[]), r, LockList(r.result.value), 0).0
  }

  function ClaimedStore(r: Ops.Request): Ops.Table
    requires r.result.Some?
  {
    Ops.Transitioned(NewStore(r), r.id, CLAIM, 0).0
  }

  /** The poller at a stage, every call so far having been answered. */
  function DupAt(c: Catalog, r: Ops.Request, stage: Stage): Dup
    requires r.result.Some? && r.result.value.source in c.dbs
  {
    var row := SourceRow(c, r);
    Forward(stage, if Index(stage) > Index(Snap) then Snapshot(row.owner, row.connect) else Done)
  }

  function SystemAt(p: Policy, c: Catalog, r: Ops.Request, stage: Stage): System
    requires r.result.Some? && r.result.value.source in c.dbs
  {
    System(ClaimedStore(r), CatalogAt(p, c, JobOfRequest(r), stage), Duplicating(r.id, JobOfRequest(r), DupAt(c, r, stage)))
  }

  lemma ThenOne(p: Policy, s: System, events: seq<Event>, e: Event)
    ensures RunOf(p, s, events + [e]) == Next(p, RunOf(p, s, events), e)
  {
    assert (events + [e])[..|events|] == events;
  }

  // ----- to the first call -----

  const EMPTY: Ops.Table := Ops.Table(map[], map[])

  lemma NothingListed(status: Ops.Status)
    ensures Listing(EMPTY, status) == []
  {
  }

  lemma NothingPruned(now: int)
    ensures Ops.Pruned(EMPTY, now) == EMPTY
  {
  }

  /** The first start of the server: Reconcile finds nothing. */
  lemma Starts(p: Policy, c: Catalog) returns (events: seq<Event>)
    ensures RunOf(p, Start(c), events) == System(EMPTY, c, Idle)
  {
    hide Listing, Ops.Pruned;
    NothingListed(Ops.Running);
    NothingListed(Ops.Compensating);
    NothingListed(Ops.Interrupted);
    NothingPruned(0);
    events := [];
    assert RunOf(p, Start(c), events) == System(EMPTY, c, Down);
    hide RunOf;
    ThenOne(p, Start(c), events, Restart(false));
    events := events + [Restart(false)];
    for i := 0 to 4
      invariant RunOf(p, Start(c), events) ==
                System(EMPTY, c, if i == 0 then Marking([]) else if i == 1 then Redoing([]) else if i == 2 then Resolving([])
                                 else if i == 3 then Pruning else Idle)
    {
      ThenOne(p, Start(c), events, Work(false, 0));
      events := events + [Work(false, 0)];
    }
  }

  lemma QueuedThenClaimed(p: Policy, c: Catalog, r: Ops.Request)
    requires Clonable(p, c, r)
    ensures Ops.Inserted(EMPTY, r, LockList(r.result.value), 0).1.None?
    ensures var t := NewStore(r);
            r.id in t.ops && t.ops[r.id].status == Ops.Queued && t.ops[r.id].result == r.result &&
            Ops.Transitioned(t, r.id, CLAIM, 0).1.None?
    ensures StartDup(p, JobOfRequest(r)) == DupAt(c, r, AskSource) && CatalogAt(p, c, JobOfRequest(r), AskSource) == c
    ensures SoFar(p, c, JobOfRequest(r), DupAt(c, r, AskSource), c)
  {
    StartIsSoFar(p, c, JobOfRequest(r));
  }

  lemma Claims(p: Policy, c: Catalog, r: Ops.Request) returns (events: seq<Event>)
    requires Clonable(p, c, r)
    ensures RunOf(p, Start(c), events) == SystemAt(p, c, r, AskSource)
  {
    QueuedThenClaimed(p, c, r);
    events := Starts(p, c);
    ThenOne(p, Start(c), events, Enqueue(r, 0));
    ThenOne(p, Start(c), events + [Enqueue(r, 0)], Claim(r.id, "", false, 0));
    hide RunOf, StartDup, CatalogAt, Ops.Inserted, Ops.Transitioned, Acceptable;
    assert Acceptable(p, c, r);
    assert RunOf(p, Start(c), events + [Enqueue(r, 0)]) == System(NewStore(r), c, Idle);
    events := events + [Enqueue(r, 0)] + [Claim(r.id, "", false, 0)];
  }

  // ----- along the script -----

  lemma ClonableJob(p: Policy, c: Catalog, r: Ops.Request)
    requires Clonable(p, c, r)
    ensures r.result.Some? && r.result.value.source in c.dbs
    ensures var j := JobOfRequest(r);
            Allowed(p, j) && j.source.Some? && j.source.value in c.dbs && j.source.value != j.database &&
            j.owner !in c.roles && j.database !in c.dbs && j.owner !in c.vault && c.dbs[j.source.value].owner != j.owner &&
            OwnedBy(c, j.owner) == {}
  {
  }

  /** What the calls see at a stage. */
  lemma SourceSeenAt(p: Policy, c: Catalog, r: Ops.Request, stage: Stage)
    requires Clonable(p, c, r)
    ensures var j := JobOfRequest(r);
            var cat := CatalogAt(p, c, j, stage);
            Present(cat, j) == Made(stage) && j.source.value in cat.dbs && cat.dbs[j.source.value] == SourceRow(c, r) &&
            SourceError(p, j, SourceRow(c, r), RoleOf(cat, SourceRow(c, r).owner)).None?
  {
    SourceIsFine(p, c, r);
    ClonableJob(p, c, r);
    hide Transferred, OwnedBy, Acceptable, SourceError, RowAt, Sound;
  }

  lemma AtStage(c: Catalog, r: Ops.Request, stage: Stage)
    requires r.result.Some? && r.result.value.source in c.dbs
    ensures var d := DupAt(c, r, stage);
            d.Forward? && d.stage == stage && JobOfRequest(r).source == Some(r.result.value.source) &&
            (stage in {FirstCheck, LastCheck} ==> d.snap == Snapshot(SourceRow(c, r).owner, SourceRow(c, r).connect))
  {
  }

  /** No stage of a fault-free run meets an error. */
  lemma StageIsAnswered(p: Policy, c: Catalog, r: Ops.Request, stage: Stage)
    requires Clonable(p, c, r)
    ensures var j := JobOfRequest(r);
            var reply := Perform(p, CatalogAt(p, c, j, stage), StageCall(p, j, stage)).1;
            StageError(p, j, DupAt(c, r, stage), reply).None? &&
            (stage == Snap ==> reply == Snapshot(SourceRow(c, r).owner, SourceRow(c, r).connect))
  {
    ClonableJob(p, c, r);
    hide CatalogAt, DupAt, Clonable, SourceError, StageError, Perform, StageCall, Allowed, RoleOf, JobOfRequest, Present, Made;
    AtStage(c, r, stage);
    SourceSeenAt(p, c, r, stage);
    CallIsAnswered(p, CatalogAt(p, c, JobOfRequest(r), stage), JobOfRequest(r), DupAt(c, r, stage));
  }

  lemma CallIsAnswered(p: Policy, cat: Catalog, j: Job, d: Dup)
    requires d.Forward? && j.source.Some? && j.source.value in cat.dbs && Present(cat, j) == Made(d.stage)
    requires var row := cat.dbs[j.source.value];
             SourceError(p, j, row, RoleOf(cat, row.owner)).None? &&
             (d.stage in {FirstCheck, LastCheck} ==> d.snap == Snapshot(row.owner, row.connect))
    ensures var reply := Perform(p, cat, StageCall(p, j, d.stage)).1;
            StageError(p, j, d, reply).None? &&
            (d.stage == Snap ==> reply == Snapshot(cat.dbs[j.source.value].owner, cat.dbs[j.source.value].connect))
  {
    hide Transferred, OwnedBy, SourceError, RoleOf;
    match d.stage
    case MakeRole =>
    case MakeDatabase =>
    case SaveVault =>
    case Move =>
    case _ =>
  }

  /** Work without a fault at one stage brings the poller to the next. */
  lemma StageWorks(p: Policy, c: Catalog, r: Ops.Request, stage: Stage)
    requires Clonable(p, c, r) && stage != LastCheck
    requires SoFar(p, c, JobOfRequest(r), DupAt(c, r, stage), CatalogAt(p, c, JobOfRequest(r), stage))
    ensures var n := After(p, JobOfRequest(r), stage, Done);
            n.Forward? && Next(p, SystemAt(p, c, r, stage), Work(false, 0)) == SystemAt(p, c, r, n.stage) &&
            SoFar(p, c, JobOfRequest(r), DupAt(c, r, n.stage), CatalogAt(p, c, JobOfRequest(r), n.stage))
  {
    var j, d := JobOfRequest(r), DupAt(c, r, stage);
    var cat := CatalogAt(p, c, j, stage);
    StageIsAnswered(p, c, r, stage);
    ForwardStepSoFar(p, c, j, d, cat, false);
    DuplicateNext(p, SystemAt(p, c, r, stage), Work(false, 0));
    AfterIsAt(p, c, r, stage);
    hide CatalogAt, Perform, StageError, Expected, Clonable, StageCall, After, UndoFrom, Began, Allowed;
  }

  lemma AfterIsAt(p: Policy, c: Catalog, r: Ops.Request, stage: Stage)
    requires Clonable(p, c, r) && stage != LastCheck
    ensures var row := SourceRow(c, r);
            var snap := if stage == Snap then Snapshot(row.owner, row.connect) else DupAt(c, r, stage).snap;
            var n := After(p, JobOfRequest(r), stage, Done);
            n.Forward? && After(p, JobOfRequest(r), stage, snap) == DupAt(c, r, n.stage) &&
            Index(stage) < Index(n.stage) && (Index(stage) < 13 ==> Index(n.stage) <= 13) && (Index(stage) < 16 ==> Index(n.stage) <= 16)
  {
    hide Acceptable, SourceError, Sound;
  }

  /** The poller has come to a stage, all going well. */
  ghost predicate ComeTo(p: Policy, c: Catalog, r: Ops.Request, stage: Stage, events: seq<Event>) {
    Clonable(p, c, r) && RunOf(p, Start(c), events) == SystemAt(p, c, r, stage) &&
    SoFar(p, c, JobOfRequest(r), DupAt(c, r, stage), CatalogAt(p, c, JobOfRequest(r), stage))
  }

  lemma ComesOn(p: Policy, c: Catalog, r: Ops.Request, stage: Stage, target: Stage, events: seq<Event>) returns (next: Stage)
    requires ComeTo(p, c, r, stage, events) && target in {FirstCheck, Move, LastCheck} && Index(stage) < Index(target)
    ensures ComeTo(p, c, r, next, events + [Work(false, 0)]) && Index(stage) < Index(next) <= Index(target)
  {
    hide SoFar, Clonable, RunOf, SystemAt, CatalogAt, DupAt, After, Next, Start;
    ClonableJob(p, c, r);
    SameIndex(stage, target);
    StageWorks(p, c, r, stage);
    AfterIsAt(p, c, r, stage);
    ThenOne(p, Start(c), events, Work(false, 0));
    next := After(p, JobOfRequest(r), stage, Done).stage;
  }

  /** Nothing failing, the poller comes to the first check, to the transfer and to the last
      check of a clonable job. */
  lemma {:induction false} Goes(p: Policy, c: Catalog, r: Ops.Request, stage: Stage, target: Stage, so_far: seq<Event>)
    returns (events: seq<Event>)
    requires ComeTo(p, c, r, stage, so_far) && target in {FirstCheck, Move, LastCheck} && Index(stage) <= Index(target)
    ensures ComeTo(p, c, r, target, events)
    decreases Index(target) - Index(stage)
  {
    hide ComeTo;
    SameIndex(stage, target);
    if Index(stage) == Index(target) {
      events := so_far;
    } else {
      var next := ComesOn(p, c, r, stage, target, so_far);
      events := Goes(p, c, r, next, target, so_far + [Work(false, 0)]);
    }
  }

  lemma SameIndex(a: Stage, b: Stage)
    ensures Index(a) == Index(b) ==> a == b
    ensures Index(a) < Index(b) ==> a != LastCheck
  {
  }

  lemma Reaches(p: Policy, c: Catalog, r: Ops.Request, target: Stage) returns (events: seq<Event>)
    requires Clonable(p, c, r) && target in {FirstCheck, Move, LastCheck}
    ensures RunOf(p, Start(c), events) == SystemAt(p, c, r, target)
    ensures Inv(p, SystemAt(p, c, r, target))
  {
    QueuedThenClaimed(p, c, r);
    var first := Claims(p, c, r);
    hide SoFar, RunOf, SystemAt, CatalogAt, DupAt, Inv;
    events := Goes(p, c, r, AskSource, target, first);
    EveryRunKeepsInv(p, c, events) by { assert Owned(c) by { hide Acceptable; } }
  }

  lemma ClaimedRow(r: Ops.Request)
    requires r.result.Some? && Ops.ValidId(r.id) && Ops.Insertable(r, LockList(r.result.value))
    requires Ops.LocksFree(map[], LockList(r.result.value))
    ensures var t := ClaimedStore(r);
            t.ops.Keys == {r.id} && t.ops[r.id].status == Ops.Running && t.ops[r.id].result == r.result
  {
  }

  lemma ClaimedIsRunning(p: Policy, c: Catalog, r: Ops.Request)
    requires Clonable(p, c, r)
    ensures var t := ClaimedStore(r);
            t.ops.Keys == {r.id} && t.ops[r.id].status == Ops.Running && t.ops[r.id].result == r.result
  {
    QueuedThenClaimed(p, c, r);
    ClaimedRow(r);
  }

  /** A crash with all three pieces there. */
  lemma CompleteSucceeds(p: Policy, c: Catalog, r: Ops.Request, events: seq<Event>, now: int)
    requires Clonable(p, c, r)
    requires var s := RunOf(p, Start(c), events); s.store == ClaimedStore(r) && Present(s.catalog, JobOfRequest(r)) == ALL
    ensures var s := RunOf(p, Start(c), events);
            var restarted := Next(p, Next(p, s, Crash), Restart(false));
            Inv(p, restarted) && Calm(restarted.proc) &&
            var end := Recover(p, restarted, now);
            r.id in end.store.ops && end.store.ops[r.id].status == Ops.Succeeded &&
            SameRow(s.catalog, end.catalog, r.result.value.database)
  {
    hide RunOf, Recover, Next, Inv, ClaimedStore, Acceptable;
    var s := RunOf(p, Start(c), events);
    CrashRecovery(p, c, events, now);
    ClaimedIsRunning(p, c, r);
    var end := Recover(p, Next(p, Next(p, s, Crash), Restart(false)), now);
    assert Complete(s, r.id);
    assert RecoveredFrom(s, end, r.id);
  }

  // ----- succeeded without the transfer -----

  /** The process dies as it is about to transfer the ownership, and comes back: the job
      succeeds, and its clone's objects belong to whom the source's belong. */
  lemma SucceedsUntransferred(p: Policy, c: Catalog, r: Ops.Request, now: int)
    requires Clonable(p, c, r)
    requires !NothingToMove(p, c, SourceRow(c, r).objects, r.result.value.owner)
    ensures exists events ::
              var s := RunOf(p, Start(c), events);
              var restarted := Next(p, Next(p, s, Crash), Restart(false));
              s.proc == Duplicating(r.id, JobOfRequest(r), DupAt(c, r, Move)) && Inv(p, restarted) && Calm(restarted.proc) &&
              var end := Recover(p, restarted, now);
              var d := r.result.value.database;
              r.id in end.store.ops && end.store.ops[r.id].status == Ops.Succeeded && d in end.catalog.dbs &&
              end.catalog.dbs[d].objects == SourceRow(c, r).objects &&
              end.catalog.dbs[d].objects != Transferred(p, c, SourceRow(c, r).objects, r.result.value.owner)
  {
    ClonableJob(p, c, r);
    hide Recover, Next, Inv, Transferred, NothingToMove, RunOf, Acceptable, Sound, ClaimedStore, SameRow;
    var events := Reaches(p, c, r, Move);
    TransferIsNeeded(p, c, SourceRow(c, r).objects, r.result.value.owner);
    SourceSeenAt(p, c, r, Move);
    CompleteSucceeds(p, c, r, events, now);
    assert RowAt(p, c, JobOfRequest(r), Move).objects == SourceRow(c, r).objects;
    RowIsSame(RunOf(p, Start(c), events).catalog,
              Recover(p, Next(p, Next(p, RunOf(p, Start(c), events), Crash), Restart(false)), now).catalog, r.result.value.database);
  }

  /** Another client changed who may connect to the source. */
  function Reconnected(c: Catalog, d: Name): Catalog
    requires d in c.dbs
  {
    var row := c.dbs[d];
    c.(dbs := c.dbs[d := row.(connect := if Public in row.connect then row.connect - {Public} else row.connect + {Public})])
  }

  /** Changes of the source alone do not disturb the one job of the store. */
  lemma SourceIsFree(p: Policy, c: Catalog, r: Ops.Request, stage: Stage, now: Catalog)
    requires Clonable(p, c, r) && Inv(p, SystemAt(p, c, r, stage))
    requires var cat := CatalogAt(p, c, JobOfRequest(r), stage);
             var src := r.result.value.source;
             now == cat.(dbs := now.dbs) && now.dbs - {src} == cat.dbs - {src} &&
             (src in now.dbs ==> src in cat.dbs && now.dbs[src].owner == cat.dbs[src].owner)
    ensures Undisturbed(SystemAt(p, c, r, stage), now)
    ensures Present(now, JobOfRequest(r)) == Made(stage)
  {
    ClonableJob(p, c, r);
    ClaimedIsRunning(p, c, r);
    var s := SystemAt(p, c, r, stage);
    var j, src := JobOfRequest(r), r.result.value.source;
    hide Clonable, ClaimedStore, ProcOk, Transferred;
    forall d ensures d in now.dbs ==> d in s.catalog.dbs && now.dbs[d].owner == s.catalog.dbs[d].owner
             ensures d != src ==> (d in now.dbs <==> d in s.catalog.dbs)
    {
      assert d in now.dbs && d != src ==> d in now.dbs - {src} && (now.dbs - {src})[d] == (s.catalog.dbs - {src})[d];
      assert d in s.catalog.dbs && d != src ==> d in s.catalog.dbs - {src};
    }
    assert src in s.catalog.dbs ==> s.catalog.dbs[src].owner != j.owner;
    assert OwnedBy(now, j.owner) == OwnedBy(s.catalog, j.owner);
  }

  // ----- succeeded after a refusal -----

  lemma RefusalBegins(p: Policy, j: Job, snap: Reply, reply: Reply)
    requires j.source.Some? && reply.Snapshot? && reply != snap
    ensures DupNext(p, j, Forward(LastCheck, snap), reply) == Undo(DeleteVault, IsolationChanged, ALL, true)
  {
  }

  lemma SnapshotNow(p: Policy, c: Catalog, d: Name)
    requires d in c.dbs
    ensures var n := Reconnected(c, d);
            Perform(p, n, OwnershipSnapshot(d)) == (n, Snapshot(n.dbs[d].owner, n.dbs[d].connect)) &&
            n.dbs[d].connect != c.dbs[d].connect
  {
    assert Public in Reconnected(c, d).dbs[d].connect <==> Public !in c.dbs[d].connect;
  }

  lemma LastCheckRefuses(p: Policy, c: Catalog, r: Ops.Request, now: Catalog)
    requires Clonable(p, c, r)
    requires now == Reconnected(CatalogAt(p, c, JobOfRequest(r), LastCheck), r.result.value.source)
    ensures var s := SystemAt(p, c, r, LastCheck).(catalog := now);
            Next(p, s, Work(false, 0)) ==
            s.(proc := Duplicating(r.id, JobOfRequest(r), Undo(DeleteVault, IsolationChanged, ALL, true)))
  {
    var s := SystemAt(p, c, r, LastCheck).(catalog := now);
    var j, src := JobOfRequest(r), r.result.value.source;
    SourceSeenAt(p, c, r, LastCheck);
    DuplicateNext(p, s, Work(false, 0));
    SnapshotNow(p, CatalogAt(p, c, j, LastCheck), src);
    RefusalBegins(p, j, DupAt(c, r, LastCheck).snap, Snapshot(now.dbs[src].owner, now.dbs[src].connect));
    hide Next, CatalogAt, Clonable, ClaimedStore, Perform, Reconnected, DupNext, RoleOf;
  }

  /** Duplicate finds at its last check that the source's isolation changed, and is about to
      undo all it made when the process dies: after the restart the job succeeds. */
  lemma RefusedJobSucceeds(p: Policy, c: Catalog, r: Ops.Request, now: int)
    requires Clonable(p, c, r)
    ensures exists events ::
              var s := RunOf(p, Start(c), events);
              var restarted := Next(p, Next(p, s, Crash), Restart(false));
              s.proc == Duplicating(r.id, JobOfRequest(r), Undo(DeleteVault, IsolationChanged, ALL, true)) &&
              Inv(p, restarted) && Calm(restarted.proc) &&
              var end := Recover(p, restarted, now);
              r.id in end.store.ops && end.store.ops[r.id].status == Ops.Succeeded
  {
    ClonableJob(p, c, r);
    hide RunOf, Recover, Next, Inv, SystemAt, ClaimedStore, Undisturbed, CatalogAt, Reconnected, Acceptable, Sound;
    var reach := Reaches(p, c, r, LastCheck);
    var s1 := SystemAt(p, c, r, LastCheck);
    var changed := Refusable(p, c, r);
    ThenOne(p, Start(c), reach, Others(changed));
    ThenOne(p, Start(c), reach + [Others(changed)], Work(false, 0));
    var events := reach + [Others(changed)] + [Work(false, 0)];
    CompleteSucceeds(p, c, r, events, now);
  }

  /** The change of the source that makes the last check refuse. */
  lemma Refusable(p: Policy, c: Catalog, r: Ops.Request) returns (changed: Catalog)
    requires Clonable(p, c, r) && Inv(p, SystemAt(p, c, r, LastCheck))
    ensures var s := SystemAt(p, c, r, LastCheck);
            Next(p, s, Others(changed)) == s.(catalog := changed) &&
            Next(p, s.(catalog := changed), Work(false, 0)) ==
              System(ClaimedStore(r), changed, Duplicating(r.id, JobOfRequest(r), Undo(DeleteVault, IsolationChanged, ALL, true)))
    ensures Present(changed, JobOfRequest(r)) == ALL
  {
    ClonableJob(p, c, r);
    hide Inv, ClaimedStore, Undisturbed, CatalogAt, Acceptable, Sound;
    SourceSeenAt(p, c, r, LastCheck);
    changed := Reconnected(CatalogAt(p, c, JobOfRequest(r), LastCheck), r.result.value.source);
    SourceIsFree(p, c, r, LastCheck, changed);
    LastCheckRefuses(p, c, r, changed);
  }

  // ----- failed with the clone left -----

  function WithoutSource(c: Catalog, d: Name): Catalog { c.(dbs := c.dbs - {d}) }

  const LEFT := Pieces(true, true, false)
  const UNDONE: Dup := Finished(Some(Error.NotFound), LEFT, false)

  lemma CheckFindsNothing(p: Policy, j: Job, snap: Reply, cat: Catalog)
    requires Allowed(p, j) && j.source.Some? && j.source.value !in cat.dbs
    ensures var d := Forward(FirstCheck, snap);
            var (c', reply) := Attempt(p, cat, DupCall(p, j, d), false);
            c' == cat && DupNext(p, j, d, reply) == Undo(UndoDatabase, Error.NotFound, LEFT, true)
  {
  }

  lemma DropFails(p: Policy, j: Job, cat: Catalog)
    requires Allowed(p, j)
    ensures var d := Undo(UndoDatabase, Error.NotFound, LEFT, true);
            var (c', reply) := Attempt(p, cat, DupCall(p, j, d), true);
            c' == cat && DupNext(p, j, d, reply) == Undo(CountOwned, Error.NotFound, LEFT, false)
  {
  }

  lemma CountFindsClone(p: Policy, j: Job, cat: Catalog)
    requires j.database in cat.dbs && cat.dbs[j.database].owner == j.owner
    ensures var d := Undo(CountOwned, Error.NotFound, LEFT, false);
            var (c', reply) := Attempt(p, cat, DupCall(p, j, d), false);
            c' == cat && DupNext(p, j, d, reply) == UNDONE
  {
    assert j.database in OwnedBy(cat, j.owner);
  }

  /** The poller's part of the run, from the first check to the end of the undo. */
  lemma UndoneBadly(p: Policy, s: System, id: nat, j: Job, snap: Reply)
    requires Allowed(p, j) && j.source.Some? && j.source.value !in s.catalog.dbs
    requires j.database in s.catalog.dbs && s.catalog.dbs[j.database].owner == j.owner
    requires s.proc == Duplicating(id, j, Forward(FirstCheck, snap))
    ensures RunOf(p, s, [Work(false, 0), Work(true, 0), Work(false, 0), Work(false, 0)]) == s.(proc := Failing(id, j, UNDONE))
  {
    hide Perform, Attempt, DupNext, DupCall, RunOf, Next;
    CheckFindsNothing(p, j, snap, s.catalog);
    DropFails(p, j, s.catalog);
    CountFindsClone(p, j, s.catalog);
    var s1 := s.(proc := Duplicating(id, j, Undo(UndoDatabase, Error.NotFound, LEFT, true)));
    var s2 := s.(proc := Duplicating(id, j, Undo(CountOwned, Error.NotFound, LEFT, false)));
    DuplicateNext(p, s, Work(false, 0));
    DuplicateNext(p, s1, Work(true, 0));
    DuplicateNext(p, s2, Work(false, 0));
    FourSteps(p, s, Work(false, 0), Work(true, 0), Work(false, 0), Work(false, 0));
    GivesUp(p, s, id, j);
  }

  lemma TwoSteps(p: Policy, s: System, a: Event, b: Event)
    ensures RunOf(p, s, [a, b]) == Next(p, Next(p, s, a), b)
  {
    assert RunOf(p, s, []) == s;
    hide Next, RunOf;
    ThenOne(p, s, [], a);
    ThenOne(p, s, [a], b);
    assert [] + [a] == [a] && [a] + [b] == [a, b];
  }

  lemma GivesUp(p: Policy, s: System, id: nat, j: Job)
    ensures Next(p, s.(proc := Duplicating(id, j, UNDONE)), Work(false, 0)) == s.(proc := Failing(id, j, UNDONE))
  {
  }

  lemma FourSteps(p: Policy, s: System, a: Event, b: Event, c: Event, d: Event)
    ensures RunOf(p, s, [a, b, c, d]) == Next(p, Next(p, Next(p, Next(p, s, a), b), c), d)
  {
    hide Next, RunOf;
    TwoSteps(p, s, a, b);
    ThenOne(p, s, [a, b], c);
    ThenOne(p, s, [a, b, c], d);
    assert [a, b] + [c] == [a, b, c] && [a, b, c] + [d] == [a, b, c, d];
  }

  lemma {:induction false} RunJoins(p: Policy, s: System, a: seq<Event>, b: seq<Event>)
    ensures RunOf(p, s, a + b) == RunOf(p, RunOf(p, s, a), b)
  {
    if b == [] {
      assert a + b == a;
    } else {
      var front := b[..|b| - 1];
      assert (a + b)[..|a + b| - 1] == a + front;
      RunJoins(p, s, a, front);
    }
  }

  lemma MarksCompensating(p: Policy, s: System, id: nat, j: Job)
    requires s.proc == Failing(id, j, UNDONE) && Ops.ValidId(id) && id in s.store.ops && s.store.ops[id].status == Ops.Running
    ensures var n := Next(p, s, Work(false, 0));
            n.catalog == s.catalog && n.proc == Finishing(id, j, WorkerEnd(true, Reason(Error.NotFound)), Worker(UNDONE)) &&
            id in n.store.ops && n.store.ops[id].status == Ops.Compensating
  {
    MoveSucceeds(s, id, FAIL, 0, Finishing(id, j, WorkerEnd(true, Reason(Error.NotFound)), Worker(UNDONE)), Idle);
    hide Advance;
  }

  lemma MarksFailed(p: Policy, s: System, id: nat, j: Job)
    requires s.proc == Finishing(id, j, WorkerEnd(true, Reason(Error.NotFound)), Worker(UNDONE)) && Ops.ValidId(id)
    requires id in s.store.ops && s.store.ops[id].status == Ops.Compensating
    ensures var n := Next(p, s, Work(false, 0));
            n.catalog == s.catalog && n.proc == Idle && id in n.store.ops && n.store.ops[id].status == Ops.Failed &&
            Ops.LocksOf(n.store, id) == {}
  {
    MoveSucceeds(s, id, s.proc.change, 0, Idle, Idle);
    hide Advance;
  }

  /** The poller writes failed, and the locks go with it. */
  lemma WritesFailed(p: Policy, s: System, id: nat, j: Job)
    requires s.proc == Failing(id, j, UNDONE) && Ops.ValidId(id)
    requires id in s.store.ops && s.store.ops[id].status == Ops.Running
    ensures var n := RunOf(p, s, [Work(false, 0), Work(false, 0)]);
            n.catalog == s.catalog && n.proc == Idle && id in n.store.ops && n.store.ops[id].status == Ops.Failed &&
            Ops.LocksOf(n.store, id) == {}
  {
    hide RunOf, Next, Ops.LocksOf, WorkerEnd;
    MarksCompensating(p, s, id, j);
    MarksFailed(p, Next(p, s, Work(false, 0)), id, j);
    TwoSteps(p, s, Work(false, 0), Work(false, 0));
  }

  const BAD_WORKS: seq<Event> :=
    [Work(false, 0), Work(true, 0), Work(false, 0), Work(false, 0)] + [Work(false, 0), Work(false, 0)]

  lemma FailsFrom(p: Policy, s: System, id: nat, j: Job, snap: Reply)
    requires Allowed(p, j) && j.source.Some? && j.source.value !in s.catalog.dbs
    requires j.database in s.catalog.dbs && s.catalog.dbs[j.database].owner == j.owner
    requires s.proc == Duplicating(id, j, Forward(FirstCheck, snap)) && Ops.ValidId(id)
    requires id in s.store.ops && s.store.ops[id].status == Ops.Running
    ensures var n := RunOf(p, s, BAD_WORKS);
            n.catalog == s.catalog && n.proc == Idle && id in n.store.ops && n.store.ops[id].status == Ops.Failed &&
            Ops.LocksOf(n.store, id) == {}
  {
    hide RunOf, Allowed, Ops.LocksOf;
    UndoneBadly(p, s, id, j, snap);
    WritesFailed(p, s.(proc := Failing(id, j, UNDONE)), id, j);
    RunJoins(p, s, [Work(false, 0), Work(true, 0), Work(false, 0), Work(false, 0)], [Work(false, 0), Work(false, 0)]);
  }

  lemma CloneAtCheck(p: Policy, c: Catalog, r: Ops.Request)
    requires Clonable(p, c, r)
    ensures var j := JobOfRequest(r);
            var gone := WithoutSource(CatalogAt(p, c, j, FirstCheck), j.source.value);
            j.source.value !in gone.dbs && j.database in gone.dbs && gone.dbs[j.database].owner == j.owner &&
            j.owner in gone.roles
  {
    ClonableJob(p, c, r);
    hide Acceptable, Sound;
  }

  /** The run up to the moment when the source is dropped. */
  lemma LosesSource(p: Policy, c: Catalog, r: Ops.Request) returns (events: seq<Event>)
    requires Clonable(p, c, r)
    ensures var j := JobOfRequest(r);
            RunOf(p, Start(c), events) ==
            System(ClaimedStore(r), WithoutSource(CatalogAt(p, c, j, FirstCheck), j.source.value),
                   Duplicating(r.id, j, DupAt(c, r, FirstCheck)))
  {
    ClonableJob(p, c, r);
    var j := JobOfRequest(r);
    hide RunOf, Inv, ClaimedStore, Undisturbed, Acceptable, Sound, CatalogAt;
    var reach := Reaches(p, c, r, FirstCheck);
    var gone := WithoutSource(CatalogAt(p, c, j, FirstCheck), j.source.value);
    SourceIsFree(p, c, r, FirstCheck, gone);
    ThenOne(p, Start(c), reach, Others(gone));
    events := reach + [Others(gone)];
  }

  /** The source is dropped while it is cloned and the undo's DROP DATABASE fails: the job is
      marked failed and its locks are released while its clone and role are there. */
  lemma FailsWithCloneLeft(p: Policy, c: Catalog, r: Ops.Request)
    requires Clonable(p, c, r)
    ensures exists events ::
              var n := RunOf(p, Start(c), events);
              r.id in n.store.ops && n.store.ops[r.id].status == Ops.Failed && Ops.LocksOf(n.store, r.id) == {} && n.proc == Idle &&
              r.result.value.owner in n.catalog.roles && r.result.value.database in n.catalog.dbs
  {
    ClonableJob(p, c, r);
    ClaimedIsRunning(p, c, r);
    CloneAtCheck(p, c, r);
    var j := JobOfRequest(r);
    hide RunOf, ClaimedStore, Acceptable, Sound, CatalogAt, WithoutSource;
    var lost := LosesSource(p, c, r);
    var s := RunOf(p, Start(c), lost);
    FailsFrom(p, s, r.id, j, s.proc.d.snap);
    RunJoins(p, Start(c), lost, BAD_WORKS);
    hide Clonable;
  }

  // ----- such jobs exist -----

  const SOME_POLICY: Policy := Policy({}, {}, "postgres", true)
  const SOME_CATALOG: Catalog :=
    Catalog(map["shop" := Database("seller", {Public}, true, false, ["seller"])], map["seller" := Role(false, true)], map[], {})
  const SOME_REQUEST: Ops.Request :=
    Ops.Request(0, Ops.Duplicate, "admin", "1", "shop2", None, Some(Ops.DuplicateResult("shop2", "seller2", "shop")), None, None)

  lemma NotBlank(s: string)
    requires s != "" && !IsSpace(s[0])
    ensures !Blank(s)
  {
  }

  lemma SomeRequestIsAcceptable()
    ensures Acceptable(SOME_POLICY, SOME_CATALOG, SOME_REQUEST)
    ensures Ops.Insertable(SOME_REQUEST, LockList(SOME_REQUEST.result.value))
  {
    assert "pg_"[0] != "seller2"[0];
    assert !SOME_POLICY.OwnerDenied("seller2");
    NotBlank("admin");
    NotBlank("1");
    NotBlank("shop");
    NotBlank("shop2");
    NotBlank("seller2");
    hide Blank;
  }

  lemma SomeJobIsClonable()
    ensures Clonable(SOME_POLICY, SOME_CATALOG, SOME_REQUEST)
    ensures !NothingToMove(SOME_POLICY, SOME_CATALOG, SourceRow(SOME_CATALOG, SOME_REQUEST).objects, "seller2")
  {
    SomeRequestIsAcceptable();
    hide Acceptable, Ops.Insertable;
    assert "pg_"[0] != "seller"[0];
    assert !SOME_POLICY.OwnerDenied("seller");
    assert SOME_CATALOG.dbs["shop"].objects[0] == "seller";
  }
}
