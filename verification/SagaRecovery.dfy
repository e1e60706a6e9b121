/** Theorems about whole runs of the saga: what every reachable state shows, what each
    final status means, and how Reconcile ends after a crash at any point. */
module SagaRecovery {
  import opened Prelude
  import opened Catalog
  import opened Scripts
  import opened ScriptProofs
  import opened Saga
  import opened SagaProofs
  import Ops = Operations
  import Store = OperationStore

  /** The first start of the server, before anything was enqueued. */
  function Start(c: Catalog): System {
    System(Ops.Table(map[], map[]), c, Down)
  }

  ghost function RunOf(p: Policy, s: System, events: seq<Event>): System {
    if events == [] then s else Next(p, RunOf(p, s, events[..|events| - 1]), events[|events| - 1])
  }

  lemma {:induction false} EveryRunKeepsInv(p: Policy, c: Catalog, events: seq<Event>)
    requires Owned(c)
    ensures Inv(p, RunOf(p, Start(c), events))
  {
    if events != [] {
      EveryRunKeepsInv(p, c, events[..|events| - 1]);
      StepKeepsInv(p, RunOf(p, Start(c), events[..|events| - 1]), events[|events| - 1]);
    }
  }

  /** In every reachable state, whatever failed and wherever processes died, the leftovers
      of each live operation have one of the six shapes, its database belongs to its role,
      its role owns nothing else, and every database's owner exists. */
  lemma LeftoversHaveSixShapes(p: Policy, c: Catalog, events: seq<Event>, id: nat)
    requires Owned(c)
    requires Live(RunOf(p, Start(c), events).store, id)
    ensures var s := RunOf(p, Start(c), events);
            s.store.ops[id].result.Some? && Tidy(s.catalog, OpJob(s.store.ops[id], "")) && Owned(s.catalog)
  {
    EveryRunKeepsInv(p, c, events);
    var s := RunOf(p, Start(c), events);
    assert LiveOk(p, s.store, s.catalog, id);
  }

  /** Two live operations never share a database or a role, in any reachable state. */
  lemma LiveNamesAreDisjoint(p: Policy, c: Catalog, events: seq<Event>, a: nat, b: nat)
    requires Owned(c) && a != b
    requires var s := RunOf(p, Start(c), events); Live(s.store, a) && Live(s.store, b)
    ensures var s := RunOf(p, Start(c), events);
            s.store.ops[a].result.Some? && s.store.ops[b].result.Some? &&
            var ra, rb := s.store.ops[a].result.value, s.store.ops[b].result.value;
            {ra.source, ra.database} !! {rb.source, rb.database} && ra.owner != rb.owner
  {
    EveryRunKeepsInv(p, c, events);
    var s := RunOf(p, Start(c), events);
    LiveJobsDiffer(p, s, a, b);
    var ra, rb := s.store.ops[a].result.value, s.store.ops[b].result.value;
    assert Ops.LocksOf(s.store, a) !! Ops.LocksOf(s.store, b);
    assert Ops.ResourceLock(Ops.DatabaseKind, ra.source) in Ops.LocksOf(s.store, a);
    assert Ops.ResourceLock(Ops.DatabaseKind, ra.database) in Ops.LocksOf(s.store, a);
    assert Ops.ResourceLock(Ops.DatabaseKind, rb.source) in Ops.LocksOf(s.store, b);
  }

  // ----- what a final status means when it is written -----

  lemma OnlyFinishingEnds(p: Policy, s: System, e: Event, id: nat)
    requires Inv(p, s) && Live(s.store, id) && id in Next(p, s, e).store.ops && !Live(Next(p, s, e).store, id)
    ensures s.proc.Finishing? && s.proc.id == id && Next(p, s, e).catalog == s.catalog
    ensures e.Work? && Next(p, s, e).store.ops[id] == Ops.Updated(s.store.ops[id], s.proc.change, e.now)
  {
    hide StoreOk, Tracks, CompTracks, Honest, Expected, SecondLoop, ResumeOk, Exactly, StepOf, Callable;
    if e.Work? && s.proc.Pruning? {
      Ops.PruneKeepsTheLive(s.store, e.now);
    }
  }

  /** succeeded: clone, role and vault row are there, and the result is the enqueued triple.
      Whether the ownership transfer ran is the subject of SagaTransfer. */
  lemma SuccessIsComplete(p: Policy, s: System, e: Event, id: nat)
    requires Inv(p, s) && Live(s.store, id)
    requires var n := Next(p, s, e); id in n.store.ops && n.store.ops[id].status == Ops.Succeeded
    ensures var n := Next(p, s, e);
            s.store.ops[id].result.Some? && n.store.ops[id].result == s.store.ops[id].result &&
            Present(n.catalog, OpJob(n.store.ops[id], "")) == ALL
  {
    hide StoreOk, Tracks, CompTracks, Expected;
    OnlyFinishingEnds(p, s, e, id);
  }

  /** failed, when written by Reconcile: neither clone nor role is left. */
  lemma RecoveredFailureIsClean(p: Policy, s: System, e: Event, id: nat)
    requires Inv(p, s) && Live(s.store, id) && s.proc.Finishing? && !s.proc.resume.Worker?
    requires var n := Next(p, s, e); id in n.store.ops && n.store.ops[id].status == Ops.Failed
    ensures var n := Next(p, s, e);
            n.store.ops[id].result.Some? &&
            var here := Present(n.catalog, OpJob(n.store.ops[id], "")); !here.role && !here.db
  {
    hide StoreOk, Tracks, CompTracks, Expected;
    OnlyFinishingEnds(p, s, e, id);
  }

  /** failed, when written by the poller: after an error of a kind that is compensated
      neither clone nor role is left, and after any other what the undo inside Duplicate left. */
  lemma PollerFailureKeepsTally(p: Policy, s: System, e: Event, id: nat)
    requires Inv(p, s) && Live(s.store, id) && s.proc.Finishing? && s.proc.resume.Worker?
    requires var n := Next(p, s, e); id in n.store.ops && n.store.ops[id].status == Ops.Failed
    ensures s.proc.id == id
    ensures var n, d := Next(p, s, e), s.proc.resume.d;
            n.store.ops[id].result.Some? && d.Finished? && d.failure.Some? &&
            var here := Present(n.catalog, OpJob(n.store.ops[id], ""));
            if Skips(d.failure.value) then here == d.left else !here.role && !here.db
  {
    hide StoreOk, Tracks, CompTracks, Expected;
    OnlyFinishingEnds(p, s, e, id);
  }

  // ----- the end of Reconcile -----

  /** When Reconcile reaches its prune, nothing is running, compensating or interrupted. */
  lemma NothingUnfinishedAtPrune(p: Policy, s: System, now: int)
    requires Inv(p, s) && s.proc.Pruning?
    ensures var n := Worked(p, s, false, now);
            n.proc == Idle && forall id :: id in n.store.ops ==> !Store.Unfinished(n.store.ops[id].status)
  {
    hide StoreOk, Ops.Pruned;
    Ops.PruneKeepsTheLive(s.store, now);
    NothingUnfinishedWhenPruning(p, s);
  }

  /** Reconcile at work, and no call of it has failed so far. */
  predicate Calm(proc: Proc) {
    match proc
    case Marking(_) => true
    case Redoing(_) => true
    case Resolving(_) => true
    case Probing(_, _, _, _, _) => true
    case Deciding(_, _, _, _) => true
    case Pruning => true
    case Undoing(_, _, k, _, resume) => !resume.Worker? && k != CompEnd(false)
    case Finishing(_, _, ch, resume) => !resume.Worker? && (ch.to == Ops.Succeeded || ch.to == Ops.Failed)
    case _ => false
  }

  function Phase(proc: Proc): nat {
    match proc
    case Marking(_) => 3
    case Redoing(_) => 2
    case Undoing(_, _, _, _, resume) => if resume.ThenCompensating? then 2 else 1
    case Finishing(_, _, _, resume) => if resume.ThenCompensating? then 2 else 1
    case Pruning => 0
    case _ => 1
  }

  function Todo(proc: Proc): nat {
    match proc
    case Marking(todo) => |todo|
    case Redoing(todo) => |todo|
    case Resolving(todo) => |todo|
    case Probing(_, _, _, _, todo) => |todo|
    case Deciding(_, _, _, todo) => |todo|
    case Undoing(_, _, _, _, resume) => if resume.Worker? then 0 else |resume.todo|
    case Finishing(_, _, _, resume) => if resume.Worker? then 0 else |resume.todo|
    case _ => 0
  }

  function Rest(proc: Proc): nat {
    match proc
    case Probing(_, _, clone, role, _) => if clone.None? then 30 else if role.None? then 29 else 28
    case Deciding(_, _, _, _) => 27
    case Undoing(_, job, k, _, _) => 2 + Weight(InComp(job, k))
    case Finishing(_, _, _, _) => 1
    case _ => 0
  }

  predicate Closer(n: Proc, proc: Proc) {
    Phase(n) < Phase(proc) ||
    (Phase(n) == Phase(proc) && (Todo(n) < Todo(proc) || (Todo(n) == Todo(proc) && Rest(n) < Rest(proc))))
  }

  lemma MoveSucceeds(s: System, id: nat, ch: Ops.Change, now: int, next: Proc, broken: Proc)
    requires Store.Due(s.store, id, ch)
    ensures Advance(s, id, ch, now, false, next, broken) ==
      System(Ops.Table(s.store.ops[id := Ops.Updated(s.store.ops[id], ch, now)],
                       if Ops.Terminal(ch.to) && !ch.keepLocks then Ops.WithoutLocksOf(s.store.locks, id) else s.store.locks),
             s.catalog, next)
  {
    Store.DueMoves(s.store, id, ch, now);
  }

  lemma CalmMark(p: Policy, s: System, now: int)
    requires Inv(p, s) && s.proc.Marking?
    ensures var n := Worked(p, s, false, now); Calm(n.proc) && Closer(n.proc, s.proc)
  {
    hide StoreOk;
    var todo := s.proc.todo;
    if todo != [] {
      HeadAtWork(s.store, Ops.Running, todo);
      LiveIsDue(p, s, todo[0], Store.MARK);
      MoveSucceeds(s, todo[0], Store.MARK, now, Marking(todo[1..]), Down);
    }
  }

  lemma CalmRedo(p: Policy, s: System, now: int)
    requires Inv(p, s) && s.proc.Redoing?
    ensures var n := Worked(p, s, false, now); Calm(n.proc) && Closer(n.proc, s.proc)
  {
    var todo := s.proc.todo;
    if todo != [] {
      HeadAtWork(s.store, Ops.Compensating, todo);
      HasResult(p, s, todo[0]);
    }
  }

  lemma CalmResolve(p: Policy, s: System, now: int)
    requires Inv(p, s) && s.proc.Resolving?
    ensures var n := Worked(p, s, false, now); Calm(n.proc) && Closer(n.proc, s.proc)
  {
    var todo := s.proc.todo;
    if todo != [] {
      HeadAtWork(s.store, Ops.Interrupted, todo);
      HasResult(p, s, todo[0]);
    }
  }

  lemma CalmProbe(p: Policy, s: System, now: int)
    requires s.proc.Probing?
    ensures var n := Worked(p, s, false, now); Calm(n.proc) && Closer(n.proc, s.proc)
  {
  }

  lemma CalmDecide(p: Policy, s: System, now: int)
    requires Inv(p, s) && s.proc.Deciding?
    ensures var n := Worked(p, s, false, now); Calm(n.proc) && Closer(n.proc, s.proc)
  {
    var Deciding(id, job, found, todo) := s.proc;
    LiveIsDue(p, s, id, Store.UNDO);
    MoveSucceeds(s, id, Store.UNDO, now, Undoing(id, job, StartComp(p, job), Store.PARTIAL, ThenInterrupted(todo)), Down);
  }

  lemma CalmUndo(p: Policy, s: System, now: int)
    requires Inv(p, s) && s.proc.Undoing? && Calm(s.proc)
    ensures var n := Worked(p, s, false, now); Calm(n.proc) && Closer(n.proc, s.proc)
  {
    hide StoreOk, ProcOk;
    var Undoing(id, job, k, fail, resume) := s.proc;
    if !k.CompEnd? {
      var (n, c) := StepOf(p, InComp(job, k), s.catalog, false);
      assert n.InComp? && n.comp != CompEnd(false);
    }
  }

  lemma CalmFinish(p: Policy, s: System, now: int)
    requires Inv(p, s) && s.proc.Finishing? && Calm(s.proc)
    ensures var n := Worked(p, s, false, now); Calm(n.proc) && Closer(n.proc, s.proc)
  {
    hide StoreOk;
    var Finishing(id, job, ch, resume) := s.proc;
    MoveSucceeds(s, id, ch, now, Resumed(resume), Broken(resume));
  }

  lemma CalmStep(p: Policy, s: System, now: int)
    requires Inv(p, s) && Calm(s.proc) && !s.proc.Pruning?
    ensures var n := Worked(p, s, false, now); Inv(p, n) && Calm(n.proc) && Closer(n.proc, s.proc)
  {
    hide Inv, Closer, Worked;
    WorkKeepsInv(p, s, false, now);
    match s.proc
    case Marking(_) => CalmMark(p, s, now);
    case Redoing(_) => CalmRedo(p, s, now);
    case Resolving(_) => CalmResolve(p, s, now);
    case Deciding(_, _, _, _) => CalmDecide(p, s, now);
    case Undoing(_, _, _, _, _) => CalmUndo(p, s, now);
    case Finishing(_, _, _, _) => CalmFinish(p, s, now);
    case Probing(_, _, _, _, _) => CalmProbe(p, s, now);
  }

  lemma HasResult(p: Policy, s: System, id: nat)
    requires Inv(p, s) && Live(s.store, id)
    ensures s.store.ops[id].result.Some?
  {
    assert LiveOk(p, s.store, s.catalog, id);
  }

  /** Reconcile from here to its prune, no call failing and nobody interfering. */
  ghost function Recover(p: Policy, s: System, now: int): (end: System)
    requires Inv(p, s) && Calm(s.proc)
    ensures Inv(p, end) && end.proc == Pruning
    decreases Phase(s.proc), Todo(s.proc), Rest(s.proc)
  {
    if s.proc.Pruning? then s
    else
      CalmStep(p, s, now);
      Recover(p, Worked(p, s, false, now), now)
  }

  /** The job was not being undone, and all it makes is there. */
  predicate Complete(s: System, id: nat)
    requires id in s.store.ops
  {
    var op := s.store.ops[id];
    op.status in {Ops.Running, Ops.Interrupted} && op.result.Some? && Present(s.catalog, OpJob(op, "")) == ALL
  }

  predicate SameRow(a: Catalog, b: Catalog, d: Name) {
    d in a.dbs && d in b.dbs && b.dbs[d] == a.dbs[d]
  }

  /** Where an operation that was unfinished at s0 is now: a complete one is still so or has
      succeeded, with its clone untouched, and any other is still unfinished or has failed,
      with neither clone nor role left. */
  predicate OnCourse(s0: System, s: System, id: nat)
    requires id in s0.store.ops && id in s.store.ops
  {
    var was, op := s0.store.ops[id], s.store.ops[id];
    was.result.Some? && op.result == was.result &&
    var job := OpJob(was, "");
    var here := Present(s.catalog, job);
    (match op.status
     case Running => was.status in {Ops.Running, Ops.Interrupted} && here == Present(s0.catalog, job)
     case Interrupted => was.status in {Ops.Running, Ops.Interrupted} && here == Present(s0.catalog, job)
     case Compensating => !Complete(s0, id)
     case Succeeded => Complete(s0, id) && here == ALL
     case Failed => !Complete(s0, id) && !here.role && !here.db
     case _ => false) &&
    (Complete(s0, id) ==> SameRow(s0.catalog, s.catalog, job.database))
  }

  /** Since the restart at s0 every operation that was unfinished is on course, and no other
      one has changed. */
  ghost predicate Progress(s0: System, s: System) {
    s.store.ops.Keys == s0.store.ops.Keys &&
    (forall id :: id in s0.store.ops && !Store.Unfinished(s0.store.ops[id].status) ==> s.store.ops[id] == s0.store.ops[id]) &&
    (forall id :: id in s0.store.ops && Store.Unfinished(s0.store.ops[id].status) ==> OnCourse(s0, s, id))
  }

  lemma NothingDoneYet(p: Policy, s0: System)
    requires Inv(p, s0)
    ensures Progress(s0, s0)
  {
    forall id | id in s0.store.ops && Store.Unfinished(s0.store.ops[id].status) ensures OnCourse(s0, s0, id) {
      assert LiveOk(p, s0.store, s0.catalog, id);
    }
  }

  lemma RowOfAnother(a: Catalog, b: Catalog, d: Name, r: Name, x: Name)
    requires SameOutside(a, b, d, r) && x != d && x in a.dbs
    ensures SameRow(a, b, x)
  {
    assert x in a.dbs - {d} && x in b.dbs - {d};
    assert (a.dbs - {d})[x] == (b.dbs - {d})[x];
  }

  lemma NamesDiffer(p: Policy, s0: System, s: System, id: nat, x: nat)
    requires Inv(p, s0) && id in s0.store.ops && x in s0.store.ops && x != id
    requires Store.Unfinished(s0.store.ops[id].status) && Store.Unfinished(s0.store.ops[x].status)
    requires id in s.store.ops && s.store.ops[id].result == s0.store.ops[id].result
    ensures s.store.ops[id].result.Some? && s0.store.ops[x].result.Some?
    ensures var job, other := OpJob(s.store.ops[id], ""), OpJob(s0.store.ops[x], "");
            other.database != job.database && other.owner != job.owner
  {
    LiveJobsDiffer(p, s0, id, x);
  }

  /** A change of the catalog for the sake of one unfinished operation keeps another on
      course. */
  lemma CourseStays(p: Policy, s0: System, s: System, id: nat, job: Job, c': Catalog, x: nat)
    requires Inv(p, s0) && Progress(s0, s)
    requires id in s0.store.ops && Store.Unfinished(s0.store.ops[id].status)
    requires x in s0.store.ops && Store.Unfinished(s0.store.ops[x].status) && x != id
    requires id in s.store.ops && s.store.ops[id].result.Some? && job == OpJob(s.store.ops[id], job.token)
    requires SameOutside(s.catalog, c', job.database, job.owner) && Tidy(s.catalog, job) && Tidy(c', job)
    ensures x in s.store.ops && OnCourse(s0, s.(catalog := c'), x)
  {
    hide Inv, Progress, SameOutside, OwnedBy;
    AllOnCourse(s0, s, id);
    AllOnCourse(s0, s, x);
    NamesDiffer(p, s0, s, id, x);
    var other := OpJob(s0.store.ops[x], "");
    OtherJobKept(s.catalog, c', job, other);
    if other.database in s.catalog.dbs { RowOfAnother(s.catalog, c', job.database, job.owner, other.database); }
  }

  /** A transition of one unfinished operation to a status that its course allows. */
  lemma MoveProgresses(p: Policy, s0: System, s: System, id: nat, ch: Ops.Change, now: int, next: Proc)
    requires Progress(s0, s) && id in s0.store.ops && Store.Unfinished(s0.store.ops[id].status)
    requires Store.Due(s.store, id, ch)
    requires OnCourse(s0, s.(store := Ops.Table(s.store.ops[id := Ops.Updated(s.store.ops[id], ch, now)], s.store.locks)), id)
    ensures Progress(s0, Advance(s, id, ch, now, false, next, Down))
  {
    MoveSucceeds(s, id, ch, now, next, Down);
    var n := Advance(s, id, ch, now, false, next, Down);
    hide Advance, Complete, SameRow;
    forall x | x in s0.store.ops && Store.Unfinished(s0.store.ops[x].status) ensures OnCourse(s0, n, x) {
      if x != id { assert OnCourse(s0, s, x); }
    }
  }

  /** Whoever is at work was unfinished at the restart. */
  lemma AtWorkWasUnfinished(s0: System, s: System, id: nat)
    requires Progress(s0, s) && id in s.store.ops && Store.Unfinished(s.store.ops[id].status)
    ensures id in s0.store.ops && Store.Unfinished(s0.store.ops[id].status)
  {
  }

  lemma CalmStepProgresses(p: Policy, s0: System, s: System, now: int)
    requires Inv(p, s0) && Inv(p, s) && Progress(s0, s) && Calm(s.proc) && !s.proc.Pruning?
    ensures Progress(s0, Worked(p, s, false, now))
  {
    hide Inv, Progress, Worked;
    match s.proc
    case Undoing(id, job, k, _, _) => UndoProgresses(p, s0, s, now);
    case Marking(todo) => MarkProgresses(p, s0, s, now);
    case Deciding(id, _, _, _) => DecideProgresses(p, s0, s, now);
    case Finishing(id, job, ch, resume) => FinishProgresses(p, s0, s, now);
    case _ => AskingProgresses(p, s0, s, now);
  }

  lemma AskingProgresses(p: Policy, s0: System, s: System, now: int)
    requires Progress(s0, s) && (s.proc.Redoing? || s.proc.Resolving? || s.proc.Probing?)
    ensures Progress(s0, Worked(p, s, false, now))
  {
    var n := Worked(p, s, false, now);
    assert n.store == s.store && n.catalog == s.catalog;
    hide Worked, Complete, SameRow;
    forall x | x in s0.store.ops && Store.Unfinished(s0.store.ops[x].status) ensures OnCourse(s0, n, x) {
      assert OnCourse(s0, s, x);
    }
  }

  lemma MarkProgresses(p: Policy, s0: System, s: System, now: int)
    requires Inv(p, s) && Progress(s0, s) && s.proc.Marking?
    ensures Progress(s0, Worked(p, s, false, now))
  {
    hide StoreOk, Complete, SameRow;
    var todo := s.proc.todo;
    if todo != [] {
      HeadAtWork(s.store, Ops.Running, todo);
      LiveIsDue(p, s, todo[0], Store.MARK);
      AtWorkWasUnfinished(s0, s, todo[0]);
      assert OnCourse(s0, s, todo[0]);
      MoveProgresses(p, s0, s, todo[0], Store.MARK, now, Marking(todo[1..]));
    } else {
      var n := Worked(p, s, false, now);
      forall x | x in s0.store.ops && Store.Unfinished(s0.store.ops[x].status) ensures OnCourse(s0, n, x) {
        assert OnCourse(s0, s, x);
      }
    }
  }

  lemma DecideProgresses(p: Policy, s0: System, s: System, now: int)
    requires Inv(p, s) && Progress(s0, s) && s.proc.Deciding?
    ensures Progress(s0, Worked(p, s, false, now))
  {
    hide StoreOk, Advance, SameRow;
    var Deciding(id, job, found, todo) := s.proc;
    var n := Worked(p, s, false, now);
    AtWorkWasUnfinished(s0, s, id);
    assert OnCourse(s0, s, id);
    if (!found.db && !found.role) || found == ALL {
      forall x | x in s0.store.ops && Store.Unfinished(s0.store.ops[x].status) ensures OnCourse(s0, n, x) {
        assert OnCourse(s0, s, x);
      }
    } else {
      LiveIsDue(p, s, id, Store.UNDO);
      MoveProgresses(p, s0, s, id, Store.UNDO, now,
                     Undoing(id, job, StartComp(p, job), Store.PARTIAL, ThenInterrupted(todo)));
    }
  }

  lemma FinishProgresses(p: Policy, s0: System, s: System, now: int)
    requires Inv(p, s) && Progress(s0, s) && s.proc.Finishing? && Calm(s.proc)
    ensures Progress(s0, Worked(p, s, false, now))
  {
    hide StoreOk, Progress, Advance, SameRow;
    var Finishing(id, job, ch, resume) := s.proc;
    AtWorkWasUnfinished(s0, s, id);
    assert OnCourse(s0, s, id) by { AllOnCourse(s0, s, id); }
    MoveProgresses(p, s0, s, id, ch, now, Resumed(resume));
  }

  lemma AllOnCourse(s0: System, s: System, id: nat)
    requires Progress(s0, s) && id in s0.store.ops && Store.Unfinished(s0.store.ops[id].status)
    ensures id in s.store.ops && OnCourse(s0, s, id)
  {
  }

  lemma UndoProgresses(p: Policy, s0: System, s: System, now: int)
    requires Inv(p, s0) && Inv(p, s) && Progress(s0, s) && s.proc.Undoing?
    ensures Progress(s0, Worked(p, s, false, now))
  {
    var Undoing(id, job, k, fail, resume) := s.proc;
    var n := UndoStep(p, s, false, now);
    assert LiveOk(p, s.store, s.catalog, id) && Tidy(s.catalog, job);
    AtWorkWasUnfinished(s0, s, id);
    if !k.CompEnd? {
      CompStepTracks(p, job, k, s.catalog, false);
      StepTouchesOnlyTheJob(p, InComp(job, k), s.catalog, false);
    }
    hide StoreOk, SameRow, CompTracks, StepOf, ResumeOk, SameOutside, Tidy;
    forall x | x in s0.store.ops && Store.Unfinished(s0.store.ops[x].status) ensures OnCourse(s0, n, x) {
      AllOnCourse(s0, s, x);
      if x != id && !k.CompEnd? { CourseStays(p, s0, s, id, job, n.catalog, x); }
    }
  }

  lemma {:induction false} RecoverProgresses(p: Policy, s0: System, s: System, now: int)
    requires Inv(p, s0) && Inv(p, s) && Progress(s0, s) && Calm(s.proc)
    ensures Progress(s0, Recover(p, s, now))
    decreases Phase(s.proc), Todo(s.proc), Rest(s.proc)
  {
    if !s.proc.Pruning? {
      CalmStep(p, s, now);
      CalmStepProgresses(p, s0, s, now);
      RecoverProgresses(p, s0, Worked(p, s, false, now), now);
    }
  }

  /** How Reconcile ends an operation that was unfinished in s. */
  predicate RecoveredFrom(s: System, end: System, id: nat)
    requires id in s.store.ops && id in end.store.ops
  {
    var was, op := s.store.ops[id], end.store.ops[id];
    was.result.Some? && op.result == was.result &&
    var job := OpJob(was, "");
    var here := Present(end.catalog, job);
    if Complete(s, id) then op.status == Ops.Succeeded && here == ALL && SameRow(s.catalog, end.catalog, job.database)
    else op.status == Ops.Failed && !here.role && !here.db
  }

  lemma Restarts(p: Policy, c: Catalog, events: seq<Event>)
    requires Owned(c)
    ensures var s := RunOf(p, Start(c), events);
            var restarted := Next(p, Next(p, s, Crash), Restart(false));
            Inv(p, restarted) && Calm(restarted.proc) && restarted.store == s.store && restarted.catalog == s.catalog
  {
    EveryRunKeepsInv(p, c, events);
    hide RunOf, StoreOk, ProcOk, Listing;
    StepKeepsInv(p, RunOf(p, Start(c), events), Crash);
    StepKeepsInv(p, Next(p, RunOf(p, Start(c), events), Crash), Restart(false));
  }

  /** Crash recovery. Let the process die in any reachable state, restart it, and let no
      call of Reconcile fail. It comes to its prune; each operation that had been running,
      compensating or interrupted has succeeded, with the enqueued result and its clone as it
      was at the crash, if it was not being undone and all three pieces were there, and
      otherwise has failed, with neither clone nor role left; all other operations are as
      they were. */
  lemma CrashRecovery(p: Policy, c: Catalog, events: seq<Event>, now: int)
    requires Owned(c)
    ensures var s := RunOf(p, Start(c), events);
            var restarted := Next(p, Next(p, s, Crash), Restart(false));
            Inv(p, restarted) && Calm(restarted.proc) &&
            var end := Recover(p, restarted, now);
            (forall id :: id in s.store.ops ==> id in end.store.ops) &&
            (forall id :: id in s.store.ops && Store.Unfinished(s.store.ops[id].status) ==> RecoveredFrom(s, end, id)) &&
            (forall id :: id in s.store.ops && !Store.Unfinished(s.store.ops[id].status) ==>
               end.store.ops[id] == s.store.ops[id])
  {
    hide RunOf, Inv, Next, Recover, SameRow;
    Restarts(p, c, events);
    var s := RunOf(p, Start(c), events);
    var restarted := Next(p, Next(p, s, Crash), Restart(false));
    NothingDoneYet(p, restarted);
    RecoverProgresses(p, restarted, restarted, now);
    var end := Recover(p, restarted, now);
    NothingUnfinishedWhenPruning(p, end);
    hide Progress;
    forall id | id in s.store.ops && Store.Unfinished(s.store.ops[id].status) ensures id in end.store.ops && RecoveredFrom(s, end, id) {
      AllOnCourse(restarted, end, id);
    }
    assert forall id :: id in s.store.ops && !Store.Unfinished(s.store.ops[id].status) ==>
               id in end.store.ops && end.store.ops[id] == s.store.ops[id] by { OthersUnchanged(restarted, end); }
  }

  lemma OthersUnchanged(s0: System, s: System)
    requires Progress(s0, s)
    ensures s.store.ops.Keys == s0.store.ops.Keys
    ensures forall id :: id in s0.store.ops && !Store.Unfinished(s0.store.ops[id].status) ==> s.store.ops[id] == s0.store.ops[id]
  {
  }

  lemma NothingUnfinishedWhenPruning(p: Policy, s: System)
    requires Inv(p, s) && s.proc.Pruning?
    ensures forall id :: id in s.store.ops ==> !Store.Unfinished(s.store.ops[id].status)
  {
    hide StoreOk;
    assert ThirdLoop(s.store, [], None);
    forall id | id in s.store.ops ensures !Store.Unfinished(s.store.ops[id].status) {
      assert id !in [];
    }
  }

  // ----- recovery amid other clients -----

  /** What other clients and new requests do, and calls of Reconcile that do not fail. */
  predicate Gentle(e: Event) {
    e.Others? || e.Enqueue? || (e.Work? && !e.fault)
  }

  /** An operation of s0 that was unfinished ends, or is on its way to end, as it was
      complete or not. */
  predicate OnWay(s0: System, s: System, id: nat)
    requires id in s0.store.ops
  {
    id in s.store.ops && s.store.ops[id].result == s0.store.ops[id].result &&
    if Store.Unfinished(s.store.ops[id].status) then Complete(s, id) <==> Complete(s0, id)
    else s.store.ops[id].status == if Complete(s0, id) then Ops.Succeeded else Ops.Failed
  }

  ghost predicate OnWayAll(s0: System, s: System) {
    forall id :: id in s0.store.ops && Store.Unfinished(s0.store.ops[id].status) ==> OnWay(s0, s, id)
  }

  /** A step that keeps every operation on course keeps it on its way. */
  lemma WayStays(s0: System, s: System, n: System)
    requires OnWayAll(s0, s) && Progress(s, n)
    ensures OnWayAll(s0, n)
  {
    forall id | id in s0.store.ops && Store.Unfinished(s0.store.ops[id].status) ensures OnWay(s0, n, id) {
      assert OnWay(s0, s, id);
      if Store.Unfinished(s.store.ops[id].status) { AllOnCourse(s, n, id); }
    }
  }

  lemma RecoveryStep(p: Policy, s0: System, s: System, now: int)
    requires Inv(p, s) && Calm(s.proc) && OnWayAll(s0, s)
    ensures var n := Worked(p, s, false, now); (Calm(n.proc) && OnWayAll(s0, n)) || n.proc == Idle
  {
    if !s.proc.Pruning? {
      hide Inv, Progress, Worked, OnWayAll;
      CalmStep(p, s, now);
      NothingDoneYet(p, s);
      CalmStepProgresses(p, s, s, now);
      WayStays(s0, s, Worked(p, s, false, now));
    }
  }

  /** Other clients and new requests leave everything on its way. */
  lemma OtherStep(p: Policy, s0: System, s: System, e: Event)
    requires OnWayAll(s0, s) && (e.Others? || e.Enqueue?)
    ensures OnWayAll(s0, Next(p, s, e)) && Next(p, s, e).proc == s.proc
  {
    hide Acceptable, LockList;
    forall id | id in s0.store.ops && Store.Unfinished(s0.store.ops[id].status) ensures OnWay(s0, Next(p, s, e), id) {
      assert OnWay(s0, s, id);
    }
  }

  lemma GentleStep(p: Policy, s0: System, s: System, e: Event)
    requires Inv(p, s) && Calm(s.proc) && OnWayAll(s0, s) && Gentle(e)
    ensures var n := Next(p, s, e);
            Inv(p, n) && ((Calm(n.proc) && OnWayAll(s0, n)) || n.proc == Idle)
  {
    StepKeepsInv(p, s, e);
    hide Inv, OnWayAll, Calm, Worked;
    if e.Work? { RecoveryStep(p, s0, s, e.now); } else { OtherStep(p, s0, s, e); }
  }

  lemma {:induction false} GentleRun(p: Policy, s0: System, events: seq<Event>)
    requires Inv(p, s0) && Calm(s0.proc) && forall i :: 0 <= i < |events| ==> Gentle(events[i])
    ensures var n := RunOf(p, s0, events);
            Inv(p, n) && ((Calm(n.proc) && OnWayAll(s0, n)) || n.proc == Idle)
  {
    if events != [] {
      var front := events[..|events| - 1];
      GentleRun(p, s0, front);
      var s := RunOf(p, s0, front);
      if s.proc == Idle { StepKeepsInv(p, s, events[|events| - 1]); }
      else { GentleStep(p, s0, s, events[|events| - 1]); }
    }
  }

  /** Crash recovery with other clients at work and requests coming in: when Reconcile comes
      to its prune, each operation that was unfinished at the crash has succeeded if it was
      complete then, and has failed otherwise. */
  lemma RecoveryAmidOthers(p: Policy, c: Catalog, events: seq<Event>, since: seq<Event>)
    requires Owned(c) && forall i :: 0 <= i < |since| ==> Gentle(since[i])
    requires var s := RunOf(p, Start(c), events);
             RunOf(p, Next(p, Next(p, s, Crash), Restart(false)), since).proc == Pruning
    ensures var s := RunOf(p, Start(c), events);
            var end := RunOf(p, Next(p, Next(p, s, Crash), Restart(false)), since);
            forall id :: id in s.store.ops && Store.Unfinished(s.store.ops[id].status) ==>
              id in end.store.ops && end.store.ops[id].result == s.store.ops[id].result &&
              end.store.ops[id].status == if Complete(s, id) then Ops.Succeeded else Ops.Failed
  {
    hide RunOf, Inv, Next;
    var s := RunOf(p, Start(c), events);
    var restarted := Next(p, Next(p, s, Crash), Restart(false));
    Restarts(p, c, events);
    GentleRun(p, restarted, since);
    var end := RunOf(p, restarted, since);
    NothingUnfinishedWhenPruning(p, end);
    forall id | id in s.store.ops && Store.Unfinished(s.store.ops[id].status)
      ensures id in end.store.ops && end.store.ops[id].result == s.store.ops[id].result &&
              end.store.ops[id].status == if Complete(s, id) then Ops.Succeeded else Ops.Failed
    {
      assert OnWay(restarted, end, id);
    }
  }
}
