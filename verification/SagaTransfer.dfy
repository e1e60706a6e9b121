/** Whether the ownership transfer of a clone has happened, told by the history of a run:
    what a job's clone began with, and at which catalog the transfer ran. */
module SagaTransfer {
  import opened Prelude
  import opened Catalog
  import opened Scripts
  import opened ScriptProofs
  import opened Saga
  import opened SagaProofs
  import opened SagaRecovery
  import Ops = Operations
  import Store = OperationStore

  /** base: the owners of the source's objects when the clone was made; moved: the catalog
      in which the transfer ran. */
  datatype Clone = NoClone | Cloned(base: seq<Name>, moved: Option<Catalog>)

  /** The poller is about to make this call for the job, and the call will not fail for want
      of an answer. */
  predicate Calls(s: System, e: Event, id: nat, stage: Stage) {
    e.Work? && !e.fault && s.proc.Duplicating? && s.proc.id == id && s.proc.d.Forward? && s.proc.d.stage == stage
  }

  function CloneNext(s: System, e: Event, id: nat, clone: Clone): Clone {
    if Calls(s, e, id, MakeDatabase) then
      var source := s.proc.job.source;
      if source.Some? && source.value in s.catalog.dbs then Cloned(s.catalog.dbs[source.value].objects, None) else clone
    else if Calls(s, e, id, Move) && clone.Cloned? then clone.(moved := Some(s.catalog))
    else clone
  }

  /** The history of job id's clone along a run. */
  ghost function CloneOf(p: Policy, s: System, events: seq<Event>, id: nat): Clone {
    if events == [] then NoClone
    else
      var front := events[..|events| - 1];
      CloneNext(RunOf(p, s, front), events[|events| - 1], id, CloneOf(p, s, front, id))
  }

  /** The owners of the clone's objects, as its history says. */
  function ObjectsOf(p: Policy, clone: Clone, owner: Name): seq<Name>
    requires clone.Cloned?
  {
    if clone.moved.None? then clone.base else Transferred(p, clone.moved.value, clone.base, owner)
  }

  /** Another client does not reassign the objects of the job's clone while the job lives. */
  predicate LeavesClone(s: System, e: Event, id: nat) {
    e.Others? && Live(s.store, id) && s.store.ops[id].result.Some? ==>
      var d := s.store.ops[id].result.value.database;
      d in s.catalog.dbs && d in e.catalog.dbs ==> e.catalog.dbs[d].objects == s.catalog.dbs[d].objects
  }

  ghost predicate CloneLeftAlone(p: Policy, s: System, events: seq<Event>, id: nat) {
    forall i :: 0 <= i < |events| ==> LeavesClone(RunOf(p, s, events[..i]), events[i], id)
  }

  // ----- the invariant -----

  /** Where the poller is in the script tells whether the transfer has run. */
  predicate StageFits(proc: Proc, id: nat, clone: Clone) {
    match proc
    case Duplicating(x, _, Forward(stage, _)) =>
      x == id ==> (Made(stage).db && stage != LastCheck ==> clone.Cloned? && clone.moved.None?) &&
                  (stage == LastCheck ==> clone.Cloned? && clone.moved.Some?)
    case Duplicating(x, _, Finished(failure, _, _)) => x == id && failure.None? ==> clone.Cloned? && clone.moved.Some?
    case Finishing(x, _, ch, resume) =>
      x == id && resume.Worker? && ch.to == Ops.Succeeded ==> clone.Cloned? && clone.moved.Some?
    case _ => true
  }

  predicate ObjectsFit(p: Policy, c: Catalog, r: Ops.DuplicateResult, clone: Clone) {
    r.database in c.dbs ==> clone.Cloned? && c.dbs[r.database].objects == ObjectsOf(p, clone, r.owner)
  }

  predicate CloneInv(p: Policy, s: System, id: nat, clone: Clone) {
    Live(s.store, id) && s.store.ops[id].result.Some? ==>
      ObjectsFit(p, s.catalog, s.store.ops[id].result.value, clone) && StageFits(s.proc, id, clone)
  }

  // ----- one call of a script -----

  /** What a call of the job's own script does to its clone. */
  lemma CallMovesObjects(p: Policy, j: Job, d: Dup, c: Catalog)
    requires d.Forward? && Callable(j, d) && j.source.Some? && j.database in Perform(p, c, DupCall(p, j, d)).0.dbs
    requires Made(d.stage).db == (j.database in c.dbs)
    ensures var (c', reply) := Perform(p, c, DupCall(p, j, d));
            c'.dbs[j.database].objects ==
              if d.stage == MakeDatabase && j.source.value in c.dbs then c.dbs[j.source.value].objects
              else if d.stage == Move && j.database in c.dbs then Transferred(p, c, c.dbs[j.database].objects, j.owner)
              else if j.database in c.dbs then c.dbs[j.database].objects else []
  {
    hide Transferred, SourceError;
  }

  lemma UndoKeepsObjects(p: Policy, j: Job, call: Call, c: Catalog, fault: bool)
    requires call in {DeleteCredential(j.owner), DropIfExists(j.database), OwnedDatabaseCount(j.owner), DropRole(j.owner),
                      DatabaseExists(j.database), RoleExists(j.owner), SavedRole(j.owner)}
    requires j.database in Attempt(p, c, call, fault).0.dbs
    ensures SameRow(c, Attempt(p, c, call, fault).0, j.database)
  {
    hide Transferred, OwnedBy;
  }

  // ----- one step of the system -----

  lemma AdvanceBefore(s: System, x: nat, ch: Ops.Change, now: int, fault: bool, next: Proc, broken: Proc, id: nat)
    requires Ops.Terminal(ch.to) || ch.result.None?
    ensures var n := Advance(s, x, ch, now, fault, next, broken);
            Live(n.store, id) ==> Live(s.store, id) && s.store.ops[id].result == n.store.ops[id].result
  {
  }

  /** A row that is live after a step was so before, with the same result, or is new. */
  lemma LiveBefore(p: Policy, s: System, e: Event, id: nat)
    requires Inv(p, s) && Live(Next(p, s, e).store, id)
    ensures id in s.store.ops ==> Live(s.store, id) && s.store.ops[id].result == Next(p, s, e).store.ops[id].result
    ensures id !in s.store.ops ==>
              e.Enqueue? && Next(p, s, e).store.ops[id].status == Ops.Queued &&
              Next(p, s, e).proc == s.proc && Next(p, s, e).catalog == s.catalog
  {
    hide StoreOk, Tracks, CompTracks, Honest, Expected, SecondLoop, ThirdLoop, ResumeOk, Exactly, StepOf, Callable, Advance;
    match e
    case Claim(x, token, fault, now) =>
      if x in s.store.ops && s.store.ops[x].result.Some? {
        var job := OpJob(s.store.ops[x], token);
        AdvanceBefore(s, x, CLAIM, now, fault, Duplicating(x, job, StartDup(p, job)), Idle, id);
      }
    case Work(fault, now) => WorkBefore(p, s, fault, now, id);
    case _ =>
  }

  lemma WorkBefore(p: Policy, s: System, fault: bool, now: int, id: nat)
    requires Inv(p, s) && Live(Worked(p, s, fault, now).store, id)
    ensures Live(s.store, id) && s.store.ops[id].result == Worked(p, s, fault, now).store.ops[id].result
  {
    hide StoreOk, Tracks, CompTracks, Honest, Expected, SecondLoop, ThirdLoop, ResumeOk, Exactly, StepOf, Callable, Advance, Ops.Pruned, StartComp;
    match s.proc
    case Failing(x, job, d) =>
      if d.Finished? && d.failure.Some? {
        var e := d.failure.value;
        AdvanceBefore(s, x, FAIL, now, fault,
           if Skips(e) then Finishing(x, job, WorkerEnd(true, Reason(e)), Worker(d))
           else Undoing(x, job, StartComp(p, job), Reason(e), Worker(d)), Idle, id);
      }
    case Finishing(x, _, ch, resume) => AdvanceBefore(s, x, ch, now, fault, Resumed(resume), Broken(resume), id);
    case Marking(todo) =>
      if todo != [] { AdvanceBefore(s, todo[0], Store.MARK, now, fault, Marking(todo[1..]), Down, id); }
    case Deciding(x, job, found, todo) =>
      AdvanceBefore(s, x, Store.UNDO, now, fault, Undoing(x, job, StartComp(p, job), Store.PARTIAL, ThenInterrupted(todo)), Down, id);
    case Pruning => Ops.PruneKeepsTheLive(s.store, now);
    case _ =>
  }

  lemma CatalogKept(p: Policy, s: System, e: Event)
    requires !e.Others? && !(e.Work? && (s.proc.Duplicating? || s.proc.Undoing?))
    ensures Next(p, s, e).catalog == s.catalog
  {
  }

  /** The poller is only ever at work on the job with the enqueued names. */
  lemma JobAtWork(p: Policy, s: System, id: nat)
    requires Inv(p, s) && Live(s.store, id) && s.store.ops[id].result.Some?
    requires (s.proc.Duplicating? || s.proc.Undoing?) && s.proc.id == id
    ensures s.proc.job == OpJob(s.store.ops[id], s.proc.job.token)
    ensures s.proc.Duplicating? ==> Tracks(p, s.proc.job, s.proc.d, s.catalog)
  {
    hide StoreOk, Tracks, CompTracks, ResumeOk, Expected;
  }

  /** Another job's call leaves this job's clone. */
  lemma OtherCallKeepsRow(p: Policy, s: System, x: nat, job: Job, c': Catalog, id: nat)
    requires StoreOk(p, s.store, s.catalog) && Live(s.store, id) && Live(s.store, x) && x != id
    requires s.store.ops[x].result.Some? && job == OpJob(s.store.ops[x], job.token)
    requires SameOutside(s.catalog, c', job.database, job.owner)
    ensures s.store.ops[id].result.Some? &&
            var d := s.store.ops[id].result.value.database;
            d in c'.dbs ==> SameRow(s.catalog, c', d)
  {
    LiveJobsDiffer(p, s, x, id);
    hide StoreOk;
    var d := s.store.ops[id].result.value.database;
    if d in c'.dbs {
      assert d in c'.dbs - {job.database} && d in s.catalog.dbs - {job.database};
      RowOfAnother(s.catalog, c', job.database, job.owner, d);
    }
  }

  lemma ScriptKeepsOthersFit(p: Policy, s: System, e: Event, id: nat, clone: Clone)
    requires Inv(p, s) && CloneInv(p, s, id, clone) && Live(s.store, id) && s.store.ops[id].result.Some?
    requires e.Work? && (s.proc.Duplicating? || s.proc.Undoing?) && s.proc.id != id
    ensures ObjectsFit(p, Next(p, s, e).catalog, s.store.ops[id].result.value, clone)
  {
    hide Tracks, CompTracks, ResumeOk, Expected, StoreOk, StepOf;
    var x, job := s.proc.id, s.proc.job;
    assert Live(s.store, x) && job == OpJob(s.store.ops[x], job.token);
    var n := Next(p, s, e);
    if n.catalog != s.catalog {
      StepTouchesOnlyTheJob(p, if s.proc.Duplicating? then InDup(job, s.proc.d) else InComp(job, s.proc.k), s.catalog, e.fault);
      OtherCallKeepsRow(p, s, x, job, n.catalog, id);
    }
  }

  /** Where the script may go on after a forward stage. */
  lemma ForwardGoesOn(p: Policy, j: Job, d: Dup, reply: Reply)
    requires d.Forward? && Callable(j, d) && j.source.Some?
    ensures var n := DupNext(p, j, d, reply);
            (n.Forward? ==> !reply.Failure?) &&
            (n.Forward? && Made(n.stage).db && n.stage != LastCheck ==>
               d.stage == MakeDatabase || (Made(d.stage).db && d.stage != LastCheck && d.stage != Move)) &&
            (n.Forward? && n.stage == LastCheck ==> d.stage == Move) &&
            (n.Finished? && n.failure.None? ==> d.stage == LastCheck)
  {
    hide SourceError;
  }

  /** One call of the poller. */
  lemma DuplicateNext(p: Policy, s: System, e: Event)
    requires e.Work? && s.proc.Duplicating? && !s.proc.d.Finished? && Callable(s.proc.job, s.proc.d)
    ensures var Duplicating(id, job, d) := s.proc;
            var (c, reply) := Attempt(p, s.catalog, DupCall(p, job, d), e.fault);
            Next(p, s, e) == s.(catalog := c, proc := Duplicating(id, job, DupNext(p, job, d, reply)))
  {
    hide Perform, Attempt, DupNext, DupCall;
  }

  /** What a forward call does to the clone is what the history notes. */
  lemma HistoryFits(p: Policy, s: System, e: Event, job: Job, d: Dup, clone: Clone)
    requires e.Work? && s.proc.Duplicating? && s.proc.job == job && s.proc.d == d
    requires d.Forward? && Callable(job, d) && job.source.Some? && Present(s.catalog, job).db == Made(d.stage).db
    requires var r := ResultOf(job); ObjectsFit(p, s.catalog, r, clone) && StageFits(s.proc, s.proc.id, clone)
    ensures ObjectsFit(p, Attempt(p, s.catalog, DupCall(p, job, d), e.fault).0, ResultOf(job), CloneNext(s, e, s.proc.id, clone))
  {
    if !e.fault {
      SourceGone(p, job, d, s.catalog);
      if job.database in Perform(p, s.catalog, DupCall(p, job, d)).0.dbs { CallMovesObjects(p, job, d, s.catalog); }
    }
    hide Perform, Transferred, DupCall;
  }

  /** A call of the forward part. */
  lemma ForwardKeepsClone(p: Policy, s: System, e: Event, id: nat, clone: Clone)
    requires Inv(p, s) && CloneInv(p, s, id, clone) && Live(s.store, id) && s.store.ops[id].result.Some?
    requires e.Work? && s.proc.Duplicating? && s.proc.id == id && s.proc.d.Forward?
    ensures var n := Next(p, s, e);
            ObjectsFit(p, n.catalog, s.store.ops[id].result.value, CloneNext(s, e, id, clone)) &&
            StageFits(n.proc, id, CloneNext(s, e, id, clone))
  {
    hide Inv, Transferred, OwnedBy, Expected, SHAPES, DupNext, DupCall, Attempt, Next;
    JobAtWork(p, s, id);
    var Duplicating(_, job, d) := s.proc;
    var reply := Attempt(p, s.catalog, DupCall(p, job, d), e.fault).1;
    DuplicateNext(p, s, e);
    ForwardGoesOn(p, job, d, reply);
    FaultFails(p, s.catalog, DupCall(p, job, d));
    SourceGone(p, job, d, s.catalog);
    HistoryFits(p, s, e, job, d, clone);
    if d.stage == MakeDatabase && !e.fault && Next(p, s, e).proc.d.Forward? {
      NotFailed(p, s.catalog, DupCall(p, job, d));
    }
    hide ObjectsFit;
  }

  lemma FaultFails(p: Policy, c: Catalog, call: Call)
    ensures Attempt(p, c, call, true).1.Failure?
  {
  }

  lemma NotFailed(p: Policy, c: Catalog, call: Call)
    ensures Attempt(p, c, call, false) == Perform(p, c, call)
  {
  }

  /** Nothing is cloned from a source that is gone. */
  lemma SourceGone(p: Policy, j: Job, d: Dup, c: Catalog)
    requires d.Forward? && Callable(j, d) && j.source.Some?
    ensures d.stage == MakeDatabase && j.source.value !in c.dbs ==> Perform(p, c, DupCall(p, j, d)).1.Failure?
  {
  }

  lemma UndoKeepsClone(p: Policy, s: System, e: Event, id: nat, clone: Clone)
    requires Inv(p, s) && CloneInv(p, s, id, clone) && Live(s.store, id) && s.store.ops[id].result.Some?
    requires e.Work? && ((s.proc.Duplicating? && !s.proc.d.Forward?) || s.proc.Undoing?) && s.proc.id == id
    ensures var n := Next(p, s, e);
            ObjectsFit(p, n.catalog, s.store.ops[id].result.value, clone) && StageFits(n.proc, id, clone)
  {
    JobAtWork(p, s, id);
    hide Inv, StoreOk, ProcOk, Tracks, OwnedBy, Expected, SHAPES;
    var job := s.proc.job;
    var n := Next(p, s, e);
    var script := if s.proc.Duplicating? then InDup(job, s.proc.d) else InComp(job, s.proc.k);
    if n.catalog != s.catalog && job.database in n.catalog.dbs {
      UndoKeepsObjects(p, job, CallOf(p, script), s.catalog, e.fault);
    }
  }

  /** A new row has no clone, and nobody is at work on it. */
  lemma NewJobFits(p: Policy, s: System, e: Event, id: nat, clone: Clone)
    requires Inv(p, s) && Live(Next(p, s, e).store, id) && id !in s.store.ops
    ensures CloneInv(p, Next(p, s, e), id, CloneNext(s, e, id, clone))
  {
    LiveBefore(p, s, e, id);
    StepKeepsInv(p, s, e);
    var n := Next(p, s, e);
    assert LiveOk(p, n.store, n.catalog, id);
    hide StoreOk, Next, Tracks, CompTracks, Honest, Expected, ResumeOk, Exactly;
  }

  /** Steps that leave the catalog and this job's place in the script alone. */
  lemma IdleStepFits(p: Policy, s: System, e: Event, id: nat, clone: Clone)
    requires Inv(p, s) && CloneInv(p, s, id, clone) && Live(s.store, id) && s.store.ops[id].result.Some?
    requires !(e.Work? && (s.proc.Duplicating? || s.proc.Undoing?) && s.proc.id == id)
    ensures StageFits(Next(p, s, e).proc, id, clone)
  {
    hide StoreOk, Tracks, CompTracks, Honest, Expected, SecondLoop, ThirdLoop, ResumeOk, Exactly, StepOf, Callable, Ops.Pruned, Ops.Transitioned;
  }

  lemma StepKeepsClone(p: Policy, s: System, e: Event, id: nat, clone: Clone)
    requires Inv(p, s) && CloneInv(p, s, id, clone) && LeavesClone(s, e, id)
    ensures CloneInv(p, Next(p, s, e), id, CloneNext(s, e, id, clone))
  {
    var n := Next(p, s, e);
    if Live(n.store, id) {
      if id !in s.store.ops {
        NewJobFits(p, s, e, id, clone);
      } else {
        LiveBefore(p, s, e, id);
        HasResult(p, s, id);
        if e.Work? && (s.proc.Duplicating? || s.proc.Undoing?) && s.proc.id == id {
          if s.proc.Duplicating? && s.proc.d.Forward? { ForwardKeepsClone(p, s, e, id, clone); }
          else { UndoKeepsClone(p, s, e, id, clone); }
        } else {
          IdleStepFits(p, s, e, id, clone);
          if e.Work? && (s.proc.Duplicating? || s.proc.Undoing?) { ScriptKeepsOthersFit(p, s, e, id, clone); }
          else if !e.Others? { CatalogKept(p, s, e); }
        }
        hide Inv, Worked, Claimed, StageFits, Ops.Inserted;
      }
    }
  }

  /** Along every run from the first start the objects of a live job's clone are those of its
      source when the clone was made, transferred if and only if the transfer has run. */
  lemma {:induction false} EveryRunFits(p: Policy, c: Catalog, events: seq<Event>, id: nat)
    requires Owned(c) && CloneLeftAlone(p, Start(c), events, id)
    ensures CloneInv(p, RunOf(p, Start(c), events), id, CloneOf(p, Start(c), events, id))
  {
    if events != [] {
      var n := |events| - 1;
      var front := events[..n];
      assert events[..n] == front && forall i :: 0 <= i < n ==> front[..i] == events[..i] && front[i] == events[i];
      EveryRunFits(p, c, front, id);
      EveryRunKeepsInv(p, c, front);
      hide Inv, CloneInv, LeavesClone, Next;
      StepKeepsClone(p, RunOf(p, Start(c), front), events[n], id, CloneOf(p, Start(c), front, id));
    }
  }

  // ----- what succeeded says of the transfer -----

  /** All objects belong where the transfer would put them. */
  predicate NothingToMove(p: Policy, c: Catalog, objects: seq<Name>, owner: Name) {
    forall i :: 0 <= i < |objects| ==> SkipsTransfer(p, c, objects[i]) || objects[i] == owner
  }

  lemma TransferIsNeeded(p: Policy, c: Catalog, objects: seq<Name>, owner: Name)
    ensures Transferred(p, c, objects, owner) == objects <==> NothingToMove(p, c, objects, owner)
    ensures Transferred(p, c, Transferred(p, c, objects, owner), owner) == Transferred(p, c, objects, owner)
  {
    hide SkipsTransfer;
    var moved := Transferred(p, c, objects, owner);
    if moved == objects {
      forall i | 0 <= i < |objects| ensures SkipsTransfer(p, c, objects[i]) || objects[i] == owner {
        assert moved[i] == objects[i];
      }
    }
  }

  /** The transfer has run, in the given catalog or, if it has not, by accident of the start. */
  predicate TransferDone(p: Policy, c: Catalog, clone: Clone, objects: seq<Name>, owner: Name) {
    clone.Cloned? && objects == Transferred(p, if clone.moved.Some? then clone.moved.value else c, clone.base, owner)
  }

  /** When succeeded is written, by the poller or by Reconcile: the clone's objects are those
      of the source, handed over exactly when the transfer had run. They are where the
      transfer puts them if and only if it ran or there was nothing to move; and it did run
      when it is the poller that writes succeeded. */
  lemma SuccessIsTransferredIff(p: Policy, c: Catalog, events: seq<Event>, e: Event, id: nat)
    requires Owned(c) && CloneLeftAlone(p, Start(c), events, id)
    requires var s := RunOf(p, Start(c), events);
             Live(s.store, id) && id in Next(p, s, e).store.ops && Next(p, s, e).store.ops[id].status == Ops.Succeeded
    ensures var s := RunOf(p, Start(c), events);
            var n := Next(p, s, e);
            var clone := CloneOf(p, Start(c), events, id);
            s.store.ops[id].result.Some? && s.proc.Finishing? &&
            var r := s.store.ops[id].result.value;
            clone.Cloned? && r.database in n.catalog.dbs &&
            var objects := n.catalog.dbs[r.database].objects;
            objects == ObjectsOf(p, clone, r.owner) &&
            (TransferDone(p, n.catalog, clone, objects, r.owner) <==>
               clone.moved.Some? || NothingToMove(p, n.catalog, clone.base, r.owner)) &&
            (s.proc.resume.Worker? ==> clone.moved.Some?)
  {
    EveryRunKeepsInv(p, c, events);
    EveryRunFits(p, c, events, id);
    hide RunOf, CloneOf;
    var s := RunOf(p, Start(c), events);
    var clone := CloneOf(p, Start(c), events, id);
    OnlyFinishingEnds(p, s, e, id);
    SuccessIsComplete(p, s, e, id);
    var r := s.store.ops[id].result.value;
    if clone.Cloned? { TransferIsNeeded(p, s.catalog, clone.base, r.owner); }
    FinishingChange(p, s, e, id);
    hide Inv, Next;
  }

  lemma FinishingChange(p: Policy, s: System, e: Event, id: nat)
    requires Inv(p, s) && Live(s.store, id) && s.proc.Finishing? && s.proc.id == id && e.Work?
    requires id in Next(p, s, e).store.ops && Next(p, s, e).store.ops[id] == Ops.Updated(s.store.ops[id], s.proc.change, e.now)
    ensures Next(p, s, e).store.ops[id].status == s.proc.change.to
  {
  }

  lemma RowIsSame(a: Catalog, b: Catalog, d: Name)
    requires SameRow(a, b, d)
    ensures d in a.dbs && d in b.dbs && b.dbs[d].objects == a.dbs[d].objects
  {
  }

  /** And after a crash at any point: the clone of a complete job ends as it was at the crash,
      so that a job ends succeeded with its transfer done if and only if it was complete and
      the transfer had run before the crash, or there was nothing to move. */
  lemma RecoveredTransferIff(p: Policy, c: Catalog, events: seq<Event>, id: nat, now: int)
    requires Owned(c) && CloneLeftAlone(p, Start(c), events, id)
    requires var s := RunOf(p, Start(c), events); id in s.store.ops && Store.Unfinished(s.store.ops[id].status)
    ensures var s := RunOf(p, Start(c), events);
            var restarted := Next(p, Next(p, s, Crash), Restart(false));
            var clone := CloneOf(p, Start(c), events, id);
            Inv(p, restarted) && Calm(restarted.proc) &&
            var end := Recover(p, restarted, now);
            s.store.ops[id].result.Some? && id in end.store.ops &&
            var r := s.store.ops[id].result.value;
            (end.store.ops[id].status == Ops.Succeeded <==> Complete(s, id)) &&
            (Complete(s, id) ==>
               clone.Cloned? && r.database in end.catalog.dbs &&
               var objects := end.catalog.dbs[r.database].objects;
               objects == ObjectsOf(p, clone, r.owner) &&
               (TransferDone(p, s.catalog, clone, objects, r.owner) <==>
                  clone.moved.Some? || NothingToMove(p, s.catalog, clone.base, r.owner)))
  {
    hide RunOf, CloneOf, Next, Recover, NothingToMove, Transferred, StageFits, SameRow, Inv, Calm, CloneLeftAlone;
    EveryRunFits(p, c, events, id);
    CrashRecovery(p, c, events, now);
    var s := RunOf(p, Start(c), events);
    var clone := CloneOf(p, Start(c), events, id);
    var end := Recover(p, Next(p, Next(p, s, Crash), Restart(false)), now);
    assert RecoveredFrom(s, end, id);
    var r := s.store.ops[id].result.value;
    if clone.Cloned? { TransferIsNeeded(p, s.catalog, clone.base, r.owner); }
    if Complete(s, id) { RowIsSame(s.catalog, end.catalog, r.database); }
  }

  /** What a crash in the forward part of the script decides: the job is complete from the
      transfer on, and transferred after it. */
  lemma CrashStageDecides(p: Policy, c: Catalog, events: seq<Event>, id: nat)
    requires Owned(c) && CloneLeftAlone(p, Start(c), events, id)
    requires var s := RunOf(p, Start(c), events); s.proc.Duplicating? && s.proc.id == id && s.proc.d.Forward?
    ensures var s := RunOf(p, Start(c), events);
            var clone := CloneOf(p, Start(c), events, id);
            var stage := s.proc.d.stage;
            id in s.store.ops &&
            (Complete(s, id) <==> stage == Move || stage == LastCheck) &&
            (Made(stage).db ==> clone.Cloned? && (clone.moved.Some? <==> stage == LastCheck))
  {
    EveryRunKeepsInv(p, c, events);
    EveryRunFits(p, c, events, id);
    hide RunOf, CloneOf, StoreOk;
    var s := RunOf(p, Start(c), events);
    assert Present(s.catalog, OpJob(s.store.ops[id], "")) == Present(s.catalog, s.proc.job);
  }
}
