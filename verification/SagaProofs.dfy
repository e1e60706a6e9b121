/** Every step of the saga keeps its invariant, and what follows for whole runs. */
module SagaProofs {
  import opened Prelude
  import opened Catalog
  import opened Scripts
  import opened ScriptProofs
  import opened Saga
  import Ops = Operations
  import Store = OperationStore

  // ----- frames -----

  /** Two live operations have different target databases and different roles. */
  lemma LiveJobsDiffer(p: Policy, s: System, a: nat, b: nat)
    requires StoreOk(p, s.store, s.catalog) && Live(s.store, a) && Live(s.store, b) && a != b
    ensures LiveOk(p, s.store, s.catalog, a) && LiveOk(p, s.store, s.catalog, b)
    ensures var ra, rb := s.store.ops[a].result.value, s.store.ops[b].result.value;
            ra.database != rb.database && ra.owner != rb.owner
  {
    var ra, rb := s.store.ops[a].result.value, s.store.ops[b].result.value;
    assert Ops.ResourceLock(Ops.DatabaseKind, ra.database) in Ops.LocksOf(s.store, a);
    assert Ops.ResourceLock(Ops.RoleKind, ra.owner) in Ops.LocksOf(s.store, a);
    assert Ops.LocksOf(s.store, a) !! Ops.LocksOf(s.store, b);
  }

  lemma OtherJobKept(c: Catalog, c': Catalog, j: Job, other: Job)
    requires SameOutside(c, c', j.database, j.owner)
    requires other.database != j.database && other.owner != j.owner
    requires j.database in c.dbs ==> c.dbs[j.database].owner == j.owner
    requires j.database in c'.dbs ==> c'.dbs[j.database].owner == j.owner
    ensures Present(c', other) == Present(c, other) && OwnedBy(c', other.owner) == OwnedBy(c, other.owner)
    ensures Tidy(c, other) ==> Tidy(c', other)
  {
    forall d ensures d in OwnedBy(c', other.owner) <==> d in OwnedBy(c, other.owner) {
      if d != j.database {
        assert d in c.dbs <==> d in c.dbs - {j.database};
        assert d in c'.dbs <==> d in c'.dbs - {j.database};
        if d in c.dbs { assert (c.dbs - {j.database})[d] == (c'.dbs - {j.database})[d]; }
      }
    }
    assert other.owner in c.roles <==> other.owner in c.roles - {j.owner};
    assert other.owner in c'.roles <==> other.owner in c'.roles - {j.owner};
    assert other.owner in c.vault <==> other.owner in c.vault - {j.owner};
    assert other.owner in c'.vault <==> other.owner in c'.vault - {j.owner};
    assert other.database in c.dbs <==> other.database in c.dbs - {j.database};
    assert other.database in c'.dbs <==> other.database in c'.dbs - {j.database};
    if Tidy(c, other) && other.database in c'.dbs {
      assert (c.dbs - {j.database})[other.database] == (c'.dbs - {j.database})[other.database];
    }
  }

  /** A step of operation id's script keeps every other live operation as it is. */
  lemma ScriptStepFrame(p: Policy, s: System, id: nat, job: Job, c': Catalog)
    requires StoreOk(p, s.store, s.catalog) && Live(s.store, id)
    requires s.store.ops[id].result.Some? && job == OpJob(s.store.ops[id], job.token)
    requires SameOutside(s.catalog, c', job.database, job.owner) && Tidy(c', job) && Owned(c')
    requires s.store.ops[id].status != Ops.Queued
    ensures StoreOk(p, s.store, c')
  {
    var n := s.(catalog := c');
    assert LiveOk(p, s.store, s.catalog, id);
    forall x | x in n.store.ops && Live(n.store, x) ensures LiveOk(p, n.store, n.catalog, x) {
      assert LiveOk(p, s.store, s.catalog, x);
      if x != id {
        LiveJobsDiffer(p, s, id, x);
        OtherJobKept(s.catalog, c', job, OpJob(s.store.ops[x], ""));
      }
    }
  }

  /** A due transition of a live operation keeps the store in order. */
  lemma MoveFrame(p: Policy, s: System, id: nat, ch: Ops.Change, now: int)
    requires StoreOk(p, s.store, s.catalog) && Store.Due(s.store, id, ch) && (!Ops.Terminal(ch.to) ==> ch.result.None?)
    ensures var (t, err) := Ops.Transitioned(s.store, id, ch, now);
            err.None? && t.ops.Keys == s.store.ops.Keys && t.ops[id] == Ops.Updated(s.store.ops[id], ch, now) &&
            (forall x :: x in t.ops && x != id ==> t.ops[x] == s.store.ops[x]) &&
            StoreOk(p, t, s.catalog)
  {
    Store.DueMoves(s.store, id, ch, now);
    var t := Ops.Transitioned(s.store, id, ch, now).0;
    var n := s.(store := t);
    assert LiveOk(p, s.store, s.catalog, id) by { Ops.LegalEdgeRises(ch.from, ch.to); }
    forall x | x in n.store.ops && Live(n.store, x) ensures LiveOk(p, n.store, n.catalog, x) {
      assert LiveOk(p, s.store, s.catalog, x);
      if x != id || !Ops.Terminal(ch.to) {
        assert Ops.LocksOf(t, x) == Ops.LocksOf(s.store, x);
      }
    }
  }

  /** Live operations are in order, and a change from their status is due. */
  lemma LiveIsDue(p: Policy, s: System, id: nat, ch: Ops.Change)
    requires StoreOk(p, s.store, s.catalog) && Live(s.store, id)
    requires ch.from == s.store.ops[id].status && Ops.LegalEdge(ch.from, ch.to) && !ch.keepLocks && ch.to != Ops.Succeeded
    ensures LiveOk(p, s.store, s.catalog, id) && Store.Due(s.store, id, ch)
  {
  }

  /** Whatever a live operation left, CompensateDuplicate can start on it. */
  lemma LiveCanBeUndone(p: Policy, s: System, id: nat)
    requires StoreOk(p, s.store, s.catalog) && Live(s.store, id)
    ensures s.store.ops[id].result.Some?
    ensures var job := OpJob(s.store.ops[id], "");
            CompTracks(p, job, StartComp(p, job), s.catalog)
  {
    assert LiveOk(p, s.store, s.catalog, id);
  }

  // ----- the poller -----

  lemma ClaimKeepsInv(p: Policy, s: System, id: nat, token: string, fault: bool, now: int)
    requires Inv(p, s)
    ensures Inv(p, Claimed(p, s, id, token, fault, now))
  {
    var n := Claimed(p, s, id, token, fault, now);
    if n.store != s.store || n.proc != s.proc {
      assert LiveOk(p, s.store, s.catalog, id);
      if !fault {
        MoveFrame(p, s, id, CLAIM, now);
        var job := OpJob(s.store.ops[id], token);
        assert Tracks(p, job, StartDup(p, job), s.catalog);
      }
    }
  }

  lemma DuplicateKeepsInv(p: Policy, s: System, fault: bool, now: int)
    requires Inv(p, s) && s.proc.Duplicating?
    ensures Inv(p, DuplicateStep(p, s, fault, now))
  {
    var Duplicating(id, job, d) := s.proc;
    assert LiveOk(p, s.store, s.catalog, id);
    if !d.Finished? {
      var script := InDup(job, d);
      DupStepTracks(p, job, d, s.catalog, fault);
      StepTouchesOnlyTheJob(p, script, s.catalog, fault);
      assert Counted(script, s.catalog);
      StepKeepsOwned(p, script, s.catalog, fault);
      var (n, c') := StepOf(p, script, s.catalog, fault);
      assert Held(n.dup) in SHAPES;
      ScriptStepFrame(p, s, id, job, c');
    }
  }

  /** A failed row names its error, and says that PostgreSQL is unavailable exactly when the
      error is of a kind that is compensated. */
  lemma ReasonIs(e: Error)
    ensures Reason(e).code == (match e
                               case DuplicateInProgress => "operation_in_progress"
                               case FieldError(_) => "validation_error"
                               case Conflict(_) => "conflict"
                               case Protected => "protected_resource"
                               case NotFound => "not_found"
                               case _ => "dependency_unavailable")
    ensures Reason(e).code == "dependency_unavailable" <==> !Skips(e)
  {
    assert "operation_in_progress"[0] == 'o' && "validation_error"[0] == 'v' && "conflict"[0] == 'c';
    assert "protected_resource"[0] == 'p' && "not_found"[0] == 'n' && "dependency_unavailable"[0] == 'd';
  }

  lemma FailKeepsInv(p: Policy, s: System, fault: bool, now: int)
    requires Inv(p, s) && s.proc.Failing?
    ensures Inv(p, FailStep(p, s, fault, now))
  {
    var Failing(id, job, d) := s.proc;
    assert LiveOk(p, s.store, s.catalog, id);
    if !fault {
      MoveFrame(p, s, id, FAIL, now);
    }
  }

  // ----- compensation and the last transition -----

  lemma UndoKeepsInv(p: Policy, s: System, fault: bool, now: int)
    requires Inv(p, s) && s.proc.Undoing?
    ensures Inv(p, UndoStep(p, s, fault, now))
  {
    var Undoing(id, job, k, fail, resume) := s.proc;
    assert LiveOk(p, s.store, s.catalog, id);
    if !k.CompEnd? {
      var script := InComp(job, k);
      CompStepTracks(p, job, k, s.catalog, fault);
      StepTouchesOnlyTheJob(p, script, s.catalog, fault);
      assert Counted(script, s.catalog);
      StepKeepsOwned(p, script, s.catalog, fault);
      ScriptStepFrame(p, s, id, job, StepOf(p, script, s.catalog, fault).1);
    }
  }

  lemma FinishKeepsInv(p: Policy, s: System, fault: bool, now: int)
    requires Inv(p, s) && s.proc.Finishing?
    ensures Inv(p, Worked(p, s, fault, now))
  {
    hide StoreOk, Expected;
    var Finishing(id, job, ch, resume) := s.proc;
    if !fault {
      MoveFrame(p, s, id, ch, now);
    }
  }

  // ----- Reconcile -----

  lemma ListingCovers(t: Ops.Table, status: Ops.Status)
    ensures var l := Listing(t, status);
            Exactly(t, status, l, None)
  {
  }

  /** The head of a list is the one at work. */
  lemma HeadAtWork(t: Ops.Table, status: Ops.Status, todo: seq<nat>)
    requires todo != [] && Exactly(t, status, todo, None)
    ensures todo[0] in t.ops && t.ops[todo[0]].status == status && Exactly(t, status, todo[1..], Some(todo[0]))
  {
    assert todo == [todo[0]] + todo[1..];
    assert todo[0] in todo;
  }

  /** A list survives the move of the operation at work to another status. */
  lemma MovedAway(t: Ops.Table, t': Ops.Table, status: Ops.Status, todo: seq<nat>, id: nat)
    requires Exactly(t, status, todo, Some(id)) || Exactly(t, status, todo, None)
    requires t'.ops.Keys == t.ops.Keys && (forall x :: x in t.ops && x != id ==> t'.ops[x] == t.ops[x])
    requires id in t.ops && t'.ops[id].status != status && (Exactly(t, status, todo, None) ==> t.ops[id].status != status)
    ensures Exactly(t', status, todo, None) && Exactly(t', status, todo, Some(id))
  {
  }

  lemma MarkKeepsInv(p: Policy, s: System, fault: bool, now: int)
    requires Inv(p, s) && s.proc.Marking?
    ensures Inv(p, MarkStep(s, fault, now))
  {
    var todo := s.proc.todo;
    var n := MarkStep(s, fault, now);
    hide StoreOk;
    if todo != [] && !fault {
      HeadAtWork(s.store, Ops.Running, todo);
      LiveIsDue(p, s, todo[0], Store.MARK);
      MoveFrame(p, s, todo[0], Store.MARK, now);
      MovedAway(s.store, n.store, Ops.Running, todo[1..], todo[0]);
    } else if !fault {
      ListingCovers(s.store, Ops.Compensating);
    }
  }

  lemma RedoKeepsInv(p: Policy, s: System, fault: bool)
    requires Inv(p, s) && s.proc.Redoing?
    ensures Inv(p, RedoStep(p, s, fault))
  {
    hide StoreOk, CompTracks;
    var todo := s.proc.todo;
    if todo != [] {
      HeadAtWork(s.store, Ops.Compensating, todo);
      LiveCanBeUndone(p, s, todo[0]);
    } else {
      ListingCovers(s.store, Ops.Interrupted);
    }
  }

  lemma ResolveKeepsInv(p: Policy, s: System, fault: bool)
    requires Inv(p, s) && s.proc.Resolving?
    ensures Inv(p, ResolveStep(s, fault))
  {
    hide StoreOk, CompTracks;
    var todo := s.proc.todo;
    if todo != [] {
      HeadAtWork(s.store, Ops.Interrupted, todo);
      LiveCanBeUndone(p, s, todo[0]);
    }
  }

  lemma ProbeKeepsInv(p: Policy, s: System, fault: bool, now: int)
    requires Inv(p, s) && s.proc.Probing?
    ensures Inv(p, ProbeStep(s, fault, now))
  {
    assert LiveOk(p, s.store, s.catalog, s.proc.id);
  }

  lemma {:induction false} RowsEnumerate(locks: set<Ops.ResourceLock>)
    ensures Store.Enumerates(Rows(locks), locks)
    decreases |locks|
  {
    if locks != {} {
      var k :| k in locks && Rows(locks) == [k] + Rows(locks - {k});
      RowsEnumerate(locks - {k});
    }
  }

  /** The probe and the compensator as the store is given them, for pieces found by a probe
      that met no failure. */
  function Found(found: Pieces, ok: bool): Store.Recovery {
    Store.Recovery(Some(id => Store.Outcome(found.db, found.role, found.vault, false)), Some(id => ok))
  }

  lemma DecidingRow(p: Policy, s: System)
    requires Inv(p, s) && s.proc.Deciding?
    ensures var id := s.proc.id;
            id in s.store.ops && Store.Due(s.store, id, Store.UNDO) &&
            var op := s.store.ops[id]; op.id == id && op.status == Ops.Interrupted && op.target == s.proc.job.database
  {
    assert LiveOk(p, s.store, s.catalog, s.proc.id);
  }

  /** The ends that the store has for the pieces found. */
  lemma EndByPieces(op: Ops.Operation, held: set<Ops.ResourceLock>, rows: seq<Ops.ResourceLock>, found: Pieces, ok: bool, now: int)
    requires op.status == Ops.Interrupted && Store.Enumerates(rows, held)
    ensures var r := Found(found, ok);
            if !found.db && !found.role then
              Store.EndOf(op, Ops.Updated(op, Store.Settle(Ops.Failed, Store.NOTHING_MADE, now), now), held, r, now)
            else if found == ALL then
              Store.EndOf(op, Ops.Updated(op, Store.Succeed(Ops.ResultFrom(op.target, rows), now), now), held, r, now)
            else
              Store.EndOf(op, Ops.Updated(Ops.Updated(op, Store.UNDO, now), Store.Finish(ok, Store.PARTIAL, now), now), held, r, now)
  {
    hide Ops.Updated, Ops.ResultFrom, Store.Enumerates;
  }

  /** The machine decides as the store does: what follows from the pieces it found, and from
      the compensation where one is needed, is the end that the store's Reconcile gives the
      row for the same answers. */
  lemma DecidesAsTheStore(p: Policy, s: System, now: int, ok: bool)
    requires Inv(p, s) && s.proc.Deciding?
    ensures var id := s.proc.id;
            var n := DecideStep(p, s, false, now);
            var op, held, r := s.store.ops[id], Ops.LocksOf(s.store, id), Found(s.proc.found, ok);
            id in s.store.ops && id in n.store.ops &&
            if n.proc.Undoing? then
              Store.EndOf(op, Ops.Updated(n.store.ops[id], Store.Finish(ok, n.proc.fail, now), now), held, r, now)
            else
              n.proc.Finishing? && n.store == s.store && Store.EndOf(op, Ops.Updated(op, n.proc.change, now), held, r, now)
  {
    DecidingRow(p, s);
    hide Inv, Ops.LocksOf, Ops.Transitioned, Ops.Updated, Store.Enumerates, Store.Due, Rows, StartComp, Store.EndOf, Found;
    var id := s.proc.id;
    var held := Ops.LocksOf(s.store, id);
    RowsEnumerate(held);
    EndByPieces(s.store.ops[id], held, Rows(held), s.proc.found, ok, now);
    Store.DueMoves(s.store, id, Store.UNDO, now);
  }

  lemma DecideKeepsInv(p: Policy, s: System, fault: bool, now: int)
    requires Inv(p, s) && s.proc.Deciding?
    ensures Inv(p, DecideStep(p, s, fault, now))
  {
    var Deciding(id, job, found, todo) := s.proc;
    assert LiveOk(p, s.store, s.catalog, id);
    if !found.db && !found.role {
    } else if found == ALL {
      RowsEnumerate(Ops.LocksOf(s.store, id));
      Ops.ResultFromAnyRowOrder(s.store.ops[id].result.value, Rows(Ops.LocksOf(s.store, id)));
    } else if !fault {
      MoveFrame(p, s, id, Store.UNDO, now);
    }
  }

  lemma PruneKeepsInv(p: Policy, s: System, fault: bool, now: int)
    requires Inv(p, s) && s.proc.Pruning?
    ensures Inv(p, Worked(p, s, fault, now))
  {
    hide Ops.Pruned, Tidy, Allowed;
    if !fault {
      Ops.PruneKeepsTheLive(s.store, now);
      var n := Worked(p, s, fault, now);
      forall x | x in n.store.ops && Live(n.store, x) ensures LiveOk(p, n.store, n.catalog, x) {
        assert LiveOk(p, s.store, s.catalog, x);
        assert Ops.LocksOf(n.store, x) == Ops.LocksOf(s.store, x);
      }
    }
  }

  // ----- the other events -----

  /** A newly queued operation is in order, and the others stay so. */
  lemma InsertFrame(p: Policy, s: System, r: Ops.Request, now: int)
    requires StoreOk(p, s.store, s.catalog) && Acceptable(p, s.catalog, r)
    requires Ops.Inserted(s.store, r, LockList(r.result.value), now).1.None?
    ensures var t := Ops.Inserted(s.store, r, LockList(r.result.value), now).0;
            StoreOk(p, t, s.catalog) && r.id !in s.store.ops && t.ops.Keys == s.store.ops.Keys + {r.id} &&
            t.ops[r.id].status == Ops.Queued && forall x :: x in s.store.ops ==> t.ops[x] == s.store.ops[x]
  {
    var result := r.result.value;
    var l := LockList(result);
    var t := Ops.Inserted(s.store, r, l, now).0;
    assert Ops.LockSet(l) == Ops.JobLocks(result) by {
      assert l[0] in Ops.LockSet(l) && l[1] in Ops.LockSet(l) && l[2] in Ops.LockSet(l);
    }
    assert Ops.LocksOf(t, r.id) == Ops.JobLocks(result);
    forall x | x in t.ops && Live(t, x) ensures LiveOk(p, t, s.catalog, x) {
      if x != r.id {
        assert LiveOk(p, s.store, s.catalog, x);
        assert Ops.LocksOf(t, x) == Ops.LocksOf(s.store, x);
      }
    }
  }

  lemma QueuedIsNotListed(t: Ops.Table, t': Ops.Table, id: nat, status: Ops.Status, todo: seq<nat>, current: Option<nat>)
    requires id !in t.ops && t'.ops.Keys == t.ops.Keys + {id} && t'.ops[id].status == Ops.Queued && status != Ops.Queued
    requires forall x :: x in t.ops ==> t'.ops[x] == t.ops[x]
    ensures Exactly(t, status, todo, current) ==> Exactly(t', status, todo, current)
  {
  }

  lemma EnqueueKeepsProc(p: Policy, s: System, t: Ops.Table, id: nat)
    requires ProcOk(p, s)
    requires id !in s.store.ops && t.ops.Keys == s.store.ops.Keys + {id} && t.ops[id].status == Ops.Queued
    requires forall x :: x in s.store.ops ==> t.ops[x] == s.store.ops[x]
    ensures ProcOk(p, s.(store := t))
  {
    forall status, todo, current | status != Ops.Queued && Exactly(s.store, status, todo, current)
      ensures Exactly(t, status, todo, current)
    {
      QueuedIsNotListed(s.store, t, id, status, todo, current);
    }
    hide Exactly, Tracks, CompTracks, Honest, Expected;
  }

  lemma EnqueueKeepsInv(p: Policy, s: System, r: Ops.Request, now: int)
    requires Inv(p, s)
    ensures Inv(p, Next(p, s, Enqueue(r, now)))
  {
    hide StoreOk, ProcOk;
    var n := Next(p, s, Enqueue(r, now));
    if n.store != s.store {
      InsertFrame(p, s, r, now);
      EnqueueKeepsProc(p, s, n.store, r.id);
    }
  }

  /** What the invariant says of live names does not depend on the rest of the catalog. */
  lemma UndisturbedKeepsLive(p: Policy, s: System, c: Catalog, x: nat)
    requires StoreOk(p, s.store, s.catalog) && Undisturbed(s, c) && Live(s.store, x)
    ensures LiveOk(p, s.store, c, x)
    ensures s.store.ops[x].result.Some? && SameFor(s.catalog, c, OpJob(s.store.ops[x], ""))
  {
    assert LiveOk(p, s.store, s.catalog, x);
    var job := OpJob(s.store.ops[x], "");
    if job.database in c.dbs {
      assert job.database in OwnedBy(s.catalog, job.owner);
      assert job.database in OwnedBy(c, job.owner);
    }
  }

  /** The two catalogs agree on everything the scripts of job j look at. */
  predicate SameFor(a: Catalog, b: Catalog, j: Job) {
    Present(a, j) == Present(b, j) && OwnedBy(a, j.owner) == OwnedBy(b, j.owner) &&
    (j.database in b.dbs ==> b.dbs[j.database].owner == j.owner)
  }

  lemma SameForScripts(p: Policy, a: Catalog, b: Catalog, j: Job, token: string)
    requires SameFor(a, b, j)
    ensures var k := j.(token := token);
            Present(a, k) == Present(b, k) &&
            (forall d :: Tracks(p, k, d, a) ==> Tracks(p, k, d, b)) &&
            (forall u :: CompTracks(p, k, u, a) ==> CompTracks(p, k, u, b)) &&
            (forall ch, r :: Honest(a, k, ch, r) ==> Honest(b, k, ch, r))
  {
  }

  lemma OthersKeepInv(p: Policy, s: System, c: Catalog)
    requires Inv(p, s)
    ensures Inv(p, Next(p, s, Others(c)))
  {
    if Undisturbed(s, c) {
      forall x | x in s.store.ops && Live(s.store, x) ensures LiveOk(p, s.store, c, x) {
        UndisturbedKeepsLive(p, s, c, x);
      }
      assert StoreOk(p, s.store, c);
      OthersKeepProc(p, s, c);
    }
  }

  lemma OthersKeepProc(p: Policy, s: System, c: Catalog)
    requires Inv(p, s) && Undisturbed(s, c)
    ensures ProcOk(p, s.(catalog := c))
  {
    hide StoreOk, Tracks, CompTracks, Honest, Undisturbed, Exactly, Expected;
    if s.proc.Duplicating? || s.proc.Failing? || s.proc.Undoing? || s.proc.Finishing? || s.proc.Probing? || s.proc.Deciding? {
      var id, job := s.proc.id, s.proc.job;
      assert Live(s.store, id) by {
        if s.proc.Finishing? { Ops.LegalEdgeRises(s.proc.change.from, s.proc.change.to); }
      }
      UndisturbedKeepsLive(p, s, c, id);
      SameForScripts(p, s.catalog, c, OpJob(s.store.ops[id], ""), job.token);
      assert OpJob(s.store.ops[id], "").(token := job.token) == job;
    }
  }

  lemma RestartKeepsInv(p: Policy, s: System)
    requires Inv(p, s)
    ensures Inv(p, s.(proc := Down)) && Inv(p, s.(proc := Marking(Listing(s.store, Ops.Running))))
  {
    hide StoreOk;
    ListingCovers(s.store, Ops.Running);
    ListingCovers(s.store, Ops.Compensating);
  }

  lemma WorkKeepsInv(p: Policy, s: System, fault: bool, now: int)
    requires Inv(p, s)
    ensures Inv(p, Worked(p, s, fault, now))
  {
    hide Inv, DuplicateStep, FailStep, UndoStep, MarkStep, RedoStep, ResolveStep, ProbeStep, DecideStep;
    match s.proc
    case Down =>
    case Idle =>
    case Duplicating(_, _, _) => DuplicateKeepsInv(p, s, fault, now);
    case Failing(_, _, _) => FailKeepsInv(p, s, fault, now);
    case Undoing(_, _, _, _, _) => UndoKeepsInv(p, s, fault, now);
    case Finishing(_, _, _, _) => FinishKeepsInv(p, s, fault, now);
    case Marking(_) => MarkKeepsInv(p, s, fault, now);
    case Redoing(_) => RedoKeepsInv(p, s, fault);
    case Resolving(_) => ResolveKeepsInv(p, s, fault);
    case Probing(_, _, _, _, _) => ProbeKeepsInv(p, s, fault, now);
    case Deciding(_, _, _, _) => DecideKeepsInv(p, s, fault, now);
    case Pruning => PruneKeepsInv(p, s, fault, now);
  }

  lemma StepKeepsInv(p: Policy, s: System, e: Event)
    requires Inv(p, s)
    ensures Inv(p, Next(p, s, e))
  {
    hide Inv, Claimed, Worked;
    match e
    case Enqueue(r, now) => EnqueueKeepsInv(p, s, r, now);
    case Others(c) => OthersKeepInv(p, s, c);
    case Crash => RestartKeepsInv(p, s);
    case Restart(fault) => RestartKeepsInv(p, s);
    case Claim(id, token, fault, now) => ClaimKeepsInv(p, s, id, token, fault, now);
    case Work(fault, now) => WorkKeepsInv(p, s, fault, now);
  }
}
