/** The SQLite-backed store of internal/operations/store.go. Its two tables are fields,
    each transaction is one step that either commits or fails without effect, and
    Reconcile loops over id lists as the Go code does. */
module OperationStore {
  import opened Prelude
  import opened Operations

  datatype ProbeReply = ProbeFailed | Outcome(clone: bool, role: bool, vault: bool, indeterminate: bool)

  const INCOMPLETE: OperationError := OperationError("compensation_incomplete", "Compensation did not finish.")
  const NO_PROBE: OperationError := OperationError("probe_unavailable", "Probe could not determine duplicate state.")
  const UNKNOWN: OperationError := OperationError("probe_indeterminate", "Probe could not determine duplicate state.")
  const NOTHING_MADE: OperationError := OperationError("duplicate_incomplete", "Duplicate did not create a database.")
  const PARTIAL: OperationError := OperationError("duplicate_incomplete", "Duplicate was incomplete.")

  /** What the interfaces handed to Reconcile answer for each operation; None is nil. */
  datatype Recovery = Recovery(probe: Option<nat -> ProbeReply>, compensator: Option<nat -> bool>)

  datatype Verdict = Unclear(error: OperationError) | NothingMade | Complete | Partial

  function Judge(r: Recovery, id: nat): Verdict {
    if r.probe.None? then Unclear(NO_PROBE)
    else
      match r.probe.value(id)
      case ProbeFailed => Unclear(UNKNOWN)
      case Outcome(clone, role, vault, indeterminate) =>
        if indeterminate then Unclear(UNKNOWN)
        else if !clone && !role then NothingMade
        else if clone && role && vault then Complete
        else Partial
  }

  predicate Compensates(r: Recovery, id: nat) {
    r.compensator.None? || r.compensator.value(id)
  }

  const MARK: Change := Change(Running, Interrupted, None, None, None, None, None, false)
  const UNDO: Change := Change(Interrupted, Compensating, Some(Undoing), None, None, None, None, false)

  /** The row after the first loop of Reconcile. */
  function Marked(op: Operation, now: int): Operation {
    if op.status == Running then Updated(op, MARK, now) else op
  }

  function Settle(to: Status, error: OperationError, now: int): Change {
    Change(Interrupted, to, None, None, Some(error), None, Some(now), false)
  }

  function Succeed(result: DuplicateResult, now: int): Change {
    Change(Interrupted, Succeeded, Some(Vaulting), Some(result), None, None, Some(now), false)
  }

  function Finish(ok: bool, fail: OperationError, now: int): Change {
    if ok then Change(Compensating, Failed, Some(Undoing), None, Some(fail), None, Some(now), false)
    else Change(Compensating, Indeterminate, Some(Undoing), None, Some(INCOMPLETE), None, Some(now), true)
  }

  ghost predicate Enumerates(rows: seq<ResourceLock>, locks: set<ResourceLock>) {
    |rows| == |locks| && forall k :: k in rows <==> k in locks
  }

  /** The end of an interrupted operation, as the probe and the compensator decide it. */
  ghost predicate EndOfInterrupted(op: Operation, end: Operation, held: set<ResourceLock>, r: Recovery, now: int) {
    match Judge(r, op.id)
    case Unclear(e) => end == Updated(op, Settle(Indeterminate, e, now), now)
    case NothingMade => end == Updated(op, Settle(Failed, NOTHING_MADE, now), now)
    case Complete =>
      exists rows :: Enumerates(rows, held) && end == Updated(op, Succeed(ResultFrom(op.target, rows), now), now)
    case Partial => end == Updated(Updated(op, UNDO, now), Finish(Compensates(r, op.id), PARTIAL, now), now)
  }

  /** What Reconcile makes of one operation row. */
  ghost predicate EndOf(op: Operation, end: Operation, held: set<ResourceLock>, r: Recovery, now: int) {
    match op.status
    case Running => EndOfInterrupted(Updated(op, MARK, now), end, held, r, now)
    case Interrupted => EndOfInterrupted(op, end, held, r, now)
    case Compensating => end == Updated(op, Finish(Compensates(r, op.id), INCOMPLETE, now), now)
    case _ => end == op
  }

  /** The operations of done are marked, and nothing else has changed. */
  ghost predicate MarkedIn(base: Table, cur: Table, done: set<nat>, now: int) {
    ValidTable(base) && cur.locks == base.locks && cur.ops.Keys == base.ops.Keys &&
    forall id :: id in base.ops ==> cur.ops[id] == if id in done then Marked(base.ops[id], now) else base.ops[id]
  }

  lemma NothingMarked(base: Table, now: int)
    requires ValidTable(base)
    ensures MarkedIn(base, base, Elements([][..0]), now)
  {
  }

  lemma NotYetMarked(base: Table, cur: Table, ids: seq<nat>, i: nat, now: int)
    requires i < |ids| && MarkedIn(base, cur, Elements(ids[..i]), now) && ids[i] in base.ops && base.ops[ids[i]].status == Running
    requires forall j :: 0 <= j < i ==> ids[j] != ids[i]
    ensures ids[i] in cur.ops && cur.ops[ids[i]] == base.ops[ids[i]] && Due(cur, ids[i], MARK)
  {
  }

  lemma MarkOne(base: Table, before: Table, after: Table, done: set<nat>, id: nat, now: int)
    requires MarkedIn(base, before, done, now) && id in base.ops && before.ops[id] == base.ops[id]
    requires base.ops[id].status == Running && after.locks == before.locks
    requires after.ops == before.ops[id := Updated(base.ops[id], MARK, now)]
    ensures MarkedIn(base, after, done + {id}, now)
  {
  }

  lemma MarkedIsValid(base: Table, cur: Table, done: set<nat>, now: int)
    requires MarkedIn(base, cur, done, now)
    ensures ValidTable(cur) && cur.locks == base.locks && cur.ops.Keys == base.ops.Keys
  {
  }

  lemma AllMarked(base: Table, cur: Table, ids: seq<nat>, now: int)
    requires MarkedIn(base, cur, Elements(ids), now)
    requires forall id :: id in ids <==> id in base.ops && base.ops[id].status == Running
    ensures forall id :: id in base.ops ==> cur.ops[id] == Marked(base.ops[id], now)
  {
    forall id | id in base.ops ensures cur.ops[id] == Marked(base.ops[id], now) {
      if base.ops[id].status == Running { assert id in ids; }
    }
  }

  predicate Unfinished(s: Status) { s == Running || s == Interrupted || s == Compensating }

  /** The operation's locks are dropped: it was unfinished and did not end with KeepLocks. */
  predicate Releases(op: Operation, r: Recovery) {
    match op.status
    case Running => !Judge(r, op.id).Partial? || Compensates(r, op.id)
    case Interrupted => !Judge(r, op.id).Partial? || Compensates(r, op.id)
    case Compensating => Compensates(r, op.id)
    case _ => false
  }

  predicate ValidTable(t: Table) {
    (forall id :: id in t.ops ==> t.ops[id].id == id && ValidId(id)) &&
    (forall k :: k in t.locks ==> t.locks[k] in t.ops)
  }

  /** Table cur is table base with exactly the operations of done brought to their end. */
  ghost predicate Settled(base: Table, cur: Table, done: set<nat>, r: Recovery, now: int) {
    cur.ops.Keys == base.ops.Keys &&
    (forall id :: id in base.ops ==>
       if id in done then EndOf(base.ops[id], cur.ops[id], LocksOf(base, id), r, now)
       else cur.ops[id] == base.ops[id]) &&
    (forall k :: k in cur.locks <==>
       k in base.locks && !(base.locks[k] in done && base.locks[k] in base.ops && Releases(base.ops[base.locks[k]], r))) &&
    (forall k :: k in cur.locks ==> cur.locks[k] == base.locks[k])
  }

  /** The whole table brought to its end. */
  ghost predicate Reconciled(base: Table, end: Table, r: Recovery, now: int) {
    Settled(base, end, base.ops.Keys, r, now)
  }

  lemma EndIsFinal(op: Operation, end: Operation, held: set<ResourceLock>, r: Recovery, now: int)
    requires EndOf(op, end, held, r, now)
    ensures !Unfinished(end.status)
    ensures op.status == Queued ==> end == op
    ensures Unfinished(op.status) ==> Terminal(end.status)
    ensures end.id == op.id
  {
  }

  /** After a successful Reconcile no operation is running, compensating or interrupted,
      and the queued ones are as they were. */
  lemma ReconcileIsComplete(base: Table, end: Table, r: Recovery, now: int)
    requires Reconciled(base, end, r, now)
    ensures var p := Pruned(end, now);
            (forall id :: id in p.ops ==> !Unfinished(p.ops[id].status)) &&
            (forall id :: id in base.ops && base.ops[id].status == Queued ==> id in p.ops && p.ops[id] == base.ops[id])
  {
    PruneKeepsTheLive(end, now);
    forall id | id in base.ops
      ensures !Unfinished(end.ops[id].status) && (base.ops[id].status == Queued ==> end.ops[id] == base.ops[id])
    {
      EndIsFinal(base.ops[id], end.ops[id], LocksOf(base, id), r, now);
    }
  }

  lemma NothingToReconcile(t: Table, end: Table, r: Recovery, now: int)
    requires Reconciled(t, end, r, now) && forall id :: id in t.ops ==> !Unfinished(t.ops[id].status)
    ensures end == t
  {
    forall id | id in t.ops ensures end.ops[id] == t.ops[id] {
      assert EndOf(t.ops[id], end.ops[id], LocksOf(t, id), r, now);
    }
    assert end.ops == t.ops;
    assert end.locks == t.locks;
  }

  /** Reconciling again at the same instant changes nothing, whatever the probe and the
      compensator say the second time. */
  lemma SecondReconcileChangesNothing(base: Table, end: Table, r: Recovery, again: Table, r2: Recovery, now: int)
    requires Reconciled(base, end, r, now) && Reconciled(Pruned(end, now), again, r2, now)
    ensures Pruned(again, now) == Pruned(end, now)
  {
    hide Pruned, Reconciled;
    ReconcileIsComplete(base, end, r, now);
    NothingToReconcile(Pruned(end, now), again, r2, now);
    PruneIsIdempotent(end, now);
  }

  /** A recovered success carries the triple it was enqueued with. */
  lemma RecoveredResultIsTheJob(op: Operation, end: Operation, job: DuplicateResult, r: Recovery, now: int)
    requires op.status == Running || op.status == Interrupted
    requires op.target == job.database && job.source != job.database && job.owner != ""
    requires EndOf(op, end, JobLocks(job), r, now)
    ensures end.status == Succeeded <==> Judge(r, op.id) == Complete
    ensures end.status == Succeeded ==> end.result == Some(job)
  {
    if Judge(r, op.id) == Complete {
      var was := Marked(op, now);
      var rows :| Enumerates(rows, JobLocks(job)) && end == Updated(was, Succeed(ResultFrom(was.target, rows), now), now);
      ResultFromAnyRowOrder(job, rows);
    }
  }

  /** Locks outlive Reconcile only on a compensation that failed. */
  lemma ReleasesUnlessUndoFailed(op: Operation, end: Operation, held: set<ResourceLock>, r: Recovery, now: int)
    requires EndOf(op, end, held, r, now) && Unfinished(op.status)
    ensures !Releases(op, r) <==> end.status == Indeterminate && end.error == Some(INCOMPLETE)
  {
  }

  /** How the probe's answer decides the end of an operation that a dead process was running
      or had interrupted, told without the verdict. What it finds half made is the
      compensator's: if that succeeds the operation failed, and otherwise its end is unknown
      and its locks stay. */
  lemma ProbeDecidesEnd(op: Operation, end: Operation, held: set<ResourceLock>, r: Recovery, now: int)
    requires EndOf(op, end, held, r, now) && (op.status == Running || op.status == Interrupted)
    ensures r.probe.None? ==>
              end.status == Indeterminate && Releases(op, r) &&
              end.error == Some(OperationError("probe_unavailable", "Probe could not determine duplicate state."))
    ensures r.probe.Some? ==>
      match r.probe.value(op.id)
      case ProbeFailed =>
        end.status == Indeterminate && Releases(op, r) &&
        end.error == Some(OperationError("probe_indeterminate", "Probe could not determine duplicate state."))
      case Outcome(clone, role, vault, indeterminate) =>
        if indeterminate then
          end.status == Indeterminate && Releases(op, r) &&
          end.error == Some(OperationError("probe_indeterminate", "Probe could not determine duplicate state."))
        else if !(clone || role) then
          end.status == Failed && Releases(op, r) &&
          end.error == Some(OperationError("duplicate_incomplete", "Duplicate did not create a database."))
        else if clone && role && vault then
          end.status == Succeeded && Releases(op, r) && end.error.None?
        else if r.compensator.None? || r.compensator.value(op.id) then
          end.status == Failed && Releases(op, r) &&
          end.error == Some(OperationError("duplicate_incomplete", "Duplicate was incomplete."))
        else
          end.status == Indeterminate && !Releases(op, r) &&
          end.error == Some(OperationError("compensation_incomplete", "Compensation did not finish."))
    ensures end.finishedAt == Some(now) && (end.status != Succeeded ==> end.result == op.result)
    ensures end == op.(status := end.status, phase := end.phase, result := end.result, error := end.error, updatedAt := now,
                       finishedAt := Some(now))
  {
  }

  /** A compensation that a dead process had begun is begun again, and decides the end. */
  lemma CompensatorDecidesEnd(op: Operation, end: Operation, held: set<ResourceLock>, r: Recovery, now: int)
    requires EndOf(op, end, held, r, now) && op.status == Compensating
    ensures if r.compensator.None? || r.compensator.value(op.id) then end.status == Failed && Releases(op, r)
            else end.status == Indeterminate && !Releases(op, r)
    ensures end.error == Some(OperationError("compensation_incomplete", "Compensation did not finish."))
  {
  }

  lemma SettleOne(base: Table, before: Table, after: Table, done: set<nat>, id: nat, r: Recovery, now: int)
    requires ValidTable(base) && Settled(base, before, done, r, now)
    requires id in base.ops && id !in done
    requires after.ops.Keys == before.ops.Keys
    requires forall x :: x in before.ops && x != id ==> after.ops[x] == before.ops[x]
    requires EndOf(base.ops[id], after.ops[id], LocksOf(base, id), r, now)
    requires after.locks == if Releases(base.ops[id], r) then WithoutLocksOf(before.locks, id) else before.locks
    ensures Settled(base, after, done + {id}, r, now)
  {
  }

  lemma SettledKeys(base: Table, cur: Table, done: set<nat>, r: Recovery, now: int)
    requires Settled(base, cur, done, r, now)
    ensures cur.ops.Keys == base.ops.Keys
  {
  }

  lemma UntilSettled(base: Table, cur: Table, done: set<nat>, id: nat, r: Recovery, now: int)
    requires Settled(base, cur, done, r, now) && id in base.ops && id !in done
    ensures id in cur.ops && cur.ops[id] == base.ops[id] && LocksOf(cur, id) == LocksOf(base, id)
  {
  }

  /** Marking the running operations first does not change where anything ends. */
  lemma MarkedThenSettled(base: Table, marked: Table, end: Table, r: Recovery, now: int)
    requires ValidTable(base)
    requires marked.ops.Keys == base.ops.Keys && marked.locks == base.locks
    requires forall id :: id in base.ops ==> marked.ops[id] == Marked(base.ops[id], now)
    requires Reconciled(marked, end, r, now)
    ensures Reconciled(base, end, r, now)
  {
    forall id | id in base.ops ensures EndOf(base.ops[id], end.ops[id], LocksOf(base, id), r, now) {
      assert LocksOf(marked, id) == LocksOf(base, id);
      assert EndOf(marked.ops[id], end.ops[id], LocksOf(marked, id), r, now);
    }
    forall k | k in base.locks ensures Releases(base.ops[base.locks[k]], r) == Releases(marked.ops[base.locks[k]], r) {
    }
  }

  /** Operations that are neither compensating nor interrupted end as they are. */
  lemma RestIsSettled(base: Table, cur: Table, done: set<nat>, r: Recovery, now: int)
    requires ValidTable(base) && Settled(base, cur, done, r, now)
    requires forall id :: id in base.ops && Unfinished(base.ops[id].status) ==> id in done
    ensures Reconciled(base, cur, r, now)
  {
  }

  /** One more lock row: it collides exactly when the list cannot be inserted. */
  lemma LockRow(held: map<ResourceLock, nat>, wanted: seq<ResourceLock>, i: nat, id: nat)
    requires i < |wanted| && LocksFree(held, wanted[..i])
    ensures var rows := WithLocks(held, wanted[..i], id);
            if wanted[i] in rows then !LocksFree(held, wanted)
            else LocksFree(held, wanted[..i + 1]) && WithLocks(held, wanted[..i + 1], id) == rows[wanted[i] := id]
  {
    LockSetStep(wanted, i);
    LockRowRefused(held, wanted, i);
    hide LockSet;
  }

  lemma LockSetStep(wanted: seq<ResourceLock>, i: nat)
    requires i < |wanted|
    ensures LockSet(wanted[..i + 1]) == LockSet(wanted[..i]) + {wanted[i]}
  {
  }

  lemma LockRowRefused(held: map<ResourceLock, nat>, wanted: seq<ResourceLock>, i: nat)
    requires i < |wanted| && LocksFree(held, wanted[..i])
    ensures wanted[i] in held || wanted[i] in LockSet(wanted[..i]) ==> !LocksFree(held, wanted)
    ensures !(wanted[i] in held || wanted[i] in LockSet(wanted[..i])) ==> LocksFree(held, wanted[..i + 1])
  {
    if wanted[i] in LockSet(wanted[..i]) {
      var j :| 0 <= j < i && wanted[..i][j] == wanted[i];
      assert wanted[j] == wanted[i];
    }
  }

  /** The row is there, in the status the change starts from. */
  predicate Due(t: Table, id: nat, ch: Change) {
    ValidId(id) && id in t.ops && t.ops[id].status == ch.from && LegalEdge(ch.from, ch.to) &&
    (ch.keepLocks ==> ch.to == Indeterminate) && (ch.to == Succeeded ==> ch.result.Some?)
  }

  lemma DueMoves(t: Table, id: nat, ch: Change, now: int)
    requires Due(t, id, ch)
    ensures Transitioned(t, id, ch, now) ==
      (Table(t.ops[id := Updated(t.ops[id], ch, now)],
             if Terminal(ch.to) && !ch.keepLocks then WithoutLocksOf(t.locks, id) else t.locks), None)
  {
    LegalEdgeRises(ch.from, ch.to);
  }

  lemma WithoutOneMore(t: Table, gone: set<nat>, id: nat)
    ensures var cur := WithoutIds(t, gone);
            Table(cur.ops - {id}, WithoutLocksOf(cur.locks, id)) == WithoutIds(t, gone + {id})
  {
    assert (t.ops - gone) - {id} == t.ops - (gone + {id});
  }

  class Store {
    var ops: map<nat, Operation>
    var locks: map<ResourceLock, nat>
    /** Which of the storage transactions fail, and how many have been tried. */
    const fails: nat -> bool
    var tries: nat

    constructor (fails: nat -> bool)
      ensures State() == Table(map[], map[]) && this.fails == fails
    {
      ops, locks, tries := map[], map[], 0;
      this.fails := fails;
    }

    function State(): Table
      reads this
    {
      Table(ops, locks)
    }

    method Begin() returns (ok: bool)
      modifies this`tries
      ensures State() == old(State())
    {
      ok := !fails(tries);
      tries := tries + 1;
    }

    /** One transaction: the operation row, then its lock rows; any failure rolls all back. */
    method InsertQueued(r: Request, wanted: seq<ResourceLock>, now: int) returns (err: Option<StoreError>)
      modifies this
      ensures err != Some(StorageFailed) ==> (State(), err) == Inserted(old(State()), r, wanted, now)
      ensures err == Some(StorageFailed) ==> State() == old(State())
    {
      if !ValidId(r.id) { return Some(InvalidId); }
      if r.action != Duplicate || Blank(r.actor) || Blank(r.request) { return Some(StoreConflict); }
      for i := 0 to |wanted|
        invariant State() == old(State())
        invariant forall j :: 0 <= j < i ==> !Blank(wanted[j].name)
      {
        if Blank(wanted[i].name) { return Some(StoreConflict); }
      }
      var ok := Begin();
      if !ok { return Some(StorageFailed); }
      if r.id in ops { return Some(StoreConflict); }
      var rows := locks;
      for i := 0 to |wanted|
        invariant State() == old(State())
        invariant LocksFree(locks, wanted[..i])
        invariant rows == WithLocks(locks, wanted[..i], r.id)
      {
        LockRow(locks, wanted, i, r.id);
        if wanted[i] in rows { return Some(LockHeld); }
        rows := rows[wanted[i] := r.id];
      }
      assert wanted[..|wanted|] == wanted;
      ops := ops[r.id := QueuedOperation(r, now)];
      locks := rows;
      return None;
    }

    method Transition(id: nat, ch: Change, now: int) returns (err: Option<StoreError>)
      modifies this
      ensures err != Some(StorageFailed) ==> (State(), err) == Transitioned(old(State()), id, ch, now)
      ensures err == Some(StorageFailed) ==> State() == old(State())
      ensures Due(old(State()), id, ch) ==> err.None? || err == Some(StorageFailed)
      ensures Due(old(State()), id, ch) && err.None? ==>
        ops == old(ops)[id := Updated(old(ops)[id], ch, now)] &&
        locks == if Terminal(ch.to) && !ch.keepLocks then WithoutLocksOf(old(locks), id) else old(locks)
    {
      if !ValidId(id) { return Some(InvalidId); }
      if !LegalEdge(ch.from, ch.to) { return Some(IllegalEdge); }
      if ch.keepLocks && ch.to != Indeterminate { return Some(IllegalEdge); }
      var ok := Begin();
      if !ok { return Some(StorageFailed); }
      if id !in ops { return Some(NotFound); }
      var current := ops[id];
      if current.status == ch.to { return None; }
      if current.status != ch.from { return Some(IllegalEdge); }
      if ch.to == Succeeded && ch.result.None? { return Some(UnsafeResult); }
      ops := ops[id := Updated(current, ch, now)];
      if Terminal(ch.to) && !ch.keepLocks {
        locks := WithoutLocksOf(locks, id);
      }
      return None;
    }

    /** SELECT id ... WHERE status = ?, in no particular order. */
    method IdsByStatus(status: Status) returns (ids: seq<nat>, err: Option<StoreError>)
      modifies this`tries
      ensures err.None? || err == Some(StorageFailed)
      ensures err.None? ==>
        (forall id :: id in ids <==> id in ops && ops[id].status == status) &&
        (forall i, j :: 0 <= i < j < |ids| ==> ids[i] != ids[j])
    {
      ids := [];
      var ok := Begin();
      if !ok { return [], Some(StorageFailed); }
      var rest := set id | id in ops && ops[id].status == status;
      while rest != {}
        invariant forall id :: id in ops && ops[id].status == status <==> id in ids || id in rest
        invariant forall id :: id in rest ==> id !in ids
        invariant forall i, j :: 0 <= i < j < |ids| ==> ids[i] != ids[j]
        decreases rest
      {
        var id :| id in rest;
        ids, rest := ids + [id], rest - {id};
      }
      return ids, None;
    }

    /** SELECT resource_kind, resource_name ..., in no particular order. */
    method LocksFor(id: nat) returns (rows: seq<ResourceLock>, err: Option<StoreError>)
      modifies this`tries
      ensures err.None? || err == Some(StorageFailed)
      ensures err.None? ==> Enumerates(rows, LocksOf(State(), id))
    {
      rows := [];
      var ok := Begin();
      if !ok { return [], Some(StorageFailed); }
      var all := set k | k in locks && locks[k] == id;
      var rest := all;
      while rest != {}
        invariant rest <= all && |rows| == |all| - |rest|
        invariant forall k :: k in rows <==> k in all && k !in rest
        decreases rest
      {
        var k :| k in rest;
        rows, rest := rows + [k], rest - {k};
      }
      return rows, None;
    }

    method FinishCompensation(id: nat, r: Recovery, now: int, fail: OperationError) returns (err: Option<StoreError>)
      requires ValidTable(State()) && id in ops && ops[id].status == Compensating
      modifies this
      ensures ValidTable(State())
      ensures err.None? || err == Some(StorageFailed)
      ensures err.None? ==> ops == old(ops)[id := Updated(old(ops[id]), Finish(Compensates(r, id), fail, now), now)]
      ensures err.None? ==> locks == if Compensates(r, id) then WithoutLocksOf(old(locks), id) else old(locks)
      ensures err.Some? ==> State() == old(State())
    {
      if r.compensator.Some? {
        var ok := Begin();
        if !ok { return Some(StorageFailed); }
        if !r.compensator.value(id) {
          err := Transition(id, Finish(false, fail, now), now);
          return;
        }
      }
      err := Transition(id, Finish(true, fail, now), now);
    }

    method ResolveInterrupted(id: nat, r: Recovery, now: int) returns (err: Option<StoreError>)
      requires ValidTable(State()) && id in ops && ops[id].status == Interrupted
      modifies this
      ensures ValidTable(State())
      ensures err.None? || err == Some(StorageFailed)
      ensures ops.Keys == old(ops.Keys) && forall x :: x in ops && x != id ==> ops[x] == old(ops)[x]
      ensures err.None? ==> EndOf(old(ops[id]), ops[id], LocksOf(old(State()), id), r, now)
      ensures err.None? ==> locks == if Releases(old(ops[id]), r) then WithoutLocksOf(old(locks), id) else old(locks)
      ensures err.Some? ==> locks == old(locks) && ops[id] in {old(ops[id]), Updated(old(ops[id]), UNDO, now)}
    {
      if r.probe.None? {
        err := Transition(id, Settle(Indeterminate, NO_PROBE, now), now);
        return;
      }
      var ok := Begin();
      if !ok { return Some(StorageFailed); }
      var op := ops[id];
      var outcome := r.probe.value(id);
      if outcome.ProbeFailed? || outcome.indeterminate {
        err := Transition(id, Settle(Indeterminate, UNKNOWN, now), now);
        return;
      }
      if outcome.vault && !outcome.clone && !outcome.role {
        err := Transition(id, Settle(Failed, NOTHING_MADE, now), now);
        return;
      }
      var created := 0;
      if outcome.clone { created := created + 1; }
      if outcome.role { created := created + 1; }
      if outcome.vault { created := created + 1; }
      if created == 0 {
        err := Transition(id, Settle(Failed, NOTHING_MADE, now), now);
      } else if created == 3 {
        var rows;
        rows, err := LocksFor(id);
        if err.Some? { return; }
        err := Transition(id, Succeed(ResultFrom(op.target, rows), now), now);
      } else {
        err := Transition(id, UNDO, now);
        if err.Some? { return; }
        err := FinishCompensation(id, r, now, PARTIAL);
      }
    }

    /** DELETE ... WHERE id = ?, for each id of a list, inside the prune's transaction. */
    method DeleteEach(ids: seq<nat>)
      modifies this
      ensures State() == WithoutIds(old(State()), Elements(ids))
    {
      ghost var start := State();
      assert WithoutIds(start, {}) == start;
      for i := 0 to |ids|
        invariant State() == WithoutIds(start, Elements(ids[..i]))
      {
        ElementsStep(ids, i);
        WithoutOneMore(start, Elements(ids[..i]), ids[i]);
        locks := WithoutLocksOf(locks, ids[i]);
        ops := ops - {ids[i]};
      }
      assert ids[..|ids|] == ids;
    }

    /** DELETE of the expired rows, then of the oldest terminal rows beyond the limit. */
    method PruneTerminal(now: int) returns (err: Option<StoreError>)
      modifies this
      ensures err.None? || err == Some(StorageFailed)
      ensures State() == if err.None? then Pruned(old(State()), now) else old(State())
    {
      hide OldestFirst, ExpiredIds;
      var ok := Begin();
      if !ok { return Some(StorageFailed); }
      ghost var start := State();
      var expired := ExpiredIds(ops, now - TERMINAL_RETENTION);
      locks := map k | k in locks && locks[k] !in expired :: locks[k];
      ops := ops - expired;
      ghost var kept := State();
      assert kept == WithoutIds(start, expired);
      var ids := OldestFirst(ops, TerminalIds(ops));
      var overflow := |ids| - MAX_TERMINAL_OPERATIONS;
      if overflow > 0 {
        DeleteEach(ids[..overflow]);
      } else {
        assert Elements(ids[..0]) == {};
        assert WithoutIds(kept, {}) == kept;
      }
      return None;
    }

    /** First loop of Reconcile: what a dead process was running is interrupted. */
    method MarkRunning(now: int) returns (err: Option<StoreError>)
      requires ValidTable(State())
      modifies this
      ensures ValidTable(State()) && locks == old(locks) && ops.Keys == old(ops.Keys)
      ensures err.None? || err == Some(StorageFailed)
      ensures err.None? ==> forall id :: id in ops ==> ops[id] == Marked(old(ops)[id], now)
    {
      hide MarkedIn, Elements;
      ghost var base := State();
      var running;
      running, err := IdsByStatus(Running);
      if err.Some? { return; }
      NothingMarked(base, now);
      for i := 0 to |running|
        invariant err.None? && MarkedIn(base, State(), Elements(running[..i]), now)
      {
        var id := running[i];
        assert id in running;
        NotYetMarked(base, State(), running, i, now);
        ghost var before := State();
        err := Transition(id, MARK, now);
        if err.Some? {
          MarkedIsValid(base, before, Elements(running[..i]), now);
          return;
        }
        MarkOne(base, before, State(), Elements(running[..i]), id, now);
        ElementsStep(running, i);
      }
      assert running[..|running|] == running;
      MarkedIsValid(base, State(), Elements(running), now);
      AllMarked(base, State(), running, now);
    }

    /** Second loop: compensations that a dead process had begun are begun again. */
    method FinishCompensating(r: Recovery, now: int) returns (err: Option<StoreError>, ghost done: set<nat>)
      requires ValidTable(State())
      modifies this
      ensures ValidTable(State())
      ensures err.None? || err == Some(StorageFailed)
      ensures err.None? ==> Settled(old(State()), State(), done, r, now)
      ensures err.None? ==> forall id :: id in done <==> id in old(ops) && old(ops)[id].status == Compensating
    {
      hide Finish;
      ghost var base := State();
      done := {};
      var ids;
      ids, err := IdsByStatus(Compensating);
      if err.Some? { return; }
      for i := 0 to |ids|
        invariant err.None? && ValidTable(State())
        invariant done == Elements(ids[..i]) && Settled(base, State(), done, r, now)
      {
        var id := ids[i];
        assert id in ids && id !in done;
        ghost var before := State();
        err := FinishCompensation(id, r, now, INCOMPLETE);
        if err.Some? { return; }
        SettleOne(base, before, State(), done, id, r, now);
        ElementsStep(ids, i);
        done := done + {id};
      }
      assert ids[..|ids|] == ids;
    }

    /** Third loop: each interrupted operation is resolved by the probe. */
    method ResolveEach(r: Recovery, now: int, ghost base: Table, ghost first: set<nat>)
      returns (err: Option<StoreError>, ghost done: set<nat>)
      requires ValidTable(State()) && ValidTable(base) && Settled(base, State(), first, r, now)
      requires forall id :: id in first && id in ops ==> ops[id].status != Interrupted
      modifies this
      ensures ValidTable(State())
      ensures err.None? || err == Some(StorageFailed)
      ensures err.None? ==> Settled(base, State(), done, r, now)
      ensures err.None? ==>
        forall id :: id in done <==> id in first || (id in old(ops) && old(ops)[id].status == Interrupted)
    {
      hide EndOf, Releases, Settled, ValidTable;
      done := first;
      var ids;
      ids, err := IdsByStatus(Interrupted);
      if err.Some? { return; }
      forall k | 0 <= k < |ids| ensures ids[k] in base.ops && base.ops[ids[k]].status == Interrupted {
        assert ids[k] in ids;
        SettledKeys(base, State(), first, r, now);
        UntilSettled(base, State(), first, ids[k], r, now);
      }
      for i := 0 to |ids|
        invariant err.None? && ValidTable(State())
        invariant done == first + Elements(ids[..i]) && Settled(base, State(), done, r, now)
        invariant forall k :: i <= k < |ids| ==> ids[k] in base.ops && base.ops[ids[k]].status == Interrupted
      {
        var id := ids[i];
        assert id in ids && id !in done;
        ghost var before := State();
        UntilSettled(base, before, done, id, r, now);
        err := ResolveInterrupted(id, r, now);
        if err.Some? { return; }
        SettleOne(base, before, State(), done, id, r, now);
        ElementsStep(ids, i);
        done := done + {id};
      }
      assert ids[..|ids|] == ids;
    }

    /** Brings every operation that a dead process left behind to a terminal state. On
        success the new table is the prune of `settled`, the old table with every
        unfinished operation at its end; the only possible failure is a storage one. */
    method Reconcile(r: Recovery, now: int) returns (err: Option<StoreError>, ghost settled: Table)
      requires ValidTable(State())
      modifies this
      ensures err.None? || err == Some(StorageFailed)
      ensures err.None? ==> Reconciled(old(State()), settled, r, now) && State() == Pruned(settled, now)
      ensures ValidTable(State())
    {
      ghost var base := State();
      settled := base;
      err := MarkRunning(now);
      if err.Some? { return; }
      ghost var marked := State();
      ghost var done;
      err, done := FinishCompensating(r, now);
      if err.Some? { return; }
      err, done := ResolveEach(r, now, marked, done);
      if err.Some? { return; }
      settled := State();
      RestIsSettled(marked, settled, done, r, now);
      MarkedThenSettled(base, marked, settled, r, now);
      err := PruneTerminal(now);
    }
  }
}
