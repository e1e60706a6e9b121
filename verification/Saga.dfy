/** The whole duplicate-database system as a state machine: the operation store, the
    PostgreSQL catalog and one server process that may die after any call. The process
    enqueues jobs, its single poller runs them, and on restart Reconcile deals with what
    the dead process left. Other clients change the catalog between any two steps. */
module Saga {
  import opened Prelude
  import opened Catalog
  import opened Scripts
  import opened ScriptProofs
  import Ops = Operations
  import Store = OperationStore

  /** Where a compensation or a final transition returns to. */
  datatype Resume = Worker(d: Dup) | ThenCompensating(todo: seq<nat>) | ThenInterrupted(todo: seq<nat>)

  datatype Proc =
    | Down
    | Idle
    // the poller: runQueuedDuplicate and failQueuedDuplicate
    | Duplicating(id: nat, job: Job, d: Dup)
    | Failing(id: nat, job: Job, d: Dup)
    // CompensateDuplicate, and the transition that ends an operation
    | Undoing(id: nat, job: Job, k: Comp, fail: Ops.OperationError, resume: Resume)
    | Finishing(id: nat, job: Job, change: Ops.Change, resume: Resume)
    // Reconcile
    | Marking(todo: seq<nat>)
    | Redoing(todo: seq<nat>)
    | Resolving(todo: seq<nat>)
    | Probing(id: nat, job: Job, clone: Option<bool>, role: Option<bool>, todo: seq<nat>)
    | Deciding(id: nat, job: Job, found: Pieces, todo: seq<nat>)
    | Pruning

  datatype System = System(store: Ops.Table, catalog: Catalog, proc: Proc)

  datatype Event =
    | Enqueue(request: Ops.Request, now: int)
    | Others(catalog: Catalog)
    | Crash
    | Restart(fault: bool)
    | Claim(id: nat, token: string, fault: bool, now: int)
    | Work(fault: bool, now: int)

  // ----- jobs -----

  function JobFor(r: Ops.DuplicateResult, token: string): Job {
    Job(Some(r.source), r.database, r.owner, token)
  }

  /** The locks the request handler asks for, in its order. */
  function LockList(r: Ops.DuplicateResult): seq<Ops.ResourceLock> {
    [Ops.ResourceLock(Ops.DatabaseKind, r.source), Ops.ResourceLock(Ops.DatabaseKind, r.database),
     Ops.ResourceLock(Ops.RoleKind, r.owner)]
  }

  /** What the request handler checks before it enqueues; the names it takes are new. */
  predicate Acceptable(p: Policy, c: Catalog, r: Ops.Request) {
    r.result.Some? && r.target == r.result.value.database &&
    var job := JobFor(r.result.value, "");
    ValidIdentifier(job.database) && ValidIdentifier(job.owner) && ValidIdentifier(r.result.value.source) &&
    Allowed(p, job) && Present(c, job) == NOTHING && OwnedBy(c, job.owner) == {}
  }

  /** duplicateTargetNames of an operation with its full result. */
  function OpJob(op: Ops.Operation, token: string): Job
    requires op.result.Some?
  {
    JobFor(op.result.value, token)
  }

  /** skipDuplicateCompensation. */
  predicate Skips(e: Error) {
    e.Conflict? || e.FieldError? || e == DuplicateInProgress || e == NotFound || e == Protected
  }

  function Reason(e: Error): Ops.OperationError {
    match e
    case DuplicateInProgress => Ops.OperationError("operation_in_progress", "A database duplicate is already in progress.")
    case FieldError(_) => Ops.OperationError("validation_error", "Choose a different project user than the source database owner.")
    case Conflict(DatabaseField) => Ops.OperationError("conflict", "A PostgreSQL database with this name already exists")
    case Conflict(OwnerField) => Ops.OperationError("conflict", "A PostgreSQL role with this name already exists")
    case IsolationChanged =>
      Ops.OperationError("dependency_unavailable",
                         "The source database ownership or CONNECT ACL changed during duplicate. The clone was rolled back.")
    case Protected => Ops.OperationError("protected_resource", "This PostgreSQL name is protected")
    case NotFound => Ops.OperationError("not_found", "Not found")
    case _ => Ops.OperationError("dependency_unavailable", "PostgreSQL is unavailable")
  }

  // ----- steps -----

  function Listing(t: Ops.Table, status: Ops.Status): seq<nat> {
    Ops.OldestFirst(t.ops, set id | id in t.ops && t.ops[id].status == status)
  }

  const CLAIM: Ops.Change := Ops.Change(Ops.Queued, Ops.Running, Some(Ops.Cloning), None, None, None, None, false)
  const FAIL: Ops.Change := Ops.Change(Ops.Running, Ops.Compensating, Some(Ops.Undoing), None, None, None, None, false)

  function ResultOf(j: Job): Ops.DuplicateResult {
    Ops.DuplicateResult(j.database, j.owner, if j.source.Some? then j.source.value else "")
  }

  function WorkerSuccess(j: Job): Ops.Change {
    Ops.Change(Ops.Running, Ops.Succeeded, Some(Ops.Vaulting), Some(ResultOf(j)), None, None, None, false)
  }

  function WorkerEnd(ok: bool, fail: Ops.OperationError): Ops.Change {
    if ok then Ops.Change(Ops.Compensating, Ops.Failed, Some(Ops.Undoing), None, Some(fail), None, None, false)
    else Ops.Change(Ops.Compensating, Ops.Indeterminate, Some(Ops.Undoing), None, Some(Store.INCOMPLETE), None, None, true)
  }

  /** A storage error ends the poller's tick; in Reconcile it ends the process. */
  function Broken(resume: Resume): Proc { if resume.Worker? then Idle else Down }

  function Resumed(resume: Resume): Proc {
    match resume
    case Worker(_) => Idle
    case ThenCompensating(todo) => Redoing(todo)
    case ThenInterrupted(todo) => Resolving(todo)
  }

  /** One store transition: on success proc is next, on any error it is broken. */
  function Advance(s: System, id: nat, ch: Ops.Change, now: int, fault: bool, next: Proc, broken: Proc): System {
    if fault then s.(proc := broken)
    else
      var (t, err) := Ops.Transitioned(s.store, id, ch, now);
      if err.None? then s.(store := t, proc := next) else s.(proc := broken)
  }

  function Claimed(p: Policy, s: System, id: nat, token: string, fault: bool, now: int): System {
    if s.proc != Idle || id !in s.store.ops || s.store.ops[id].status != Ops.Queued then s
    else
      var op := s.store.ops[id];
      if op.result.None? then s
      else
        var job := OpJob(op, token);
        Advance(s, id, CLAIM, now, fault, Duplicating(id, job, StartDup(p, job)), Idle)
  }

  function DuplicateStep(p: Policy, s: System, fault: bool, now: int): System
    requires s.proc.Duplicating?
  {
    var Duplicating(id, job, d) := s.proc;
    if d.Finished? then
      if d.failure.Some? then s.(proc := Failing(id, job, d))
      else s.(proc := Finishing(id, job, WorkerSuccess(job), Worker(d)))
    else if !Callable(job, d) then s
    else
      var (n, c) := StepOf(p, InDup(job, d), s.catalog, fault);
      if n.InDup? then s.(catalog := c, proc := Duplicating(id, job, n.dup)) else s
  }

  function FailStep(p: Policy, s: System, fault: bool, now: int): System
    requires s.proc.Failing?
  {
    var Failing(id, job, d) := s.proc;
    if !d.Finished? || d.failure.None? then s
    else
      var e := d.failure.value;
      Advance(s, id, FAIL, now, fault,
           if Skips(e) then Finishing(id, job, WorkerEnd(true, Reason(e)), Worker(d))
           else Undoing(id, job, StartComp(p, job), Reason(e), Worker(d)), Idle)
  }

  function UndoStep(p: Policy, s: System, fault: bool, now: int): System
    requires s.proc.Undoing?
  {
    var Undoing(id, job, k, fail, resume) := s.proc;
    if k.CompEnd? then
      s.(proc := Finishing(id, job, if resume.Worker? then WorkerEnd(k.ok, fail) else Store.Finish(k.ok, fail, now), resume))
    else
      var (n, c) := StepOf(p, InComp(job, k), s.catalog, fault);
      if n.InComp? then s.(catalog := c, proc := Undoing(id, job, n.comp, fail, resume)) else s
  }

  function MarkStep(s: System, fault: bool, now: int): System
    requires s.proc.Marking?
  {
    var todo := s.proc.todo;
    if todo != [] then Advance(s, todo[0], Store.MARK, now, fault, Marking(todo[1..]), Down)
    else if fault then s.(proc := Down)
    else s.(proc := Redoing(Listing(s.store, Ops.Compensating)))
  }

  function RedoStep(p: Policy, s: System, fault: bool): System
    requires s.proc.Redoing?
  {
    var todo := s.proc.todo;
    if fault then s.(proc := Down)
    else if todo == [] then s.(proc := Resolving(Listing(s.store, Ops.Interrupted)))
    else if todo[0] !in s.store.ops || s.store.ops[todo[0]].result.None? then s.(proc := Down)
    else
      var job := OpJob(s.store.ops[todo[0]], "");
      s.(proc := Undoing(todo[0], job, StartComp(p, job), Store.INCOMPLETE, ThenCompensating(todo[1..])))
  }

  function ResolveStep(s: System, fault: bool): System
    requires s.proc.Resolving?
  {
    var todo := s.proc.todo;
    if fault then s.(proc := Down)
    else if todo == [] then s.(proc := Pruning)
    else if todo[0] !in s.store.ops || s.store.ops[todo[0]].result.None? then s.(proc := Down)
    else s.(proc := Probing(todo[0], OpJob(s.store.ops[todo[0]], ""), None, None, todo[1..]))
  }

  function ProbeStep(s: System, fault: bool, now: int): System
    requires s.proc.Probing?
  {
    var Probing(id, job, clone, role, todo) := s.proc;
    var here := Present(s.catalog, job);
    if fault then
      s.(proc := Finishing(id, job, Store.Settle(Ops.Indeterminate, Store.UNKNOWN, now), ThenInterrupted(todo)))
    else if clone.None? then s.(proc := Probing(id, job, Some(here.db), None, todo))
    else if role.None? then s.(proc := Probing(id, job, clone, Some(here.role), todo))
    else s.(proc := Deciding(id, job, Pieces(role.value, clone.value, here.vault), todo))
  }

  /** The lock rows in some order; ResultFromAnyRowOrder says that the order is immaterial. */
  ghost function Rows(locks: set<Ops.ResourceLock>): seq<Ops.ResourceLock> {
    if locks == {} then [] else var k :| k in locks; [k] + Rows(locks - {k})
  }

  ghost function DecideStep(p: Policy, s: System, fault: bool, now: int): System
    requires s.proc.Deciding?
  {
    var Deciding(id, job, found, todo) := s.proc;
    if !found.db && !found.role then
      s.(proc := Finishing(id, job, Store.Settle(Ops.Failed, Store.NOTHING_MADE, now), ThenInterrupted(todo)))
    else if found == ALL then
      if fault then s.(proc := Down)
      else s.(proc := Finishing(id, job,
             Store.Succeed(Ops.ResultFrom(job.database, Rows(Ops.LocksOf(s.store, id))), now), ThenInterrupted(todo)))
    else Advance(s, id, Store.UNDO, now, fault, Undoing(id, job, StartComp(p, job), Store.PARTIAL, ThenInterrupted(todo)), Down)
  }

  ghost function Worked(p: Policy, s: System, fault: bool, now: int): System {
    match s.proc
    case Down => s
    case Idle => s
    case Duplicating(_, _, _) => DuplicateStep(p, s, fault, now)
    case Failing(_, _, _) => FailStep(p, s, fault, now)
    case Undoing(_, _, _, _, _) => UndoStep(p, s, fault, now)
    case Finishing(id, _, ch, resume) => Advance(s, id, ch, now, fault, Resumed(resume), Broken(resume))
    case Marking(_) => MarkStep(s, fault, now)
    case Redoing(_) => RedoStep(p, s, fault)
    case Resolving(_) => ResolveStep(s, fault)
    case Probing(_, _, _, _, _) => ProbeStep(s, fault, now)
    case Deciding(_, _, _, _) => DecideStep(p, s, fault, now)
    case Pruning => if fault then s.(proc := Down) else s.(store := Ops.Pruned(s.store, now), proc := Idle)
  }

  predicate Live(t: Ops.Table, id: nat) {
    id in t.ops && !Ops.Terminal(t.ops[id].status)
  }

  /** Other clients leave alone the names that a live operation has reserved. */
  predicate Undisturbed(s: System, c: Catalog) {
    Owned(c) &&
    forall id :: id in s.store.ops && Live(s.store, id) && s.store.ops[id].result.Some? ==>
      var job := OpJob(s.store.ops[id], "");
      Present(c, job) == Present(s.catalog, job) && OwnedBy(c, job.owner) == OwnedBy(s.catalog, job.owner)
  }

  ghost function Next(p: Policy, s: System, e: Event): System {
    match e
    case Enqueue(r, now) =>
      if s.proc == Down || !Acceptable(p, s.catalog, r) then s
      else s.(store := Ops.Inserted(s.store, r, LockList(r.result.value), now).0)
    case Others(c) => if Undisturbed(s, c) then s.(catalog := c) else s
    case Crash => s.(proc := Down)
    case Restart(fault) =>
      if s.proc != Down || fault then s else s.(proc := Marking(Listing(s.store, Ops.Running)))
    case Claim(id, token, fault, now) => Claimed(p, s, id, token, fault, now)
    case Work(fault, now) => Worked(p, s, fault, now)
  }

  // ----- the invariant -----

  /** A live operation's row, locks and leftovers. */
  predicate Tidy(c: Catalog, j: Job) {
    Present(c, j) in SHAPES && OwnedBy(c, j.owner) <= {j.database} &&
    (j.database in c.dbs ==> c.dbs[j.database].owner == j.owner)
  }

  ghost predicate LiveOk(p: Policy, t: Ops.Table, c: Catalog, id: nat)
    requires id in t.ops
  {
    var op := t.ops[id];
    op.result.Some? &&
    var r := op.result.value;
    var job := JobFor(r, "");
    r.owner != "" && op.target == r.database && Allowed(p, job) &&
    Ops.LocksOf(t, id) == Ops.JobLocks(r) &&
    Tidy(c, job) && (op.status == Ops.Queued ==> Present(c, job) == NOTHING)
  }

  predicate Distinct(todo: seq<nat>) {
    forall i, j :: 0 <= i < j < |todo| ==> todo[i] != todo[j]
  }

  /** todo lists exactly the operations in a status, the one at work excepted. */
  ghost predicate Exactly(t: Ops.Table, status: Ops.Status, todo: seq<nat>, current: Option<nat>) {
    Distinct(todo) &&
    forall id :: id in todo <==> id in t.ops && t.ops[id].status == status && Some(id) != current
  }

  /** In the second loop of Reconcile. */
  ghost predicate SecondLoop(t: Ops.Table, todo: seq<nat>, current: Option<nat>) {
    Exactly(t, Ops.Running, [], None) && Exactly(t, Ops.Compensating, todo, current)
  }

  /** In the third loop of Reconcile. */
  ghost predicate ThirdLoop(t: Ops.Table, todo: seq<nat>, current: Option<nat>) {
    Exactly(t, Ops.Running, [], None) && Exactly(t, Ops.Compensating, [], current) &&
    Exactly(t, Ops.Interrupted, todo, current)
  }

  ghost predicate ResumeOk(t: Ops.Table, id: nat, resume: Resume) {
    match resume
    case Worker(_) => true
    case ThenCompensating(todo) => SecondLoop(t, todo, Some(id))
    case ThenInterrupted(todo) => ThirdLoop(t, todo, Some(id))
  }

  /** The process works on live operation id, with its job, in the given status. */
  predicate WorksOn(t: Ops.Table, id: nat, job: Job, status: Ops.Status) {
    id in t.ops && t.ops[id].status == status && t.ops[id].result.Some? && job == OpJob(t.ops[id], job.token)
  }

  /** What a final transition may claim about the catalog. */
  predicate Honest(c: Catalog, job: Job, ch: Ops.Change, resume: Resume) {
    var here := Present(c, job);
    (ch.to == Ops.Succeeded ==> here == ALL && ch.result == Some(ResultOf(job))) &&
    (ch.to != Ops.Succeeded ==> ch.result.None?) &&
    (ch.to == Ops.Failed && !resume.Worker? ==> !here.role && !here.db) &&
    (resume.Worker? && resume.d.Finished? && resume.d.failure.Some? && ch.to == Ops.Failed ==>
       if Skips(resume.d.failure.value) then here == resume.d.left else !here.role && !here.db)
  }

  ghost predicate ProcOk(p: Policy, s: System) {
    match s.proc
    case Down => true
    case Idle => true
    case Duplicating(id, job, d) => WorksOn(s.store, id, job, Ops.Running) && Tracks(p, job, d, s.catalog)
    case Failing(id, job, d) =>
      WorksOn(s.store, id, job, Ops.Running) && Tracks(p, job, d, s.catalog) && d.Finished? && d.failure.Some?
    case Undoing(id, job, k, _, resume) =>
      WorksOn(s.store, id, job, Ops.Compensating) && CompTracks(p, job, k, s.catalog) && ResumeOk(s.store, id, resume) &&
      (resume.Worker? ==> resume.d.Finished? && resume.d.failure.Some? && !Skips(resume.d.failure.value) && Expected(resume.d))
    case Finishing(id, job, ch, resume) =>
      WorksOn(s.store, id, job, ch.from) && Store.Due(s.store, id, ch) && Ops.Terminal(ch.to) &&
      Honest(s.catalog, job, ch, resume) && ResumeOk(s.store, id, resume) &&
      (resume.Worker? ==> resume.d.Finished? && Expected(resume.d) && (ch.to == Ops.Failed ==> resume.d.failure.Some?))
    case Marking(todo) => Exactly(s.store, Ops.Running, todo, None)
    case Redoing(todo) => SecondLoop(s.store, todo, None)
    case Resolving(todo) => ThirdLoop(s.store, todo, None)
    case Probing(id, job, clone, role, todo) =>
      WorksOn(s.store, id, job, Ops.Interrupted) && ThirdLoop(s.store, todo, Some(id)) &&
      (role.Some? ==> clone.Some?) &&
      (clone.Some? ==> clone.value == Present(s.catalog, job).db) && (role.Some? ==> role.value == Present(s.catalog, job).role)
    case Deciding(id, job, found, todo) =>
      WorksOn(s.store, id, job, Ops.Interrupted) && ThirdLoop(s.store, todo, Some(id)) && found == Present(s.catalog, job)
    case Pruning => ThirdLoop(s.store, [], None)
  }

  ghost predicate StoreOk(p: Policy, t: Ops.Table, c: Catalog) {
    Store.ValidTable(t) && Owned(c) &&
    forall id :: id in t.ops && Live(t, id) ==> LiveOk(p, t, c, id)
  }

  ghost predicate Inv(p: Policy, s: System) {
    StoreOk(p, s.store, s.catalog) && ProcOk(p, s)
  }
}
