/** The sequences of catalog calls of Create, Duplicate (create.go, duplicate.go),
    CompensateDuplicate (worker.go) and Drop (drop.go) as automata: a state asks for one
    call, and the reply gives the next state. A process can stop between any two calls,
    and other clients can act there. */
module Scripts {
  import opened Prelude
  import opened Catalog

  /** Job of Duplicate; Create is the same job without a source. */
  datatype Job = Job(source: Option<Name>, database: Name, owner: Name, token: string)

  /** The call a forward stage is about to make. */
  datatype Stage =
    | AskSource | AskDatabase | AskRole | AskVault | Password | LockJob | Snap
    | MakeRole | GrantSet | Terminate | MakeDatabase | Revoke | Grant | FirstCheck | Seal | SaveVault
    | Move | LastCheck

  datatype UndoStage = DeleteVault | UndoDatabase | CountOwned | UndoRole

  /** Which of the job's three pieces there are. */
  datatype Pieces = Pieces(role: bool, db: bool, vault: bool)

  const NOTHING := Pieces(false, false, false)
  const ALL := Pieces(true, true, true)

  datatype Dup =
    | Forward(stage: Stage, snap: Reply)
    | Undo(at: UndoStage, error: Error, left: Pieces, clean: bool)
    | Finished(failure: Option<Error>, left: Pieces, clean: bool)

  function Index(s: Stage): nat {
    match s
    case AskSource => 0 case AskDatabase => 1 case AskRole => 2 case AskVault => 3 case Password => 4
    case LockJob => 5 case Snap => 6 case MakeRole => 7 case GrantSet => 8 case Terminate => 9
    case MakeDatabase => 10 case Revoke => 11 case Grant => 12 case FirstCheck => 13 case Seal => 14
    case SaveVault => 15 case Move => 16 case LastCheck => 17
  }

  /** createdRole, createdDB and insertedVault when the stage begins. */
  function Made(s: Stage): Pieces {
    match s
    case GrantSet | Terminate | MakeDatabase => Pieces(true, false, false)
    case Revoke | Grant | FirstCheck | Seal | SaveVault => Pieces(true, true, false)
    case Move | LastCheck => ALL
    case _ => NOTHING
  }

  /** The checks before the first catalog call, then the first call. */
  function StartDup(p: Policy, j: Job): Dup {
    if j.source.Some? && !ValidIdentifier(j.source.value) then Stop(InvalidIdentifier)
    else if !ValidIdentifier(j.database) || !ValidIdentifier(j.owner) then Stop(InvalidIdentifier)
    else if p.DatabaseDenied(j.database) || p.OwnerDenied(j.owner) then Stop(Protected)
    else if j.source.None? then (if !p.hasVaultKey then Stop(Unavailable) else Forward(AskDatabase, Done))
    else if p.DatabaseDenied(j.source.value) then Stop(NotFound)
    else Forward(AskSource, Done)
  }

  function Stop(e: Error): Dup { Finished(Some(e), NOTHING, true) }

  /** Stages about a source belong to jobs that have one. */
  predicate HasSource(j: Job, s: Stage) {
    s in {AskSource, AskVault, LockJob, Snap, Terminate, FirstCheck, Move, LastCheck} ==> j.source.Some?
  }

  predicate Callable(j: Job, d: Dup) {
    d.Forward? ==> HasSource(j, d.stage)
  }

  function StageCall(p: Policy, j: Job, s: Stage): Call
    requires HasSource(j, s)
  {
    match s
    case AskSource => Lookup(j.source.value)
    case AskDatabase => DatabaseExists(j.database)
    case AskRole => RoleExists(j.owner)
    case AskVault => SavedRole(j.owner)
    case Password => GeneratePassword
    case LockJob => LockNames
    case Snap => OwnershipSnapshot(j.source.value)
    case MakeRole => CreateRole(j.owner)
    case GrantSet => GrantSetRole(j.owner, p.admin)
    case Terminate => TerminateSessions(j.source.value)
    case MakeDatabase =>
      if j.source.Some? then CreateFromTemplate(j.database, j.source.value, j.owner)
      else CreateDatabase(j.database, j.owner)
    case Revoke => RevokePublicConnect(j.database)
    case Grant => GrantConnect(j.database, j.owner)
    case FirstCheck => OwnershipSnapshot(j.source.value)
    case Seal => Encrypt
    case SaveVault => InsertCredential(j.owner, j.token)
    case Move => TransferOwnership(j.database, j.owner)
    case LastCheck => OwnershipSnapshot(j.source.value)
  }

  function UndoCall(j: Job, at: UndoStage): Call {
    match at
    case DeleteVault => DeleteCredential(j.owner)
    case UndoDatabase => DropIfExists(j.database)
    case CountOwned => OwnedDatabaseCount(j.owner)
    case UndoRole => DropRole(j.owner)
  }

  function DupCall(p: Policy, j: Job, d: Dup): Call
    requires !d.Finished? && Callable(j, d)
  {
    if d.Forward? then StageCall(p, j, d.stage) else UndoCall(j, d.at)
  }

  /** What PrepareDuplicate requires of the source row. */
  function SourceError(p: Policy, j: Job, row: Database, ownerRole: Role): Option<Error>
    requires j.source.Some?
  {
    if row.owner == "" || !row.allowConn || row.isTemplate then Some(NotFound)
    else if !p.Manageable(j.source.value, row) && p.DatabaseDenied(j.source.value) then Some(NotFound)
    else if ownerRole.superuser || !ownerRole.login || p.OwnerDenied(row.owner) then Some(Protected)
    else if j.owner == row.owner then Some(FieldError(OwnerField))
    else if !p.hasVaultKey then Some(Unavailable)
    else None
  }

  /** compensateCreate from the point where what is left is known. */
  function UndoFrom(p: Policy, j: Job, at: UndoStage, e: Error, left: Pieces, clean: bool): Dup {
    if at == DeleteVault && left.vault then Undo(DeleteVault, e, left, clean)
    else if at in {DeleteVault, UndoDatabase} && left.db && !p.DatabaseDenied(j.database) then Undo(UndoDatabase, e, left, clean)
    else if left.role && !p.OwnerDenied(j.owner) then Undo(CountOwned, e, left, clean)
    else Finished(Some(e), left, clean)
  }

  /** The stage after a successful one. */
  function After(p: Policy, j: Job, s: Stage, snap: Reply): Dup {
    match s
    case AskSource => Forward(AskDatabase, Done)
    case AskDatabase => Forward(AskRole, Done)
    case AskRole => if j.source.Some? then Forward(AskVault, Done) else Forward(Password, Done)
    case AskVault => Forward(Password, Done)
    case Password => if j.source.Some? then Forward(LockJob, Done) else Forward(MakeRole, Done)
    case LockJob => Forward(Snap, Done)
    case Snap => Forward(MakeRole, snap)
    case MakeRole =>
      if !p.SkipGrantSetRole(j.owner) then Forward(GrantSet, snap)
      else if j.source.Some? then Forward(Terminate, snap) else Forward(MakeDatabase, snap)
    case GrantSet => if j.source.Some? then Forward(Terminate, snap) else Forward(MakeDatabase, snap)
    case Terminate => Forward(MakeDatabase, snap)
    case MakeDatabase => Forward(Revoke, snap)
    case Revoke => Forward(Grant, snap)
    case Grant => if j.source.Some? then Forward(FirstCheck, snap) else Forward(Seal, snap)
    case FirstCheck => Forward(Seal, snap)
    case Seal => Forward(SaveVault, snap)
    case SaveVault => if j.source.Some? then Forward(Move, snap) else Finished(None, ALL, true)
    case Move => Forward(LastCheck, snap)
    case LastCheck => Finished(None, ALL, true)
  }

  /** The error a reply means at a forward stage, if any. */
  function StageError(p: Policy, j: Job, d: Dup, reply: Reply): Option<Error>
    requires d.Forward? && HasSource(j, d.stage)
  {
    if reply.Failure? then Some(reply.error)
    else
      match d.stage
      case AskSource => if reply.Row? then SourceError(p, j, reply.row, reply.ownerRole) else Some(Unavailable)
      case AskDatabase => if reply == Answer(true) then Some(Conflict(DatabaseField)) else None
      case AskRole => if reply == Answer(true) then Some(Conflict(OwnerField)) else None
      case AskVault => if reply == Answer(true) then Some(Conflict(OwnerField)) else None
      case FirstCheck => if reply != d.snap then Some(IsolationChanged) else None
      case LastCheck => if reply != d.snap then Some(IsolationChanged) else None
      case _ => None
  }

  function DupNext(p: Policy, j: Job, d: Dup, reply: Reply): Dup
    requires !d.Finished? && Callable(j, d)
  {
    match d
    case Forward(s, snap) =>
      var e := StageError(p, j, d, reply);
      if e.Some? then UndoFrom(p, j, DeleteVault, e.value, Made(s), true)
      else After(p, j, s, if s == Snap then reply else snap)
    case Undo(at, e, left, clean) =>
      var ok := !reply.Failure?;
      match at
      case DeleteVault => UndoFrom(p, j, UndoDatabase, e, left.(vault := left.vault && !ok), clean && ok)
      case UndoDatabase => UndoFrom(p, j, CountOwned, e, left.(db := left.db && !ok), clean && ok)
      case CountOwned =>
        if reply == Count(0) then Undo(UndoRole, e, left, clean) else Finished(Some(e), left, clean && ok)
      case UndoRole => Finished(Some(e), left.(role := left.role && !ok), clean && ok)
  }

  // ----- CompensateDuplicate -----

  datatype Comp =
    | CompAskDatabase | CompDropDatabase | CompAskRole | CompCount | CompAskVault | CompDeleteVault | CompDropRole
    | CompEnd(ok: bool)

  function StartComp(p: Policy, j: Job): Comp {
    if Some(j.database) != j.source && !p.DatabaseDenied(j.database) then CompAskDatabase else CompAskRole
  }

  function CompCall(j: Job, k: Comp): Call
    requires !k.CompEnd?
  {
    match k
    case CompAskDatabase => DatabaseExists(j.database)
    case CompDropDatabase => DropIfExists(j.database)
    case CompAskRole => RoleExists(j.owner)
    case CompCount => OwnedDatabaseCount(j.owner)
    case CompAskVault => SavedRole(j.owner)
    case CompDeleteVault => DeleteCredential(j.owner)
    case CompDropRole => DropRole(j.owner)
  }

  function DropRoleUnlessDenied(p: Policy, j: Job): Comp {
    if p.OwnerDenied(j.owner) then CompEnd(true) else CompDropRole
  }

  function CompNext(p: Policy, j: Job, k: Comp, reply: Reply): Comp
    requires !k.CompEnd?
  {
    if reply.Failure? then CompEnd(false)
    else
      match k
      case CompAskDatabase => if reply == Answer(true) then CompDropDatabase else CompAskRole
      case CompDropDatabase => CompAskRole
      case CompAskRole => if reply == Answer(true) then CompCount else CompEnd(true)
      case CompCount => if reply == Count(0) then CompAskVault else CompEnd(true)
      case CompAskVault => if reply == Answer(true) then CompDeleteVault else DropRoleUnlessDenied(p, j)
      case CompDeleteVault => DropRoleUnlessDenied(p, j)
      case CompDropRole => CompEnd(true)
  }

  // ----- DropAfterValidation -----

  datatype DropState =
    | DropAsk | DropBefore | DropAskAgain | DropTerminate(owner: Name) | DropIt(owner: Name)
    | DropCount(owner: Name) | DropOwner(owner: Name) | DropVault(owner: Name)
    | DropEnd(failure: Option<Error>, dropped: bool, droppedRole: bool)

  function DropCall(db: Name, s: DropState): Call
    requires !s.DropEnd?
  {
    match s
    case DropAsk => Lookup(db)
    case DropBefore => ExternalCheck
    case DropAskAgain => Lookup(db)
    case DropTerminate(_) => TerminateSessions(db)
    case DropIt(_) => DropDatabase(db)
    case DropCount(o) => OwnedDatabaseCount(o)
    case DropOwner(o) => DropRole(o)
    case DropVault(o) => DeleteCredential(o)
  }

  function DropRefused(e: Error): DropState { DropEnd(Some(e), false, false) }

  /** The checks before the first catalog call, then the first call. */
  function StartDrop(p: Policy, db: Name): DropState {
    if !ValidIdentifier(db) then DropRefused(InvalidIdentifier)
    else if p.DatabaseDenied(db) then DropRefused(NotFound)
    else DropAsk
  }

  function DropNext(p: Policy, db: Name, checked: bool, s: DropState, reply: Reply): DropState
    requires !s.DropEnd?
  {
    match s
    case DropAsk =>
      if reply.Failure? then DropRefused(reply.error)
      else if !reply.Row? || !p.Manageable(db, reply.row) then DropRefused(NotFound)
      else if checked then DropBefore else DropTerminate(reply.row.owner)
    case DropBefore => if reply.Failure? then DropRefused(reply.error) else DropAskAgain
    case DropAskAgain =>
      if reply.Failure? then DropRefused(reply.error)
      else if !reply.Row? || !p.Manageable(db, reply.row) then DropRefused(NotFound)
      else DropTerminate(reply.row.owner)
    case DropTerminate(o) => if reply.Failure? then DropRefused(Unavailable) else DropIt(o)
    case DropIt(o) =>
      if reply.Failure? then DropRefused(Unavailable)
      else if o == "" || p.OwnerDenied(o) then DropEnd(None, true, false) else DropCount(o)
    case DropCount(o) => if reply == Count(0) then DropOwner(o) else DropEnd(None, true, false)
    case DropOwner(o) => if reply.Failure? then DropEnd(Some(RoleDropFailed), true, false) else DropVault(o)
    case DropVault(o) => if reply.Failure? then DropEnd(Some(VaultDeleteFailed), true, false) else DropEnd(None, true, true)
  }

  // ----- any of the scripts, run to its end -----

  datatype Script =
    | InDup(job: Job, dup: Dup)
    | InComp(job: Job, comp: Comp)
    | InDrop(db: Name, checked: bool, drop: DropState)

  predicate Ended(s: Script) {
    match s
    case InDup(_, d) => d.Finished?
    case InComp(_, k) => k.CompEnd?
    case InDrop(_, _, t) => t.DropEnd?
  }

  predicate Ready(s: Script) {
    s.InDup? ==> Callable(s.job, s.dup)
  }

  function CallOf(p: Policy, s: Script): Call
    requires !Ended(s) && Ready(s)
  {
    match s
    case InDup(j, d) => DupCall(p, j, d)
    case InComp(j, k) => CompCall(j, k)
    case InDrop(db, _, t) => DropCall(db, t)
  }

  /** A bound on the calls still to come. */
  function Weight(s: Script): nat {
    match s
    case InDup(_, Forward(stage, _)) => 30 - Index(stage)
    case InDup(_, Undo(at, _, _, _)) =>
      (match at case DeleteVault => 4 case UndoDatabase => 3 case CountOwned => 2 case UndoRole => 1)
    case InDup(_, Finished(_, _, _)) => 0
    case InComp(_, k) =>
      (match k
       case CompAskDatabase => 7 case CompDropDatabase => 6 case CompAskRole => 5 case CompCount => 4
       case CompAskVault => 3 case CompDeleteVault => 2 case CompDropRole => 1 case CompEnd(_) => 0)
    case InDrop(_, _, t) =>
      match t
      case DropAsk => 8 case DropBefore => 7 case DropAskAgain => 6 case DropTerminate(_) => 5 case DropIt(_) => 4
      case DropCount(_) => 3 case DropOwner(_) => 2 case DropVault(_) => 1 case DropEnd(_, _, _) => 0
  }

  function NextOf(p: Policy, s: Script, reply: Reply): (n: Script)
    requires !Ended(s) && Ready(s)
    ensures Ready(n) && Weight(n) < Weight(s)
  {
    match s
    case InDup(j, d) => InDup(j, DupNext(p, j, d, reply))
    case InComp(j, k) => InComp(j, CompNext(p, j, k, reply))
    case InDrop(db, checked, t) => InDrop(db, checked, DropNext(p, db, checked, t, reply))
  }

  function StepOf(p: Policy, s: Script, c: Catalog, fault: bool): (r: (Script, Catalog))
    requires !Ended(s) && Ready(s)
    ensures Ready(r.0) && Weight(r.0) < Weight(s)
  {
    var (c', reply) := Attempt(p, c, CallOf(p, s), fault);
    (NextOf(p, s, reply), c')
  }

  /** The first n calls of the script, faults saying which calls fail (call k is the next);
      a process that dies leaves the catalog of some such state. */
  function Prefix(p: Policy, s: Script, c: Catalog, faults: nat -> bool, k: nat, n: nat): (r: (Script, Catalog))
    requires Ready(s)
    ensures Ready(r.0)
    decreases n
  {
    if n == 0 || Ended(s) then (s, c)
    else
      var (s', c') := StepOf(p, s, c, faults(k));
      Prefix(p, s', c', faults, k + 1, n - 1)
  }

  /** The script run alone to its end; faults says which calls fail, call k being the next. */
  function Run(p: Policy, s: Script, c: Catalog, faults: nat -> bool, k: nat): (r: (Script, Catalog))
    requires Ready(s)
    ensures Ended(r.0) && Ready(r.0)
    decreases Weight(s)
  {
    if Ended(s) then (s, c)
    else
      var (s', c') := StepOf(p, s, c, faults(k));
      Run(p, s', c', faults, k + 1)
  }
}
