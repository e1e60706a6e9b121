/** What the scripts guarantee under every schedule of failing calls, and at every call
    after which the process might die. */
module ScriptProofs {
  import opened Prelude
  import opened Catalog
  import opened Scripts

  function JobOf(s: Script): Job
    requires s.InDup? || s.InComp?
  {
    if s.InDup? then s.job else s.job
  }

  // ----- other names are never touched -----

  /** The call can change nothing but database d, role r, r's grants and r's vault row. */
  predicate Within(call: Call, d: Name, r: Name) {
    match call
    case CreateRole(x) => x == r
    case GrantSetRole(x, _) => x == r
    case CreateFromTemplate(x, _, _) => x == d
    case CreateDatabase(x, _) => x == d
    case RevokePublicConnect(x) => x == d
    case GrantConnect(x, _) => x == d
    case InsertCredential(x, _) => x == r
    case TransferOwnership(x, _) => x == d
    case DeleteCredential(x) => x == r
    case DropIfExists(x) => x == d
    case DropDatabase(x) => x == d
    case DropRole(x) => x == r
    case _ => true
  }

  lemma CallTouchesOnly(p: Policy, c: Catalog, call: Call, d: Name, r: Name)
    requires Within(call, d, r)
    ensures SameOutside(c, Perform(p, c, call).0, d, r)
  {
    match call
    case CreateRole(x) =>
    case GrantSetRole(x, _) =>
    case CreateFromTemplate(x, _, _) =>
    case CreateDatabase(x, _) =>
    case RevokePublicConnect(x) =>
    case GrantConnect(x, _) =>
    case InsertCredential(x, _) =>
    case TransferOwnership(x, _) =>
    case DeleteCredential(x) =>
    case DropIfExists(x) =>
    case DropDatabase(x) =>
    case DropRole(x) =>
    case _ =>
  }

  lemma StepTouchesOnlyTheJob(p: Policy, s: Script, c: Catalog, fault: bool)
    requires !Ended(s) && Ready(s) && !s.InDrop?
    ensures SameOutside(c, StepOf(p, s, c, fault).1, JobOf(s).database, JobOf(s).owner)
    ensures !StepOf(p, s, c, fault).0.InDrop? && JobOf(StepOf(p, s, c, fault).0) == JobOf(s)
  {
    CallTouchesOnly(p, c, CallOf(p, s), JobOf(s).database, JobOf(s).owner);
  }

  lemma SameOutsideJoins(a: Catalog, b: Catalog, c: Catalog, d: Name, r: Name)
    requires SameOutside(a, b, d, r) && SameOutside(b, c, d, r)
    ensures SameOutside(a, c, d, r)
  {
  }

  /** Create, Duplicate and CompensateDuplicate leave the source and every other name as
      they are, whichever calls fail and wherever the process dies. */
  lemma {:induction false} OtherNamesUntouched(p: Policy, s: Script, c: Catalog, faults: nat -> bool, k: nat, n: nat)
    requires Ready(s) && !s.InDrop?
    ensures SameOutside(c, Prefix(p, s, c, faults, k, n).1, JobOf(s).database, JobOf(s).owner)
    decreases n
  {
    if n != 0 && !Ended(s) {
      var (s', c') := StepOf(p, s, c, faults(k));
      StepTouchesOnlyTheJob(p, s, c, faults(k));
      OtherNamesUntouched(p, s', c', faults, k + 1, n - 1);
      SameOutsideJoins(c, c', Prefix(p, s', c', faults, k + 1, n - 1).1, JobOf(s).database, JobOf(s).owner);
    }
  }

  // ----- ownership -----

  /** A script about to drop a role has just counted its databases. */
  predicate Counted(s: Script, c: Catalog) {
    match s
    case InDup(j, d) => d.Undo? && d.at == UndoRole ==> OwnedBy(c, j.owner) == {}
    case InComp(j, k) => k in {CompAskVault, CompDeleteVault, CompDropRole} ==> OwnedBy(c, j.owner) == {}
    case InDrop(_, _, t) => t.DropOwner? ==> OwnedBy(c, t.owner) == {}
  }

  lemma CallKeepsOwned(p: Policy, c: Catalog, call: Call)
    requires Owned(c) && (call.DropRole? ==> OwnedBy(c, call.role) == {})
    ensures var c' := Perform(p, c, call).0;
            Owned(c') && forall r :: r in c.roles && r !in c'.roles ==> OwnedBy(c, r) == {}
  {
    hide Transferred;
    match call
    case CreateRole(x) =>
    case CreateFromTemplate(x, _, _) =>
    case CreateDatabase(x, _) =>
    case RevokePublicConnect(x) =>
    case GrantConnect(x, _) =>
    case TransferOwnership(x, _) =>
    case DropIfExists(x) =>
    case DropDatabase(x) =>
    case DropRole(x) =>
      forall d | d in c.dbs ensures c.dbs[d].owner != x {
        assert d !in OwnedBy(c, x);
      }
      hide OwnedBy;
    case _ =>
  }

  lemma CountIsZero(p: Policy, c: Catalog, role: Name)
    ensures Perform(p, c, OwnedDatabaseCount(role)) == (c, Count(|OwnedBy(c, role)|))
    ensures |OwnedBy(c, role)| == 0 <==> OwnedBy(c, role) == {}
  {
  }

  lemma DupKeepsCounted(p: Policy, j: Job, d: Dup, c: Catalog, fault: bool)
    requires !d.Finished? && Callable(j, d) && Counted(InDup(j, d), c)
    ensures Counted(StepOf(p, InDup(j, d), c, fault).0, StepOf(p, InDup(j, d), c, fault).1)
  {
    CountIsZero(p, c, j.owner);
    hide Perform, OwnedBy, SourceError;
  }

  lemma CompKeepsCounted(p: Policy, j: Job, k: Comp, c: Catalog, fault: bool)
    requires !k.CompEnd? && Counted(InComp(j, k), c)
    ensures Counted(StepOf(p, InComp(j, k), c, fault).0, StepOf(p, InComp(j, k), c, fault).1)
  {
    CountIsZero(p, c, j.owner);
  }

  lemma DropKeepsCounted(p: Policy, s: Script, c: Catalog, fault: bool)
    requires s.InDrop? && !Ended(s) && Counted(s, c)
    ensures Counted(StepOf(p, s, c, fault).0, StepOf(p, s, c, fault).1)
  {
  }

  lemma StepKeepsCounted(p: Policy, s: Script, c: Catalog, fault: bool)
    requires !Ended(s) && Ready(s) && Counted(s, c)
    ensures Counted(StepOf(p, s, c, fault).0, StepOf(p, s, c, fault).1)
  {
    hide StepOf, Counted;
    match s
    case InDup(j, d) => DupKeepsCounted(p, j, d, c, fault);
    case InComp(j, k) => CompKeepsCounted(p, j, k, c, fault);
    case InDrop(_, _, _) => DropKeepsCounted(p, s, c, fault);
  }

  /** A role is removed only when it owns no database. */
  lemma StepKeepsOwned(p: Policy, s: Script, c: Catalog, fault: bool)
    requires !Ended(s) && Ready(s) && Owned(c) && Counted(s, c)
    ensures var c' := StepOf(p, s, c, fault).1;
            Owned(c') && forall r :: r in c.roles && r !in c'.roles ==> OwnedBy(c, r) == {}
  {
    CallKeepsOwned(p, c, CallOf(p, s));
  }

  /** Under every fault schedule of Create, Duplicate, CompensateDuplicate and Drop, and at
      every crash point, each database's owner is an existing role. */
  lemma {:induction false} OwnersAlwaysExist(p: Policy, s: Script, c: Catalog, faults: nat -> bool, k: nat, n: nat)
    requires Ready(s) && Owned(c) && Counted(s, c)
    ensures Owned(Prefix(p, s, c, faults, k, n).1)
    decreases n
  {
    if n != 0 && !Ended(s) {
      var (s', c') := StepOf(p, s, c, faults(k));
      StepKeepsOwned(p, s, c, faults(k));
      StepKeepsCounted(p, s, c, faults(k));
      OwnersAlwaysExist(p, s', c', faults, k + 1, n - 1);
    }
  }

  // ----- which pieces there are -----

  function Present(c: Catalog, j: Job): Pieces {
    Pieces(j.owner in c.roles, j.database in c.dbs, j.owner in c.vault)
  }

  function Held(d: Dup): Pieces {
    match d
    case Forward(s, _) => Made(s)
    case Undo(_, _, left, _) => left
    case Finished(_, left, _) => left
  }

  /** {}, {R}, {R,D}, {R,D,V}, {R,V} and {V}. */
  const SHAPES: set<Pieces> := {
    NOTHING, Pieces(true, false, false), Pieces(true, true, false), ALL, Pieces(true, false, true), Pieces(false, false, true)}

  /** What may be left when each undo stage begins; clean says no undo call failed. */
  predicate Expected(d: Dup) {
    match d
    case Forward(_, _) => true
    case Undo(at, _, left, clean) =>
      left in SHAPES && left.role &&
      (match at
       case DeleteVault => left == ALL && clean
       case UndoDatabase => left.db && (clean ==> !left.vault)
       case CountOwned => clean ==> !left.vault && !left.db
       case UndoRole => !left.db && (clean ==> !left.vault))
    case Finished(f, left, clean) =>
      left in SHAPES && (f.None? ==> left == ALL) && (f.Some? && clean ==> left == NOTHING)
  }

  /** The names are the policy's to create: what the request handler checks. */
  predicate Allowed(p: Policy, j: Job) {
    !p.DatabaseDenied(j.database) && !p.OwnerDenied(j.owner) && Some(j.database) != j.source
  }

  /** The catalog shows exactly the pieces the script's state says, and nothing else
      belongs to the job's role. */
  predicate Tracks(p: Policy, j: Job, d: Dup, c: Catalog) {
    Callable(j, d) && Expected(d) && Present(c, j) == Held(d) && OwnedBy(c, j.owner) <= {j.database} &&
    (j.database in c.dbs ==> c.dbs[j.database].owner == j.owner)
  }

  /** The pieces after a call of the script, and whose the job's database is. */
  lemma CallMovesPieces(p: Policy, j: Job, d: Dup, c: Catalog)
    requires !d.Finished? && Callable(j, d)
    requires OwnedBy(c, j.owner) <= {j.database} && (j.database in c.dbs ==> c.dbs[j.database].owner == j.owner)
    ensures var (c', reply) := Perform(p, c, DupCall(p, j, d));
            OwnedBy(c', j.owner) <= {j.database} &&
            (j.database in c'.dbs ==> c'.dbs[j.database].owner == j.owner) &&
            Present(c', j) ==
              (if reply.Failure? then Present(c, j)
               else match d
                 case Forward(MakeRole, _) => Present(c, j).(role := true)
                 case Forward(MakeDatabase, _) => Present(c, j).(db := true)
                 case Forward(SaveVault, _) => Present(c, j).(vault := true)
                 case Forward(_, _) => Present(c, j)
                 case Undo(DeleteVault, _, _, _) => Present(c, j).(vault := false)
                 case Undo(UndoDatabase, _, _, _) => Present(c, j).(db := false)
                 case Undo(CountOwned, _, _, _) => Present(c, j)
                 case Undo(UndoRole, _, _, _) => Present(c, j).(role := false))
  {
    var c' := Perform(p, c, DupCall(p, j, d)).0;
    forall x | x in OwnedBy(c', j.owner) ensures x == j.database {
      assert x != j.database ==> x in OwnedBy(c, j.owner);
    }
  }

  lemma DupStepTracks(p: Policy, j: Job, d: Dup, c: Catalog, fault: bool)
    requires Allowed(p, j) && Tracks(p, j, d, c) && !d.Finished?
    ensures var (s', c') := StepOf(p, InDup(j, d), c, fault);
            s'.InDup? && s'.job == j && Tracks(p, j, s'.dup, c')
  {
    CallMovesPieces(p, j, d, c);
    if d.Undo? && d.at == CountOwned {
      if d.left.db {
        assert j.database in OwnedBy(c, j.owner);
        assert |OwnedBy(c, j.owner)| != 0;
      } else {
        assert OwnedBy(c, j.owner) == {};
      }
    }
  }

  /** What CompensateDuplicate knows at each of its calls. */
  predicate CompTracks(p: Policy, j: Job, k: Comp, c: Catalog) {
    var now := Present(c, j);
    now in SHAPES && OwnedBy(c, j.owner) <= {j.database} &&
    (j.database in c.dbs ==> c.dbs[j.database].owner == j.owner) &&
    (match k
     case CompAskDatabase => true
     case CompDropDatabase => true
     case CompAskRole => !now.db
     case CompCount => now.role && !now.db
     case CompAskVault => now.role && !now.db
     case CompDeleteVault => now.role && !now.db
     case CompDropRole => now == Pieces(true, false, false)
     case CompEnd(ok) => ok ==> !now.role && !now.db)
  }

  lemma CompStepTracks(p: Policy, j: Job, k: Comp, c: Catalog, fault: bool)
    requires Allowed(p, j) && CompTracks(p, j, k, c) && !k.CompEnd?
    ensures var (s', c') := StepOf(p, InComp(j, k), c, fault);
            s'.InComp? && s'.job == j && CompTracks(p, j, s'.comp, c')
  {
    var (s', c') := StepOf(p, InComp(j, k), c, fault);
    assert forall x :: x in OwnedBy(c', j.owner) ==> x == j.database;
    if k.CompCount? {
      assert OwnedBy(c, j.owner) == {};
    }
  }

  /** CompensateDuplicate that meets no failing call removes clone and role from whatever
      Duplicate or its own undo left behind. */
  lemma {:induction false} CompensationCleans(p: Policy, j: Job, k: Comp, c: Catalog, n: nat)
    requires Allowed(p, j) && CompTracks(p, j, k, c) && k != CompEnd(false)
    ensures var (s, c') := Run(p, InComp(j, k), c, i => false, n);
            s == InComp(j, CompEnd(true)) && !Present(c', j).role && !Present(c', j).db
    decreases Weight(InComp(j, k))
  {
    if !k.CompEnd? {
      var (s', c') := StepOf(p, InComp(j, k), c, false);
      CompStepTracks(p, j, k, c, false);
      CompensationCleans(p, j, s'.comp, c', n + 1);
    }
  }

  // ----- all or nothing -----

  function SourceObjects(c0: Catalog, j: Job): seq<Name> {
    if j.source.Some? && j.source.value in c0.dbs then c0.dbs[j.source.value].objects else []
  }

  /** The new database's row when a forward stage begins. */
  function RowAt(p: Policy, c0: Catalog, j: Job, s: Stage): Database {
    var connect := if s == Revoke then {Public} else if s == Grant then {} else {RoleGrantee(j.owner)};
    var objects := SourceObjects(c0, j);
    Database(j.owner, connect, true, false,
             if s == LastCheck then Transferred(p, c0, objects, j.owner) else objects)
  }

  function RoleAdded(p: Policy, c0: Catalog, j: Job, granted: bool): Catalog {
    c0.(roles := c0.roles[j.owner := Role(false, true)],
        grants := if granted then c0.grants + {(p.admin, j.owner)} else c0.grants)
  }

  /** The catalog when a forward stage begins, computed from the catalog at the start. */
  function CatalogAt(p: Policy, c0: Catalog, j: Job, s: Stage): Catalog {
    Catalog(
      if Made(s).db then c0.dbs[j.database := RowAt(p, c0, j, s)] else c0.dbs,
      if Made(s).role then c0.roles[j.owner := Role(false, true)] else c0.roles,
      if Made(s).vault then c0.vault[j.owner := j.token] else c0.vault,
      if Made(s).role && s != GrantSet && !p.SkipGrantSetRole(j.owner) then c0.grants + {(p.admin, j.owner)} else c0.grants)
  }

  /** What success leaves: role, database with its private CONNECT grant and transferred
      objects, vault row, and the admin's grant unless it needs none; everything else as
      before. */
  function AfterSuccess(p: Policy, c0: Catalog, j: Job): Catalog {
    Catalog(
      c0.dbs[j.database := Database(j.owner, {RoleGrantee(j.owner)}, true, false,
                                    Transferred(p, c0, SourceObjects(c0, j), j.owner))],
      c0.roles[j.owner := Role(false, true)],
      c0.vault[j.owner := j.token],
      if p.admin in {"", "postgres", j.owner} then c0.grants else c0.grants + {(p.admin, j.owner)})
  }

  /** The catalog during the undo: the start plus the pieces that are still there. */
  predicate Leftover(p: Policy, c0: Catalog, c: Catalog, j: Job, left: Pieces) {
    (if left.role then j.owner !in c0.roles && (c.roles == RoleAdded(p, c0, j, false).roles) &&
                       (c.grants == c0.grants || c.grants == RoleAdded(p, c0, j, true).grants)
     else c.roles == c0.roles && c.grants == c0.grants) &&
    (if left.db then j.database !in c0.dbs && j.database in c.dbs && c.dbs[j.database].owner == j.owner &&
                     c.dbs - {j.database} == c0.dbs
     else c.dbs == c0.dbs) &&
    (if left.vault then j.owner !in c0.vault && c.vault - {j.owner} == c0.vault else c.vault == c0.vault)
  }

  predicate SoFar(p: Policy, c0: Catalog, j: Job, d: Dup, c: Catalog) {
    Callable(j, d) && Expected(d) &&
    match d
    case Forward(s, _) =>
      Allowed(p, j) && c == CatalogAt(p, c0, j, s) && Began(p, c0, j, s)
    case Undo(_, _, left, _) => Allowed(p, j) && Leftover(p, c0, c, j, left)
    case Finished(f, left, _) => if f.None? then c == AfterSuccess(p, c0, j) else Leftover(p, c0, c, j, left)
  }

  /** A role that does not exist owns nothing and has no grants. */
  predicate Sound(c: Catalog) { Owned(c) && GrantsKnown(c) }

  lemma TransferIgnoresNewRole(p: Policy, c0: Catalog, j: Job, c: Catalog, objects: seq<Name>)
    requires j.owner !in c0.roles && c.roles == c0.roles[j.owner := Role(false, true)]
    ensures Transferred(p, c, objects, j.owner) == Transferred(p, c0, objects, j.owner)
  {
  }

  /** What is known of the start when a forward stage begins. */
  predicate Began(p: Policy, c0: Catalog, j: Job, s: Stage) {
    (s == GrantSet ==> !p.SkipGrantSetRole(j.owner)) &&
    (Made(s).role ==> j.owner !in c0.roles) && (Made(s).db ==> j.database !in c0.dbs) &&
    (Made(s).db && j.source.Some? ==> j.source.value in c0.dbs) &&
    (Made(s).vault ==> j.owner !in c0.vault)
  }

  function CatalogAfter(p: Policy, c0: Catalog, j: Job, s: Stage): Catalog {
    var n := After(p, j, s, Done);
    if n.Forward? then CatalogAt(p, c0, j, n.stage) else AfterSuccess(p, c0, j)
  }

  predicate BeganAfter(p: Policy, c0: Catalog, j: Job, s: Stage) {
    var n := After(p, j, s, Done);
    n.Forward? ==> Began(p, c0, j, n.stage)
  }

  /** A successful forward call turns the catalog of its stage into that of the next. */
  predicate EffectIs(p: Policy, c0: Catalog, j: Job, s: Stage)
    requires HasSource(j, s)
  {
    var (c', reply) := Perform(p, CatalogAt(p, c0, j, s), StageCall(p, j, s));
    !reply.Failure? ==> c' == CatalogAfter(p, c0, j, s) && BeganAfter(p, c0, j, s)
  }

  lemma AskingStages(p: Policy, c0: Catalog, j: Job, s: Stage)
    requires Allowed(p, j) && HasSource(j, s) && Began(p, c0, j, s)
    requires s in {AskSource, AskDatabase, AskRole, AskVault, Password, LockJob, Snap}
    ensures EffectIs(p, c0, j, s)
  {
  }

  lemma RoleStages(p: Policy, c0: Catalog, j: Job, s: Stage)
    requires Allowed(p, j) && HasSource(j, s) && Began(p, c0, j, s) && s in {MakeRole, GrantSet, Terminate}
    ensures EffectIs(p, c0, j, s)
  {
  }

  lemma MakingStage(p: Policy, c0: Catalog, j: Job, s: Stage)
    requires Allowed(p, j) && HasSource(j, s) && Began(p, c0, j, s) && s in {MakeDatabase}
    ensures EffectIs(p, c0, j, s)
  {
  }

  lemma RevokeStage(p: Policy, c0: Catalog, j: Job)
    requires Allowed(p, j) && HasSource(j, Revoke) && Began(p, c0, j, Revoke)
    ensures EffectIs(p, c0, j, Revoke)
  {
    var public: set<Grantee> := {Public};
    assert public - {Public} == {};
  }

  lemma GrantStage(p: Policy, c0: Catalog, j: Job)
    requires Allowed(p, j) && HasSource(j, Grant) && Began(p, c0, j, Grant)
    ensures EffectIs(p, c0, j, Grant)
  {
    hide Transferred, OwnedBy;
    assert {} + {RoleGrantee(j.owner)} == {RoleGrantee(j.owner)};
    hide SourceObjects, RoleOf;
  }

  lemma SealingStages(p: Policy, c0: Catalog, j: Job, s: Stage)
    requires Allowed(p, j) && HasSource(j, s) && Began(p, c0, j, s) && s in {FirstCheck, Seal}
    ensures EffectIs(p, c0, j, s)
  {
  }

  lemma VaultStage(p: Policy, c0: Catalog, j: Job, s: Stage)
    requires Allowed(p, j) && HasSource(j, s) && Began(p, c0, j, s) && s in {SaveVault}
    ensures EffectIs(p, c0, j, s)
  {
    if j.source.None? { assert Transferred(p, c0, [], j.owner) == []; }
  }

  lemma MoveEffect(p: Policy, c0: Catalog, j: Job)
    requires j.owner !in c0.roles && j.source.Some?
    ensures Perform(p, CatalogAt(p, c0, j, Move), TransferOwnership(j.database, j.owner)) == (CatalogAt(p, c0, j, LastCheck), Done)
  {
    var c, row := CatalogAt(p, c0, j, Move), RowAt(p, c0, j, Move);
    TransferIgnoresNewRole(p, c0, j, c, SourceObjects(c0, j));
    hide Transferred, OwnedBy, SourceObjects, RoleOf;
    assert c.dbs[j.database := RowAt(p, c0, j, LastCheck)] == c0.dbs[j.database := RowAt(p, c0, j, LastCheck)];
  }

  lemma MoveStage(p: Policy, c0: Catalog, j: Job)
    requires Allowed(p, j) && HasSource(j, Move) && Began(p, c0, j, Move)
    ensures EffectIs(p, c0, j, Move)
  {
    hide CatalogAt, Perform;
    MoveEffect(p, c0, j);
  }

  lemma LastStage(p: Policy, c0: Catalog, j: Job)
    requires Allowed(p, j) && HasSource(j, LastCheck) && Began(p, c0, j, LastCheck)
    ensures EffectIs(p, c0, j, LastCheck)
  {
  }

  lemma StageEffect(p: Policy, c0: Catalog, j: Job, s: Stage)
    requires Allowed(p, j) && HasSource(j, s) && Began(p, c0, j, s)
    ensures EffectIs(p, c0, j, s)
  {
    match s
    case MakeRole => RoleStages(p, c0, j, s);
    case GrantSet => RoleStages(p, c0, j, s);
    case Terminate => RoleStages(p, c0, j, s);
    case MakeDatabase => MakingStage(p, c0, j, s);
    case Revoke => RevokeStage(p, c0, j);
    case Grant => GrantStage(p, c0, j);
    case FirstCheck => SealingStages(p, c0, j, s);
    case Seal => SealingStages(p, c0, j, s);
    case SaveVault => VaultStage(p, c0, j, s);
    case Move => MoveStage(p, c0, j);
    case LastCheck => LastStage(p, c0, j);
    case _ => AskingStages(p, c0, j, s);
  }

  lemma ForwardStepSoFar(p: Policy, c0: Catalog, j: Job, d: Dup, c: Catalog, fault: bool)
    requires Sound(c0) && d.Forward? && SoFar(p, c0, j, d, c)
    requires !StageError(p, j, d, Attempt(p, c, DupCall(p, j, d), fault).1).Some?
    ensures var (s', c') := StepOf(p, InDup(j, d), c, fault);
            s'.InDup? && s'.job == j && SoFar(p, c0, j, s'.dup, c')
  {
    StageEffect(p, c0, j, d.stage);
    AfterKeepsStage(p, j, d.stage, if d.stage == Snap then Perform(p, c, DupCall(p, j, d)).1 else d.snap);
  }

  lemma AfterKeepsStage(p: Policy, j: Job, s: Stage, snap: Reply)
    requires HasSource(j, s)
    ensures var n, m := After(p, j, s, snap), After(p, j, s, Done);
            (n.Forward? <==> m.Forward?) && (n.Forward? ==> n.stage == m.stage && HasSource(j, n.stage)) &&
            (!n.Forward? ==> n == Finished(None, ALL, true))
  {
  }

  lemma StageLeavesPieces(p: Policy, c0: Catalog, j: Job, d: Dup)
    requires Sound(c0) && d.Forward? && SoFar(p, c0, j, d, CatalogAt(p, c0, j, d.stage))
    ensures Leftover(p, c0, CatalogAt(p, c0, j, d.stage), j, Made(d.stage))
  {
  }

  lemma ForwardFails(p: Policy, c0: Catalog, j: Job, d: Dup, c: Catalog, fault: bool)
    requires Sound(c0) && d.Forward? && SoFar(p, c0, j, d, c)
    requires StageError(p, j, d, Attempt(p, c, DupCall(p, j, d), fault).1).Some?
    ensures var (s', c') := StepOf(p, InDup(j, d), c, fault);
            s'.InDup? && s'.job == j && SoFar(p, c0, j, s'.dup, c')
  {
    StageLeavesPieces(p, c0, j, d);
    FailuresHaveNoEffect(p, c, j, d, fault);
  }

  lemma FailuresHaveNoEffect(p: Policy, c: Catalog, j: Job, d: Dup, fault: bool)
    requires d.Forward? && Callable(j, d)
    requires StageError(p, j, d, Attempt(p, c, DupCall(p, j, d), fault).1).Some?
    ensures Attempt(p, c, DupCall(p, j, d), fault).0 == c
  {
  }

  lemma UndoStepSoFar(p: Policy, c0: Catalog, j: Job, d: Dup, c: Catalog, fault: bool)
    requires Sound(c0) && d.Undo? && SoFar(p, c0, j, d, c)
    ensures var (s', c') := StepOf(p, InDup(j, d), c, fault);
            s'.InDup? && s'.job == j && SoFar(p, c0, j, s'.dup, c')
  {
    hide CatalogAt, AfterSuccess, SourceError, StartDup;
    if d.at == CountOwned {
      if d.left.db { assert j.database in OwnedBy(c, j.owner); } else { assert OwnedBy(c, j.owner) == {}; }
    }
  }

  /** Create and Duplicate are all or nothing: for every schedule of failing calls they
      either succeed with role, database and vault row added to an otherwise unchanged
      catalog, or report an error; and after an error whose undo met no failing call the
      catalog is exactly the one before. */
  lemma {:induction false} AllOrNothing(p: Policy, c0: Catalog, j: Job, d: Dup, c: Catalog, faults: nat -> bool, k: nat)
    requires Sound(c0) && SoFar(p, c0, j, d, c)
    ensures var (s, end) := Run(p, InDup(j, d), c, faults, k);
            s.InDup? && s.dup.Finished? &&
            (s.dup.failure.None? ==> end == AfterSuccess(p, c0, j)) &&
            (s.dup.failure.Some? && s.dup.clean ==> end == c0) &&
            (s.dup.failure.Some? ==> Leftover(p, c0, end, j, s.dup.left) && s.dup.left in SHAPES)
    decreases Weight(InDup(j, d))
  {
    if !d.Finished? {
      var fault := faults(k);
      var (s', c') := StepOf(p, InDup(j, d), c, fault);
      if d.Undo? {
        UndoStepSoFar(p, c0, j, d, c, fault);
      } else if StageError(p, j, d, Attempt(p, c, DupCall(p, j, d), fault).1).Some? {
        ForwardFails(p, c0, j, d, c, fault);
      } else {
        ForwardStepSoFar(p, c0, j, d, c, fault);
      }
      AllOrNothing(p, c0, j, s'.dup, c', faults, k + 1);
    }
  }

  lemma StartIsSoFar(p: Policy, c0: Catalog, j: Job)
    requires Some(j.database) != j.source
    ensures SoFar(p, c0, j, StartDup(p, j), c0)
  {
  }
}
