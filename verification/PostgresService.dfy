/** The PostgreSQL service as it runs: Create, Duplicate, their undo, CompensateDuplicate
    and Drop, statement by statement. Every catalog access goes through Do, which makes
    the call that the ghost script asks for; so each method is one run of its script, and
    what ScriptProofs shows of the scripts holds of the methods. */
module PostgresService {
  import opened Prelude
  import opened Catalog
  import opened Scripts
  import opened ScriptProofs
  import opened DropProofs
  import opened Verdicts

  /** Nothing of the job's target is there. */
  predicate NamesFree(c: Catalog, job: Job) {
    job.database !in c.dbs && job.owner !in c.roles && job.owner !in c.vault
  }

  /** The names are valid and not the policy's; the source is there, takes connections, is no
      template and belongs to an ordinary login role that is not the job's own. */
  predicate SourceFits(p: Policy, c: Catalog, job: Job)
    requires job.source.Some?
  {
    ValidIdentifier(job.source.value) && ValidIdentifier(job.database) && ValidIdentifier(job.owner) &&
    job.database !in p.databases && !KeptRole(p, job.owner) && p.hasVaultKey &&
    job.source.value !in p.databases && job.source.value in c.dbs &&
    var row := c.dbs[job.source.value];
    row.allowConn && !row.isTemplate && row.owner != "" && row.owner != job.owner && !KeptRole(p, row.owner) &&
    row.owner in c.roles && c.roles[row.owner].login && !c.roles[row.owner].superuser
  }

  class Service {
    const policy: Policy
    /** Which of the calls fail, and how many have been made. */
    const faults: nat -> bool
    var catalog: Catalog
    var calls: nat
    ghost var script: Script

    constructor (policy: Policy, faults: nat -> bool, catalog: Catalog)
      ensures this.policy == policy && this.faults == faults && this.catalog == catalog
    {
      this.policy, this.faults, this.catalog, calls := policy, faults, catalog, 0;
      script := InComp(Job(None, "", "", ""), CompEnd(true));
    }

    /** Where the current script leads from here. */
    ghost function Rest(): (Script, Catalog)
      requires Ready(script)
      reads this
    {
      Run(policy, script, catalog, faults, calls)
    }

    method Do(call: Call) returns (reply: Reply)
      requires Ready(script) && !Ended(script) && call == CallOf(policy, script)
      modifies this
      ensures Ready(script) && script == NextOf(policy, old(script), reply)
      ensures (catalog, reply) == Attempt(policy, old(catalog), call, faults(old(calls))) && calls == old(calls) + 1
      ensures Rest() == old(Rest())
    {
      var fault := faults(calls);
      var (next, r) := Attempt(policy, catalog, call, fault);
      reply := r;
      catalog := next;
      calls := calls + 1;
      script := NextOf(policy, script, reply);
    }

    /** One creating statement of Create or Duplicate: on an error compensate() is next. */
    method Make(job: Job, ghost stage: Stage, call: Call) returns (err: Option<Error>)
      requires stage in {Password, LockJob, MakeRole, GrantSet, Terminate, MakeDatabase, Revoke, Grant, Seal, SaveVault, Move}
      requires script.InDup? && script.job == job && script.dup.Forward? && script.dup.stage == stage
      requires HasSource(job, stage) && call == StageCall(policy, job, stage)
      modifies this
      ensures script == InDup(job, if err.None? then After(policy, job, stage, old(script).dup.snap)
                                   else UndoFrom(policy, job, DeleteVault, err.value, Made(stage), true))
      ensures Ready(script) && Rest() == old(Rest())
    {
      var reply := Do(call);
      err := if reply.Failure? then Some(reply.error) else None;
    }

    /** The checks of PrepareDuplicate. They have no effect; the job passes only if it may be
        served, and when no call fails the answer is the verdict on it. */
    method PrepareDuplicate(job: Job) returns (err: Option<Error>)
      requires job.source.Some? && script == InDup(job, StartDup(policy, job))
      modifies this
      ensures script == InDup(job, if err.Some? then Stop(err.value) else Forward(Password, Done))
      ensures Rest() == old(Rest()) && catalog == old(catalog)
      ensures err.None? ==> NamesFree(catalog, job) && SourceFits(policy, catalog, job)
      ensures err.None? ==> Verdict(policy, catalog, job).None?
      ensures NoMoreFaults(faults, old(calls)) ==> err == Verdict(policy, catalog, job)
    {
      hide Run, OwnedBy, KeptRole, ValidIdentifier;
      DeniedIsKept(policy, job.owner);
      if !ValidIdentifier(job.source.value) { return Some(InvalidIdentifier); }
      if !ValidIdentifier(job.database) { return Some(InvalidIdentifier); }
      if !ValidIdentifier(job.owner) { return Some(InvalidIdentifier); }
      if policy.DatabaseDenied(job.database) || policy.OwnerDenied(job.owner) { return Some(Protected); }
      if policy.DatabaseDenied(job.source.value) { return Some(NotFound); }
      var reply := Do(Lookup(job.source.value));
      if reply.Failure? { return Some(reply.error); }
      var row, ownerRole := reply.row, reply.ownerRole;
      DeniedIsKept(policy, row.owner);
      if row.owner == "" || !row.allowConn || row.isTemplate { return Some(NotFound); }
      if !policy.Manageable(job.source.value, row) && policy.DatabaseDenied(job.source.value) { return Some(NotFound); }
      if ownerRole.superuser || !ownerRole.login || policy.OwnerDenied(row.owner) { return Some(Protected); }
      if job.owner == row.owner { return Some(FieldError(OwnerField)); }
      if !policy.hasVaultKey { return Some(Unavailable); }
      err := NamesAreFree(job);
    }

    /** The last checks of PrepareDuplicate: database, role and vault row are not there. */
    method NamesAreFree(job: Job) returns (err: Option<Error>)
      requires job.source.Some? && script == InDup(job, Forward(AskDatabase, Done))
      modifies this
      ensures script == InDup(job, if err.Some? then Stop(err.value) else Forward(Password, Done))
      ensures Rest() == old(Rest()) && catalog == old(catalog)
      ensures err.None? ==> NamesFree(catalog, job)
      ensures NoMoreFaults(faults, old(calls)) ==> err == NameVerdict(catalog, job)
    {
      hide Run, OwnedBy;
      var reply := Do(DatabaseExists(job.database));
      if reply.Failure? { return Some(reply.error); }
      if reply.yes { return Some(Conflict(DatabaseField)); }
      reply := Do(RoleExists(job.owner));
      if reply.Failure? { return Some(reply.error); }
      if reply.yes { return Some(Conflict(OwnerField)); }
      reply := Do(SavedRole(job.owner));
      if reply.Failure? { return Some(reply.error); }
      if reply.yes { return Some(Conflict(OwnerField)); }
      return None;
    }

    /** Undoes what the flags say, newest first; a failing call is ignored, but its piece
        and what depends on it stay. */
    method CompensateCreate(job: Job, createdRole: bool, createdDB: bool, insertedVault: bool, ghost cause: Error)
      requires script == InDup(job, UndoFrom(policy, job, DeleteVault, cause, Pieces(createdRole, createdDB, insertedVault), true))
      modifies this
      ensures script.InDup? && script.job == job && script.dup.Finished? && script.dup.failure == Some(cause)
      ensures Rest() == old(Rest())
    {
      hide Run, Perform, SourceError, After, StageError, OwnedBy, StageCall, Expected;
      if insertedVault {
        var _ := Do(DeleteCredential(job.owner));
      }
      if createdDB && !policy.DatabaseDenied(job.database) {
        var _ := Do(DropIfExists(job.database));
      }
      if createdRole && !policy.OwnerDenied(job.owner) {
        var n := Do(OwnedDatabaseCount(job.owner));
        if n == Count(0) {
          var _ := Do(DropRole(job.owner));
        }
      }
    }

    /** The steps that Create and Duplicate share until the role may be granted. */
    method MakeOwner(job: Job) returns (err: Option<Error>, createdRole: bool)
      requires script.InDup? && script.job == job && script.dup.Forward? && script.dup.stage == MakeRole
      modifies this
      ensures !createdRole ==> err.Some?
      ensures var s := old(script).dup.snap;
              script == InDup(job, if err.None? then After(policy, job, GrantSet, s)
                                   else UndoFrom(policy, job, DeleteVault, err.value, Pieces(createdRole, false, false), true))
      ensures Rest() == old(Rest())
    {
      createdRole := false;
      err := Make(job, MakeRole, CreateRole(job.owner));
      if err.Some? { return; }
      createdRole := true;
      if !policy.SkipGrantSetRole(job.owner) {
        err := Make(job, GrantSet, GrantSetRole(job.owner, policy.admin));
      }
    }

    /** LockConnect: two statements, either of which may fail. */
    method LockConnect(job: Job) returns (err: Option<Error>)
      requires script.InDup? && script.job == job && script.dup.Forward? && script.dup.stage == Revoke
      modifies this
      ensures var s := old(script).dup.snap;
              script == InDup(job, if err.None? then After(policy, job, Grant, s)
                                   else UndoFrom(policy, job, DeleteVault, err.value, Pieces(true, true, false), true))
      ensures Rest() == old(Rest())
    {
      err := Make(job, Revoke, RevokePublicConnect(job.database));
      if err.Some? { return; }
      err := Make(job, Grant, GrantConnect(job.database, job.owner));
    }

    /** assertSourceUnchanged against the snapshot taken first. */
    method AssertSourceUnchanged(job: Job, snapshot: Reply) returns (err: Option<Error>)
      requires script.InDup? && script.job == job && job.source.Some? && script.dup.Forward?
      requires script.dup.stage in {FirstCheck, LastCheck} && script.dup.snap == snapshot
      modifies this
      ensures var s := old(script).dup.stage;
              script == InDup(job, if err.None? then After(policy, job, s, snapshot)
                                   else UndoFrom(policy, job, DeleteVault, err.value, Made(s), true))
      ensures Rest() == old(Rest())
    {
      var current := Do(OwnershipSnapshot(job.source.value));
      if current.Failure? { return Some(current.error); }
      if current != snapshot { return Some(IsolationChanged); }
      return None;
    }

    /** From CREATE DATABASE to the first check that the source did not change. */
    method MakeClone(job: Job, snapshot: Reply) returns (err: Option<Error>, createdDB: bool)
      requires job.source.Some? && script == InDup(job, Forward(Terminate, snapshot))
      modifies this
      ensures script == InDup(job, if err.None? then Forward(Seal, snapshot)
                                   else UndoFrom(policy, job, DeleteVault, err.value, Pieces(true, createdDB, false), true))
      ensures err.None? ==> createdDB
      ensures Rest() == old(Rest())
    {
      hide Run;
      createdDB := false;
      err := Make(job, Terminate, TerminateSessions(job.source.value));
      if err.Some? { return; }
      err := Make(job, MakeDatabase, CreateFromTemplate(job.database, job.source.value, job.owner));
      if err.Some? { return; }
      createdDB := true;
      err := LockConnect(job);
      if err.Some? { return; }
      err := AssertSourceUnchanged(job, snapshot);
    }

    /** Encrypting the password and saving it. */
    method SavePassword(job: Job) returns (err: Option<Error>)
      requires script.InDup? && script.job == job && script.dup.Forward? && script.dup.stage == Seal
      modifies this
      ensures var s := old(script).dup.snap;
              script == InDup(job, if err.None? then After(policy, job, SaveVault, s)
                                   else UndoFrom(policy, job, DeleteVault, err.value, Pieces(true, true, false), true))
      ensures Rest() == old(Rest())
    {
      err := Make(job, Seal, Encrypt);
      if err.Some? { return; }
      err := Make(job, SaveVault, InsertCredential(job.owner, job.token));
    }

    /** The part of Duplicate that creates things, with the flags its undo needs. */
    method BuildClone(job: Job, snapshot: Reply)
      returns (err: Option<Error>, createdRole: bool, createdDB: bool, insertedVault: bool)
      requires job.source.Some? && script == InDup(job, Forward(MakeRole, snapshot))
      modifies this
      ensures script == InDup(job, if err.None? then Finished(None, ALL, true)
                                   else UndoFrom(policy, job, DeleteVault, err.value, Pieces(createdRole, createdDB, insertedVault), true))
      ensures Rest() == old(Rest())
    {
      hide Run;
      createdRole, createdDB, insertedVault := false, false, false;
      err, createdRole := MakeOwner(job);
      if err.Some? { return; }
      err, createdDB := MakeClone(job, snapshot);
      if err.Some? { return; }
      err := SavePassword(job);
      if err.Some? { return; }
      insertedVault := true;
      err := Make(job, Move, TransferOwnership(job.database, job.owner));
      if err.Some? { return; }
      err := AssertSourceUnchanged(job, snapshot);
    }

    /** Password, in-process lock and snapshot: nothing to undo yet. */
    method TakeSnapshot(job: Job) returns (snapshot: Reply, err: Option<Error>)
      requires job.source.Some? && script == InDup(job, Forward(Password, Done))
      modifies this
      ensures script == InDup(job, if err.Some? then Stop(err.value) else Forward(MakeRole, snapshot))
      ensures Rest() == old(Rest())
    {
      hide Run, OwnedBy, SourceError;
      snapshot := Done;
      err := Make(job, Password, GeneratePassword);
      if err.Some? { return; }
      err := Make(job, LockJob, LockNames);
      if err.Some? { return; }
      snapshot := Do(OwnershipSnapshot(job.source.value));
      err := if snapshot.Failure? then Some(snapshot.error) else None;
    }

    method Duplicate(job: Job) returns (err: Option<Error>)
      requires job.source.Some?
      modifies this
      ensures Ready(script) && script.InDup? && script.dup.Finished? && script.dup.failure == err
      ensures (script, catalog) == Run(policy, InDup(job, StartDup(policy, job)), old(catalog), faults, old(calls))
      ensures Sound(old(catalog)) ==>
        (err.None? ==> catalog == AfterSuccess(policy, old(catalog), job) && Verdict(policy, old(catalog), job).None?) &&
        (err.Some? && script.dup.clean ==> catalog == old(catalog)) &&
        (NoMoreFaults(faults, old(calls)) ==> err == Verdict(policy, old(catalog), job))
    {
      script := InDup(job, StartDup(policy, job));
      if Sound(catalog) && Some(job.database) != job.source {
        StartIsSoFar(policy, catalog, job);
        AllOrNothing(policy, catalog, job, StartDup(policy, job), catalog, faults, calls);
        if NoMoreFaults(faults, calls) { FaultFreeRunIsVerdict(policy, catalog, job, faults, calls); }
      }
      err := PrepareDuplicate(job);
      if err.Some? { return; }
      var snapshot;
      snapshot, err := TakeSnapshot(job);
      if err.Some? { return; }
      var createdRole, createdDB, insertedVault;
      err, createdRole, createdDB, insertedVault := BuildClone(job, snapshot);
      if err.Some? {
        CompensateCreate(job, createdRole, createdDB, insertedVault, err.value);
      }
    }

    /** The checks of Create before it changes anything. */
    method PrepareCreate(job: Job) returns (err: Option<Error>)
      requires job.source.None? && script == InDup(job, StartDup(policy, job))
      modifies this
      ensures script == InDup(job, if err.Some? then Stop(err.value) else Forward(MakeRole, Done))
      ensures Rest() == old(Rest())
    {
      if !ValidIdentifier(job.database) { return Some(InvalidIdentifier); }
      if !ValidIdentifier(job.owner) { return Some(InvalidIdentifier); }
      if policy.DatabaseDenied(job.database) || policy.OwnerDenied(job.owner) { return Some(Protected); }
      if !policy.hasVaultKey { return Some(Unavailable); }
      var reply := Do(DatabaseExists(job.database));
      if reply.Failure? { return Some(reply.error); }
      if reply.yes { return Some(Conflict(DatabaseField)); }
      reply := Do(RoleExists(job.owner));
      if reply.Failure? { return Some(reply.error); }
      if reply.yes { return Some(Conflict(OwnerField)); }
      err := Make(job, Password, GeneratePassword);
    }

    /** The part of Create that creates things. */
    method BuildDatabase(job: Job) returns (err: Option<Error>, createdRole: bool, createdDB: bool)
      requires job.source.None? && script == InDup(job, Forward(MakeRole, Done))
      modifies this
      ensures script == InDup(job, if err.None? then Finished(None, ALL, true)
                                   else UndoFrom(policy, job, DeleteVault, err.value, Pieces(createdRole, createdDB, false), true))
      ensures Rest() == old(Rest())
    {
      hide Run;
      createdRole, createdDB := false, false;
      err, createdRole := MakeOwner(job);
      if err.Some? { return; }
      err := Make(job, MakeDatabase, CreateDatabase(job.database, job.owner));
      if err.Some? { return; }
      createdDB := true;
      err := LockConnect(job);
      if err.Some? { return; }
      err := SavePassword(job);
    }

    method Create(job: Job) returns (err: Option<Error>)
      requires job.source.None?
      modifies this
      ensures Ready(script) && script.InDup? && script.dup.Finished? && script.dup.failure == err
      ensures (script, catalog) == Run(policy, InDup(job, StartDup(policy, job)), old(catalog), faults, old(calls))
      ensures Sound(old(catalog)) ==>
        (err.None? ==> catalog == AfterSuccess(policy, old(catalog), job) && Verdict(policy, old(catalog), job).None?) &&
        (err.Some? && script.dup.clean ==> catalog == old(catalog)) &&
        (NoMoreFaults(faults, old(calls)) ==> err == Verdict(policy, old(catalog), job))
    {
      script := InDup(job, StartDup(policy, job));
      if Sound(catalog) {
        StartIsSoFar(policy, catalog, job);
        AllOrNothing(policy, catalog, job, StartDup(policy, job), catalog, faults, calls);
        StartIsVerdict(policy, catalog, job);
        SuccessMeansFree(policy, catalog, job, StartDup(policy, job), catalog, faults, calls);
        if NoMoreFaults(faults, calls) { FaultFreeRunIsVerdict(policy, catalog, job, faults, calls); }
      }
      err := PrepareCreate(job);
      if err.Some? { return; }
      var createdRole, createdDB;
      err, createdRole, createdDB := BuildDatabase(job);
      if err.Some? {
        CompensateCreate(job, createdRole, createdDB, false, err.value);
      }
    }

    method DropLeftoverDatabase(job: Job) returns (ok: bool)
      requires script == InComp(job, StartComp(policy, job))
      modifies this
      ensures script == InComp(job, if ok then CompAskRole else CompEnd(false))
      ensures Rest() == old(Rest())
    {
      if Some(job.database) != job.source && !policy.DatabaseDenied(job.database) {
        var reply := Do(DatabaseExists(job.database));
        if reply.Failure? { return false; }
        if reply.yes {
          reply := Do(DropIfExists(job.database));
          if reply.Failure? { return false; }
        }
      }
      return true;
    }

    method DropLeftoverRole(job: Job) returns (ok: bool)
      requires script == InComp(job, CompAskRole)
      modifies this
      ensures script == InComp(job, CompEnd(ok))
      ensures Rest() == old(Rest())
    {
      hide Run;
      var reply := Do(RoleExists(job.owner));
      if reply.Failure? { return false; }
      if !reply.yes { return true; }
      reply := Do(OwnedDatabaseCount(job.owner));
      if reply.Failure? { return false; }
      if reply.n > 0 { return true; }
      ok := DropFreeRole(job);
    }

    method DropFreeRole(job: Job) returns (ok: bool)
      requires script == InComp(job, CompAskVault)
      modifies this
      ensures script == InComp(job, CompEnd(ok))
      ensures Rest() == old(Rest())
    {
      hide Run;
      var reply := Do(SavedRole(job.owner));
      if reply.Failure? { return false; }
      if reply.yes {
        reply := Do(DeleteCredential(job.owner));
        if reply.Failure? { return false; }
      }
      if policy.OwnerDenied(job.owner) { return true; }
      reply := Do(DropRole(job.owner));
      return !reply.Failure?;
    }

    method CompensateDuplicate(job: Job) returns (ok: bool)
      modifies this
      ensures script == InComp(job, CompEnd(ok))
      ensures (script, catalog) == Run(policy, InComp(job, StartComp(policy, job)), old(catalog), faults, old(calls))
    {
      script := InComp(job, StartComp(policy, job));
      ok := DropLeftoverDatabase(job);
      if ok {
        ok := DropLeftoverRole(job);
      }
    }

    method LookupDropTarget(database: Name, checked: bool) returns (owner: Name, err: Option<Error>)
      requires script.InDrop? && script.db == database && script.checked == checked
      requires script.drop == DropAsk || (checked && script.drop == DropAskAgain)
      modifies this
      ensures script == InDrop(database, checked,
                if err.Some? then DropRefused(err.value)
                else if checked && old(script).drop == DropAsk then DropBefore else DropTerminate(owner))
      ensures Rest() == old(Rest())
    {
      owner := "";
      var reply := Do(Lookup(database));
      if reply.Failure? { return "", Some(reply.error); }
      if !policy.Manageable(database, reply.row) { return "", Some(NotFound); }
      return reply.row.owner, None;
    }

    /** dropOwnerIfUnowned: the role goes only when it owns nothing, then its vault row. */
    method DropOwnerIfUnowned(database: Name, checked: bool, owner: Name) returns (droppedRole: bool, err: Option<Error>)
      requires owner != "" && !policy.OwnerDenied(owner) ==> script == InDrop(database, checked, DropCount(owner))
      requires !(owner != "" && !policy.OwnerDenied(owner)) ==> script == InDrop(database, checked, DropEnd(None, true, false))
      modifies this
      ensures script == InDrop(database, checked, DropEnd(err, true, droppedRole))
      ensures Rest() == old(Rest())
    {
      if owner == "" || policy.OwnerDenied(owner) { return false, None; }
      var n := Do(OwnedDatabaseCount(owner));
      if n != Count(0) { return false, None; }
      var reply := Do(DropRole(owner));
      if reply.Failure? { return false, Some(RoleDropFailed); }
      reply := Do(DeleteCredential(owner));
      if reply.Failure? { return false, Some(VaultDeleteFailed); }
      return true, None;
    }

    method TerminateAndDrop(database: Name, checked: bool, owner: Name) returns (err: Option<Error>)
      requires script == InDrop(database, checked, DropTerminate(owner))
      modifies this
      ensures script == InDrop(database, checked,
                if err.Some? then DropRefused(Unavailable)
                else if owner != "" && !policy.OwnerDenied(owner) then DropCount(owner) else DropEnd(None, true, false))
      ensures err.None? || err == Some(Unavailable)
      ensures Rest() == old(Rest())
    {
      hide Run, Perform;
      var reply := Do(TerminateSessions(database));
      if reply.Failure? { return Some(Unavailable); }
      reply := Do(DropDatabase(database));
      return if reply.Failure? then Some(Unavailable) else None;
    }

    /** DropAfterValidation inside its drop lock; checked says whether there is a beforeDrop.
        The answer says exactly what is left, and follows from the calls that failed. */
    method Drop(database: Name, checked: bool) returns (dropped: bool, droppedRole: bool, err: Option<Error>)
      modifies this
      ensures script == InDrop(database, checked, DropEnd(err, dropped, droppedRole))
      ensures (script, catalog) == Run(policy, InDrop(database, checked, StartDrop(policy, database)), old(catalog), faults, old(calls))
      ensures DropLeft(policy, old(catalog), database, catalog, err, dropped, droppedRole)
      ensures AnswerIs(policy, old(catalog), database, checked, faults, old(calls), err, dropped, droppedRole)
    {
      hide Perform, OwnedBy, SourceError, Droppable, OwnerLeaves, WithoutDatabase, WithoutRole, WithoutVaultRow, NoFault;
      hide DropLeft, AnswerIs;
      DropStarts(policy, catalog, database);
      DropLeaves(policy, catalog, database, checked, StartDrop(policy, database), catalog, faults, calls);
      DropAnswers(policy, catalog, database, checked, faults, calls);
      dropped, droppedRole := false, false;
      script := InDrop(database, checked, StartDrop(policy, database));
      if !ValidIdentifier(database) { return false, false, Some(InvalidIdentifier); }
      if policy.DatabaseDenied(database) { return false, false, Some(NotFound); }
      var owner;
      owner, err := LookupDropTarget(database, checked);
      if err.Some? { return; }
      if checked {
        var reply := Do(ExternalCheck);
        if reply.Failure? { return false, false, Some(reply.error); }
        owner, err := LookupDropTarget(database, checked);
        if err.Some? { return; }
      }
      err := TerminateAndDrop(database, checked, owner);
      if err.Some? { return; }
      dropped := true;
      droppedRole, err := DropOwnerIfUnowned(database, checked, owner);
    }
  }
}
