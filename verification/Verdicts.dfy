/** Which jobs Create and Duplicate serve, and which error each other job meets, told by
    the catalog before the call. */
module Verdicts {
  import opened Prelude
  import opened Catalog
  import opened Scripts
  import opened ScriptProofs

  /** Roles that the policy keeps: those it lists, and the server's own. */
  predicate KeptRole(p: Policy, name: Name) {
    name in p.roles || (|name| >= 3 && name[0] == 'p' && name[1] == 'g' && name[2] == '_')
  }

  lemma DeniedIsKept(p: Policy, name: Name)
    ensures p.OwnerDenied(name) <==> KeptRole(p, name)
  {
    assert "pg_"[0] == 'p' && "pg_"[1] == 'g' && "pg_"[2] == '_';
  }

  /** What is wrong with the source of a job. */
  function SourceVerdict(p: Policy, c: Catalog, source: Name, owner: Name): Option<Error> {
    if source in p.databases || source !in c.dbs then Some(NotFound)
    else
      var row := c.dbs[source];
      if row.owner == "" || !row.allowConn || row.isTemplate then Some(NotFound)
      else if row.owner !in c.roles || c.roles[row.owner].superuser || !c.roles[row.owner].login || KeptRole(p, row.owner)
      then Some(Protected)
      else if row.owner == owner then Some(FieldError(OwnerField))
      else if !p.hasVaultKey then Some(Unavailable)
      else None
  }

  /** The first of a job's new names that is taken. */
  function NameVerdict(c: Catalog, j: Job): Option<Error> {
    if j.database in c.dbs then Some(Conflict(DatabaseField))
    else if j.owner in c.roles || j.owner in c.vault then Some(Conflict(OwnerField))
    else None
  }

  /** The error that a job meets when no call fails. */
  function Verdict(p: Policy, c: Catalog, j: Job): Option<Error> {
    if !ValidIdentifier(j.database) || !ValidIdentifier(j.owner) || (j.source.Some? && !ValidIdentifier(j.source.value))
    then Some(InvalidIdentifier)
    else if j.database in p.databases || KeptRole(p, j.owner) then Some(Protected)
    else if j.source.None? && !p.hasVaultKey then Some(Unavailable)
    else if j.source.Some? && SourceVerdict(p, c, j.source.value, j.owner).Some? then
      SourceVerdict(p, c, j.source.value, j.owner)
    else NameVerdict(c, j)
  }

  // ----- no failing call -----

  ghost predicate NoMoreFaults(faults: nat -> bool, k: nat) {
    forall i :: k <= i ==> !faults(i)
  }

  /** What is still to be found out at a forward stage. */
  function VerdictFrom(p: Policy, c: Catalog, j: Job, s: Stage): Option<Error> {
    if s == AskSource && j.source.Some? && SourceVerdict(p, c, j.source.value, j.owner).Some? then
      SourceVerdict(p, c, j.source.value, j.owner)
    else NameVerdict(c, j)
  }

  /** What a stage has behind it. */
  predicate Passed(p: Policy, c: Catalog, j: Job, s: Stage, snap: Reply) {
    HasSource(j, s) && Allowed(p, j) &&
    (j.source.Some? ==> j.source.value !in p.databases) &&
    (s != AskSource && j.source.Some? ==> SourceVerdict(p, c, j.source.value, j.owner).None?) &&
    (Index(s) > 1 ==> j.database !in c.dbs) && (Index(s) > 2 ==> j.owner !in c.roles) &&
    ((Index(s) > 3 && j.source.Some?) || Index(s) > 15 ==> j.owner !in c.vault) &&
    (s == GrantSet ==> !p.SkipGrantSetRole(j.owner)) &&
    (j.source.Some? && Index(s) > 6 ==>
       j.source.value in c.dbs && snap == Snapshot(c.dbs[j.source.value].owner, c.dbs[j.source.value].connect))
  }

  /** What the calls see of the source and of the new names at a stage. */
  lemma SeenAt(p: Policy, c: Catalog, j: Job, s: Stage, snap: Reply)
    requires Passed(p, c, j, s, snap)
    ensures var cat := CatalogAt(p, c, j, s);
            (j.source.Some? && s != AskSource ==> j.source.value in cat.dbs && cat.dbs[j.source.value] == c.dbs[j.source.value]) &&
            (s in {AskSource, AskDatabase, AskRole, AskVault} ==> cat == c) &&
            (Index(s) > 2 ==> (j.owner in cat.roles <==> Made(s).role) && (j.database in cat.dbs <==> Made(s).db)) &&
            (j.owner in cat.vault <==> j.owner in c.vault || Made(s).vault)
  {
    hide SourceVerdict, Transferred, RowAt;
    if j.source.Some? && s != AskSource { SourceIsThere(p, c, j.source.value, j.owner); }
  }

  lemma SourceIsThere(p: Policy, c: Catalog, source: Name, owner: Name)
    requires SourceVerdict(p, c, source, owner).None?
    ensures source in c.dbs
  {
  }

  /** The error a stage meets without a fault. */
  lemma AskAnswers(p: Policy, c: Catalog, j: Job, s: Stage, snap: Reply)
    requires Passed(p, c, j, s, snap) && s in {AskSource, AskDatabase, AskRole, AskVault}
    ensures var reply := Perform(p, c, StageCall(p, j, s)).1;
            StageError(p, j, Forward(s, snap), reply) ==
              match s
              case AskSource => SourceVerdict(p, c, j.source.value, j.owner)
              case AskDatabase => if j.database in c.dbs then Some(Conflict(DatabaseField)) else None
              case AskRole => if j.owner in c.roles then Some(Conflict(OwnerField)) else None
              case _ => if j.owner in c.vault then Some(Conflict(OwnerField)) else None
  {
    if s == AskSource && j.source.value in c.dbs { DeniedIsKept(p, c.dbs[j.source.value].owner); }
  }

  /** The error a making stage meets: only the vault row of Create can be taken. */
  lemma MakeAnswers(p: Policy, c: Catalog, j: Job, s: Stage, snap: Reply)
    requires Passed(p, c, j, s, snap) && s !in {AskSource, AskDatabase, AskRole, AskVault}
    ensures var reply := Perform(p, CatalogAt(p, c, j, s), StageCall(p, j, s)).1;
            StageError(p, j, Forward(s, snap), reply) ==
              (if s == SaveVault && j.owner in c.vault then Some(Conflict(OwnerField)) else None) &&
            (s == Snap ==> reply == Snapshot(c.dbs[j.source.value].owner, c.dbs[j.source.value].connect))
  {
    hide CatalogAt, SourceVerdict, Allowed, Perform, StageError, StageCall;
    SeenAt(p, c, j, s, snap);
    CallAnswers(p, CatalogAt(p, c, j, s), j, s, snap);
  }

  lemma CallAnswers(p: Policy, cat: Catalog, j: Job, s: Stage, snap: Reply)
    requires HasSource(j, s) && s !in {AskSource, AskDatabase, AskRole, AskVault}
    requires (j.owner in cat.roles <==> Made(s).role) && (j.database in cat.dbs <==> Made(s).db)
    requires j.source.Some? ==>
      j.source.value in cat.dbs &&
      (s in {FirstCheck, LastCheck} ==> snap == Snapshot(cat.dbs[j.source.value].owner, cat.dbs[j.source.value].connect))
    ensures var reply := Perform(p, cat, StageCall(p, j, s)).1;
            StageError(p, j, Forward(s, snap), reply) ==
              (if s == SaveVault && j.owner in cat.vault then Some(Conflict(OwnerField)) else None) &&
            (s == Snap ==> reply == Snapshot(cat.dbs[j.source.value].owner, cat.dbs[j.source.value].connect))
  {
    hide Transferred, OwnedBy;
    match s
    case MakeRole =>
    case MakeDatabase =>
    case SaveVault =>
    case Move =>
    case _ =>
  }

  /** The next stage has the answered one behind it. */
  lemma PassedOn(p: Policy, c: Catalog, j: Job, s: Stage, snap: Reply, reply: Reply)
    requires Passed(p, c, j, s, snap)
    requires s in {AskSource, AskDatabase, AskRole, AskVault} ==> VerdictPassed(p, c, j, s)
    requires s == SaveVault ==> j.owner !in c.vault
    requires s == Snap ==> reply == Snapshot(c.dbs[j.source.value].owner, c.dbs[j.source.value].connect)
    ensures var n := After(p, j, s, if s == Snap then reply else snap);
            if n.Forward? then Passed(p, c, j, n.stage, n.snap) else n == Finished(None, ALL, true) && NameVerdict(c, j).None?
  {
    if j.source.Some? && (s != AskSource || SourceVerdict(p, c, j.source.value, j.owner).None?) {
      SourceIsThere(p, c, j.source.value, j.owner);
    }
    hide SourceVerdict;
  }

  /** The question of an asking stage was answered well. */
  predicate VerdictPassed(p: Policy, c: Catalog, j: Job, s: Stage) {
    match s
    case AskSource => j.source.Some? && SourceVerdict(p, c, j.source.value, j.owner).None?
    case AskDatabase => j.database !in c.dbs
    case AskRole => j.owner !in c.roles
    case AskVault => j.owner !in c.vault
    case _ => true
  }

  /** An undo ends with the error that began it. */
  lemma {:induction false} UndoEndsWith(p: Policy, j: Job, d: Dup, c: Catalog, faults: nat -> bool, k: nat)
    requires d.Undo? || (d.Finished? && d.failure.Some?)
    ensures var e := Run(p, InDup(j, d), c, faults, k).0;
            e.InDup? && e.job == j && e.dup.Finished? && e.dup.failure == Some(if d.Undo? then d.error else d.failure.value)
    decreases Weight(InDup(j, d))
  {
    if d.Undo? {
      var (s', c') := StepOf(p, InDup(j, d), c, faults(k));
      UndoEndsWith(p, j, s'.dup, c', faults, k + 1);
    }
  }

  /** From any forward stage on, a run that meets no failing call ends with the verdict. */
  lemma {:induction false} VerdictReached(p: Policy, c: Catalog, j: Job, s: Stage, snap: Reply, faults: nat -> bool, k: nat)
    requires Sound(c) && Passed(p, c, j, s, snap) && SoFar(p, c, j, Forward(s, snap), CatalogAt(p, c, j, s))
    requires NoMoreFaults(faults, k)
    ensures var e := Run(p, InDup(j, Forward(s, snap)), CatalogAt(p, c, j, s), faults, k).0;
            e.InDup? && e.job == j && e.dup.Finished? && e.dup.failure == VerdictFrom(p, c, j, s)
    decreases Weight(InDup(j, Forward(s, snap)))
  {
    var d, cat := Forward(s, snap), CatalogAt(p, c, j, s);
    var reply := Perform(p, cat, StageCall(p, j, s)).1;
    var error := StageError(p, j, d, reply);
    var (n, c') := StepOf(p, InDup(j, d), cat, false);
    StageAnswers(p, c, j, s, snap);
    if error.Some? {
      UndoEndsWith(p, j, n.dup, c', faults, k + 1);
    } else {
      ForwardStepSoFar(p, c, j, d, cat, false);
      PassedOn(p, c, j, s, snap, reply);
      if n.dup.Forward? { VerdictReached(p, c, j, n.dup.stage, n.dup.snap, faults, k + 1); }
    }
  }

  /** Both kinds of stage, with what their error says of the verdict. */
  lemma StageAnswers(p: Policy, c: Catalog, j: Job, s: Stage, snap: Reply)
    requires Passed(p, c, j, s, snap)
    ensures var reply := Perform(p, CatalogAt(p, c, j, s), StageCall(p, j, s)).1;
            var error := StageError(p, j, Forward(s, snap), reply);
            (error.Some? ==> error == VerdictFrom(p, c, j, s)) &&
            (error.None? ==> VerdictPassed(p, c, j, s) && (s == SaveVault ==> j.owner !in c.vault)) &&
            (s == Snap ==> reply == Snapshot(c.dbs[j.source.value].owner, c.dbs[j.source.value].connect))
  {
    if s in {AskSource, AskDatabase, AskRole, AskVault} {
      SeenAt(p, c, j, s, snap);
      AskAnswers(p, c, j, s, snap);
    } else {
      MakeAnswers(p, c, j, s, snap);
    }
    hide Perform, StageError, StageCall, CatalogAt, SourceVerdict;
  }

  lemma StartIsVerdict(p: Policy, c: Catalog, j: Job)
    ensures var d := StartDup(p, j);
            if d.Finished? then d.failure.Some? && d.failure == Verdict(p, c, j)
            else
              d.Forward? && HasSource(j, d.stage) && Verdict(p, c, j) == VerdictFrom(p, c, j, d.stage) &&
              d.stage == (if j.source.Some? then AskSource else AskDatabase) &&
              (Some(j.database) != j.source ==> Passed(p, c, j, d.stage, d.snap))
  {
    DeniedIsKept(p, j.owner);
    hide ValidIdentifier, KeptRole;
  }

  /** Create and Duplicate without a failing call end with the verdict: a job with none is
      served, and any other meets its first error. */
  lemma FaultFreeRunIsVerdict(p: Policy, c: Catalog, j: Job, faults: nat -> bool, k: nat)
    requires Sound(c) && Some(j.database) != j.source && NoMoreFaults(faults, k)
    ensures var e := Run(p, InDup(j, StartDup(p, j)), c, faults, k).0;
            e.InDup? && e.job == j && e.dup.Finished? && e.dup.failure == Verdict(p, c, j)
  {
    hide Passed, Verdict, VerdictFrom, NoMoreFaults;
    var d := StartDup(p, j);
    StartIsVerdict(p, c, j);
    StartIsSoFar(p, c, j);
    if d.Forward? {
      assert CatalogAt(p, c, j, d.stage) == c;
      VerdictReached(p, c, j, d.stage, d.snap, faults, k);
    }
  }

  /** Success means that the names were free, whatever failed in between. */
  lemma {:induction false} SuccessMeansFree(p: Policy, c0: Catalog, j: Job, d: Dup, c: Catalog, faults: nat -> bool, k: nat)
    requires Sound(c0) && SoFar(p, c0, j, d, c) && !(d.Finished? && d.failure.None?)
    ensures var e := Run(p, InDup(j, d), c, faults, k).0;
            e.InDup? && e.dup.Finished? && (e.dup.failure.None? ==> NameVerdict(c0, j).None?)
    decreases Weight(InDup(j, d))
  {
    if d.Undo? {
      UndoEndsWith(p, j, d, c, faults, k);
    } else if d.Forward? {
      var fault := faults(k);
      var (n, c') := StepOf(p, InDup(j, d), c, fault);
      if StageError(p, j, d, Attempt(p, c, DupCall(p, j, d), fault).1).Some? {
        UndoEndsWith(p, j, n.dup, c', faults, k + 1);
      } else {
        ForwardStepSoFar(p, c0, j, d, c, fault);
        if n.dup.Finished? {
          LastStageFree(p, c0, j, d, c, fault);
        } else {
          SuccessMeansFree(p, c0, j, n.dup, c', faults, k + 1);
        }
      }
    }
  }

  lemma LastStageFree(p: Policy, c0: Catalog, j: Job, d: Dup, c: Catalog, fault: bool)
    requires SoFar(p, c0, j, d, c) && d.Forward?
    requires StageError(p, j, d, Attempt(p, c, DupCall(p, j, d), fault).1).None?
    requires StepOf(p, InDup(j, d), c, fault).0.dup.Finished?
    ensures NameVerdict(c0, j).None?
  {
    hide SourceError, Transferred, OwnedBy;
    assert d.stage == LastCheck || d.stage == SaveVault;
  }

  // ----- what the transfer hands over -----

  /** The owners whose objects stay theirs: superusers and the policy's roles. */
  predicate StaysOwner(p: Policy, c: Catalog, owner: Name) {
    (owner in c.roles && c.roles[owner].superuser) || KeptRole(p, owner)
  }

  lemma HandedOver(p: Policy, c: Catalog, objects: seq<Name>, newOwner: Name, i: nat)
    requires i < |objects|
    ensures Transferred(p, c, objects, newOwner)[i] == if StaysOwner(p, c, objects[i]) then objects[i] else newOwner
  {
    DeniedIsKept(p, objects[i]);
  }
}
