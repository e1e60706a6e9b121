/** What Drop (drop.go) leaves behind, under every schedule of failing calls and at every
    call after which the process might die. */
module DropProofs {
  import opened Prelude
  import opened Catalog
  import opened Scripts
  import opened ScriptProofs
  import opened Verdicts

  /** The database takes connections and is no template, and neither it nor its owner is the
      policy's. */
  predicate Droppable(p: Policy, c0: Catalog, db: Name) {
    ValidIdentifier(db) && db in c0.dbs && c0.dbs[db].allowConn && !c0.dbs[db].isTemplate &&
    db !in p.databases && !KeptRole(p, c0.dbs[db].owner)
  }

  /** The database is all that its owner owns, so that the owner goes with it. */
  predicate OwnerLeaves(c0: Catalog, db: Name) {
    db in c0.dbs && c0.dbs[db].owner != "" && OwnedBy(c0, c0.dbs[db].owner) == {db}
  }

  function WithoutDatabase(c0: Catalog, db: Name): Catalog {
    c0.(dbs := c0.dbs - {db})
  }

  /** Neither the database nor its owner's role and grants. */
  function WithoutRole(c0: Catalog, db: Name): Catalog
    requires db in c0.dbs
  {
    var o := c0.dbs[db].owner;
    WithoutDatabase(c0, db).(roles := c0.roles - {o}, grants := set g | g in c0.grants && g.0 != o && g.1 != o)
  }

  function WithoutVaultRow(c0: Catalog, db: Name): Catalog
    requires db in c0.dbs
  {
    WithoutRole(c0, db).(vault := c0.vault - {c0.dbs[db].owner})
  }

  // ----- every crash point -----

  /** The catalog at each state of a drop that began in c0. */
  predicate DropSoFar(p: Policy, c0: Catalog, db: Name, t: DropState, c: Catalog) {
    match t
    case DropAsk => c == c0 && ValidIdentifier(db)
    case DropBefore => c == c0 && ValidIdentifier(db)
    case DropAskAgain => c == c0 && ValidIdentifier(db)
    case DropTerminate(o) => Droppable(p, c0, db) && o == c0.dbs[db].owner && c == c0
    case DropIt(o) => Droppable(p, c0, db) && o == c0.dbs[db].owner && c == c0
    case DropCount(o) => Droppable(p, c0, db) && o == c0.dbs[db].owner && o != "" && c == WithoutDatabase(c0, db)
    case DropOwner(o) => Droppable(p, c0, db) && o == c0.dbs[db].owner && OwnerLeaves(c0, db) && c == WithoutDatabase(c0, db)
    case DropVault(o) => Droppable(p, c0, db) && o == c0.dbs[db].owner && OwnerLeaves(c0, db) && c == WithoutRole(c0, db)
    case DropEnd(err, dropped, droppedRole) => DropLeft(p, c0, db, c, err, dropped, droppedRole)
  }

  /** What each answer of Drop says about the catalog. */
  predicate DropLeft(p: Policy, c0: Catalog, db: Name, c: Catalog, err: Option<Error>, dropped: bool, droppedRole: bool) {
    if !dropped then c == c0 && err.Some? && !droppedRole
    else
      Droppable(p, c0, db) && (droppedRole || err.Some? ==> OwnerLeaves(c0, db)) &&
      if droppedRole then err.None? && c == WithoutVaultRow(c0, db)
      else if err == Some(VaultDeleteFailed) then c == WithoutRole(c0, db)
      else (err.None? || err == Some(RoleDropFailed)) && c == WithoutDatabase(c0, db)
  }

  lemma DropStarts(p: Policy, c0: Catalog, db: Name)
    ensures DropSoFar(p, c0, db, StartDrop(p, db), c0)
  {
  }

  lemma OwnsNothingElse(c0: Catalog, db: Name)
    requires db in c0.dbs
    ensures OwnedBy(WithoutDatabase(c0, db), c0.dbs[db].owner) == {} <==> OwnedBy(c0, c0.dbs[db].owner) == {db}
  {
    var o := c0.dbs[db].owner;
    assert OwnedBy(WithoutDatabase(c0, db), o) == OwnedBy(c0, o) - {db};
    assert db in OwnedBy(c0, o);
  }

  lemma AskStepSoFar(p: Policy, c0: Catalog, db: Name, checked: bool, t: DropState, c: Catalog, fault: bool)
    requires DropSoFar(p, c0, db, t, c) && (t.DropAsk? || t.DropBefore? || t.DropAskAgain?)
    ensures var (c', reply) := Attempt(p, c, DropCall(db, t), fault);
            DropSoFar(p, c0, db, DropNext(p, db, checked, t, reply), c')
  {
    hide ValidIdentifier, OwnedBy, Transferred, WithoutDatabase, WithoutRole, WithoutVaultRow, KeptRole, OwnerLeaves;
    if db in c.dbs { DeniedIsKept(p, c.dbs[db].owner); }
  }

  lemma ActStepSoFar(p: Policy, c0: Catalog, db: Name, checked: bool, t: DropState, c: Catalog, fault: bool)
    requires DropSoFar(p, c0, db, t, c) && !t.DropEnd? && !(t.DropAsk? || t.DropBefore? || t.DropAskAgain?)
    ensures var (c', reply) := Attempt(p, c, DropCall(db, t), fault);
            DropSoFar(p, c0, db, DropNext(p, db, checked, t, reply), c')
  {
    hide ValidIdentifier, OwnedBy, Transferred, KeptRole;
    DeniedIsKept(p, t.owner);
    if t.DropCount? {
      CountIsZero(p, c, t.owner);
      OwnsNothingElse(c0, db);
    }
  }

  lemma DropStepSoFar(p: Policy, c0: Catalog, db: Name, checked: bool, t: DropState, c: Catalog, fault: bool)
    requires DropSoFar(p, c0, db, t, c) && !t.DropEnd?
    ensures var (s', c') := StepOf(p, InDrop(db, checked, t), c, fault);
            s'.InDrop? && s'.db == db && s'.checked == checked && DropSoFar(p, c0, db, s'.drop, c')
  {
    hide DropSoFar, Attempt, DropCall, DropNext;
    if t.DropAsk? || t.DropBefore? || t.DropAskAgain? {
      AskStepSoFar(p, c0, db, checked, t, c, fault);
    } else {
      ActStepSoFar(p, c0, db, checked, t, c, fault);
    }
  }

  /** Wherever a drop dies, and whichever calls fail, the catalog is the one before, or that
      one without the database, then without the owner that owned nothing else, then without
      the owner's vault row. */
  lemma {:induction false} DropStopsInFourWays(p: Policy, c0: Catalog, db: Name, checked: bool, t: DropState, c: Catalog,
                                               faults: nat -> bool, k: nat, n: nat)
    requires DropSoFar(p, c0, db, t, c)
    ensures var (s, end) := Prefix(p, InDrop(db, checked, t), c, faults, k, n);
            s.InDrop? && DropSoFar(p, c0, db, s.drop, end) &&
            (end == c0 ||
             (Droppable(p, c0, db) &&
              (end == WithoutDatabase(c0, db) ||
               (OwnerLeaves(c0, db) && (end == WithoutRole(c0, db) || end == WithoutVaultRow(c0, db))))))
    decreases n
  {
    hide OwnedBy;
    if n != 0 && !t.DropEnd? {
      var (s', c') := StepOf(p, InDrop(db, checked, t), c, faults(k));
      DropStepSoFar(p, c0, db, checked, t, c, faults(k));
      hide StepOf, WithoutDatabase, WithoutRole, WithoutVaultRow, Droppable, OwnerLeaves, DropLeft, DropSoFar;
      DropStopsInFourWays(p, c0, db, checked, s'.drop, c', faults, k + 1, n - 1);
    } else {
      hide WithoutDatabase, WithoutRole, WithoutVaultRow, Droppable, OwnerLeaves;
    }
  }

  // ----- the answer -----

  /** The number of calls before the sessions are terminated. */
  function Asking(checked: bool): nat { if checked then 3 else 1 }

  predicate NoFault(faults: nat -> bool, from: nat, to: nat) {
    forall i :: from <= i < to ==> !faults(i)
  }

  /** Drop's answer, told by the catalog before and the calls that fail: k is the first. */
  predicate AnswerIs(p: Policy, c0: Catalog, db: Name, checked: bool, faults: nat -> bool, k: nat,
                     err: Option<Error>, dropped: bool, droppedRole: bool) {
    var count := k + Asking(checked) + 2;
    (dropped <==> Droppable(p, c0, db) && NoFault(faults, k, count)) &&
    (droppedRole <==> dropped && OwnerLeaves(c0, db) && NoFault(faults, count, count + 3)) &&
    (err == Some(RoleDropFailed) <==> dropped && OwnerLeaves(c0, db) && !faults(count) && faults(count + 1)) &&
    (err == Some(VaultDeleteFailed) <==>
       dropped && OwnerLeaves(c0, db) && NoFault(faults, count, count + 2) && faults(count + 2)) &&
    (!dropped ==> err == Some(if !ValidIdentifier(db) then InvalidIdentifier else if db in p.databases then NotFound
                              else if !faults(k) && !Droppable(p, c0, db) then NotFound else Unavailable))
  }

  /** How a drop ends from the count of the owner's databases on. */
  function AfterCount(leaves: bool, faults: nat -> bool, k: nat): DropState {
    if !leaves || faults(k) then DropEnd(None, true, false)
    else if faults(k + 1) then DropEnd(Some(RoleDropFailed), true, false)
    else if faults(k + 2) then DropEnd(Some(VaultDeleteFailed), true, false)
    else DropEnd(None, true, true)
  }

  lemma RunStep(p: Policy, s: Script, c: Catalog, faults: nat -> bool, k: nat)
    requires Ready(s)
    ensures Run(p, s, c, faults, k) ==
            if Ended(s) then (s, c) else Run(p, StepOf(p, s, c, faults(k)).0, StepOf(p, s, c, faults(k)).1, faults, k + 1)
  {
  }

  lemma {:induction false} OwnerAnswer(p: Policy, c0: Catalog, db: Name, checked: bool, t: DropState, c: Catalog,
                                       faults: nat -> bool, k: nat)
    requires DropSoFar(p, c0, db, t, c) && t.DropOwner?
    ensures Run(p, InDrop(db, checked, t), c, faults, k).0 == InDrop(db, checked,
              if faults(k) then DropEnd(Some(RoleDropFailed), true, false)
              else if faults(k + 1) then DropEnd(Some(VaultDeleteFailed), true, false)
              else DropEnd(None, true, true))
  {
    hide Run, DropSoFar;
    var s := InDrop(db, checked, t);
    RunStep(p, s, c, faults, k);
    var (s1, c1) := StepOf(p, s, c, faults(k));
    RunStep(p, s1, c1, faults, k + 1);
    if !Ended(s1) {
      var (s2, c2) := StepOf(p, s1, c1, faults(k + 1));
      RunStep(p, s2, c2, faults, k + 2);
    }
  }

  lemma CountAnswer(p: Policy, c0: Catalog, db: Name, checked: bool, t: DropState, c: Catalog, faults: nat -> bool, k: nat)
    requires DropSoFar(p, c0, db, t, c) && t.DropCount?
    ensures Run(p, InDrop(db, checked, t), c, faults, k).0 == InDrop(db, checked, AfterCount(OwnerLeaves(c0, db), faults, k))
  {
    hide Run;
    DeniedIsKept(p, t.owner);
    hide KeptRole;
    RunStep(p, InDrop(db, checked, t), c, faults, k);
    OwnsNothingElse(c0, db);
    hide OwnedBy;
    var (s', c') := StepOf(p, InDrop(db, checked, t), c, faults(k));
    RunStep(p, s', c', faults, k + 1);
    if s'.drop.DropOwner? { OwnerAnswer(p, c0, db, checked, s'.drop, c', faults, k + 1); }
  }

  lemma ItAnswer(p: Policy, c0: Catalog, db: Name, checked: bool, t: DropState, c: Catalog, faults: nat -> bool, k: nat)
    requires DropSoFar(p, c0, db, t, c) && t.DropIt?
    ensures Run(p, InDrop(db, checked, t), c, faults, k).0 == InDrop(db, checked,
              if faults(k) then DropRefused(Unavailable) else AfterCount(OwnerLeaves(c0, db), faults, k + 1))
  {
    DeniedIsKept(p, t.owner);
    hide Run, OwnedBy, ValidIdentifier, KeptRole;
    var s := InDrop(db, checked, t);
    RunStep(p, s, c, faults, k);
    var (s1, c1) := StepOf(p, s, c, faults(k));
    RunStep(p, s1, c1, faults, k + 1);
    if !Ended(s1) { CountAnswer(p, c0, db, checked, s1.drop, c1, faults, k + 1); }
  }

  lemma TerminateAnswer(p: Policy, c0: Catalog, db: Name, checked: bool, t: DropState, c: Catalog, faults: nat -> bool, k: nat)
    requires DropSoFar(p, c0, db, t, c) && t.DropTerminate?
    ensures Run(p, InDrop(db, checked, t), c, faults, k).0 == InDrop(db, checked,
              if faults(k) || faults(k + 1) then DropRefused(Unavailable)
              else AfterCount(OwnerLeaves(c0, db), faults, k + 2))
  {
    hide Run, OwnedBy, Droppable, OwnerLeaves, AfterCount, DupNext, CompNext, DupCall, CompCall;
    var s := InDrop(db, checked, t);
    RunStep(p, s, c, faults, k);
    var (s1, c1) := StepOf(p, s, c, faults(k));
    RunStep(p, s1, c1, faults, k + 1);
    if !Ended(s1) { ItAnswer(p, c0, db, checked, s1.drop, c1, faults, k + 1); }
  }

  /** A lookup of the drop, the last one before the sessions are terminated. */
  lemma LookupAnswer(p: Policy, c0: Catalog, db: Name, checked: bool, t: DropState, faults: nat -> bool, k: nat)
    requires t == (if checked then DropAskAgain else DropAsk) && ValidIdentifier(db)
    ensures var s := Run(p, InDrop(db, checked, t), c0, faults, k).0;
            s.InDrop? && s.drop.DropEnd? &&
            if Droppable(p, c0, db) && NoFault(faults, k, k + 3) then s.drop == AfterCount(OwnerLeaves(c0, db), faults, k + 3)
            else !s.drop.dropped && !s.drop.droppedRole &&
                 s.drop.failure == Some(if !faults(k) && !Droppable(p, c0, db) then NotFound else Unavailable)
  {
    hide Run, OwnedBy, KeptRole;
    if db in c0.dbs { DeniedIsKept(p, c0.dbs[db].owner); }
    var s := InDrop(db, checked, t);
    RunStep(p, s, c0, faults, k);
    var (s1, c1) := StepOf(p, s, c0, faults(k));
    RunStep(p, s1, c1, faults, k + 1);
    if s1.drop.DropTerminate? { TerminateAnswer(p, c0, db, checked, s1.drop, c1, faults, k + 1); }
  }

  /** Drop's answer under every schedule of failing calls: the database is gone exactly when
      it was one to drop and no call up to its DROP failed; the owner and its vault row go
      exactly when it owned nothing else and no later call failed; and each of the two
      errors after the drop has its own cause. */
  lemma DropAnswers(p: Policy, c0: Catalog, db: Name, checked: bool, faults: nat -> bool, k: nat)
    ensures var s := Run(p, InDrop(db, checked, StartDrop(p, db)), c0, faults, k).0;
            s.InDrop? && s.drop.DropEnd? &&
            AnswerIs(p, c0, db, checked, faults, k, s.drop.failure, s.drop.dropped, s.drop.droppedRole)
  {
    hide Run, OwnedBy, OwnerLeaves, ValidIdentifier;
    var s := InDrop(db, checked, DropAsk);
    if StartDrop(p, db) != DropAsk {
      RunStep(p, InDrop(db, checked, StartDrop(p, db)), c0, faults, k);
    } else if !checked {
      LookupAnswer(p, c0, db, checked, DropAsk, faults, k);
    } else {
      RunStep(p, s, c0, faults, k);
      var (s1, c1) := StepOf(p, s, c0, faults(k));
      RunStep(p, s1, c1, faults, k + 1);
      if !Ended(s1) {
        var (s2, c2) := StepOf(p, s1, c1, faults(k + 1));
        RunStep(p, s2, c2, faults, k + 2);
        if !Ended(s2) { LookupAnswer(p, c0, db, checked, DropAskAgain, faults, k + 2); }
      }
    }
  }

  /** Drop's answer fits the catalog it leaves, under every schedule of failing calls. */
  lemma {:induction false} DropLeaves(p: Policy, c0: Catalog, db: Name, checked: bool, t: DropState, c: Catalog,
                                      faults: nat -> bool, k: nat)
    requires DropSoFar(p, c0, db, t, c)
    ensures var (s, end) := Run(p, InDrop(db, checked, t), c, faults, k);
            s.InDrop? && s.drop.DropEnd? && DropLeft(p, c0, db, end, s.drop.failure, s.drop.dropped, s.drop.droppedRole)
    decreases Weight(InDrop(db, checked, t))
  {
    if !t.DropEnd? {
      hide OwnedBy, WithoutDatabase, WithoutRole, WithoutVaultRow, Droppable, OwnerLeaves, DropLeft;
      var (s', c') := StepOf(p, InDrop(db, checked, t), c, faults(k));
      DropStepSoFar(p, c0, db, checked, t, c, faults(k));
      DropLeaves(p, c0, db, checked, s'.drop, c', faults, k + 1);
    }
  }
}
