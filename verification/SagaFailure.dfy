/** What `failed` means when the poller writes it, told by the history of a run: the stage
    at which Duplicate met its error, whether its call had failed or the source was gone, and
    which calls of its undo failed. */
module SagaFailure {
  import opened Prelude
  import opened Catalog
  import opened Scripts
  import opened ScriptProofs
  import opened Saga
  import opened SagaProofs
  import opened SagaRecovery
  import opened SagaTransfer
  import Ops = Operations
  import Store = OperationStore

  /** gone: the source database did not exist; undo: for each call of the undo so far,
      whether it failed. */
  datatype Trouble = NoTrouble | Trouble(stage: Stage, fault: bool, gone: bool, undo: seq<bool>)

  predicate Missing(c: Catalog, j: Job) { j.source.Some? && j.source.value !in c.dbs }

  function TroubleNext(p: Policy, s: System, e: Event, id: nat, t: Trouble): Trouble {
    if e.Claim? && e.id == id && s.proc == Idle then NoTrouble
    else if e.Work? && s.proc.Duplicating? && s.proc.id == id && Callable(s.proc.job, s.proc.d) then
      var Duplicating(_, job, d) := s.proc;
      match d
      case Forward(stage, _) =>
        if StageError(p, job, d, Attempt(p, s.catalog, DupCall(p, job, d), e.fault).1).Some?
        then Trouble(stage, e.fault, Missing(s.catalog, job), [])
        else t
      case Undo(_, _, _, _) => if t.Trouble? then t.(undo := t.undo + [e.fault]) else t
      case Finished(_, _, _) => t
    else t
  }

  /** The history of job id's trouble along a run. */
  ghost function TroubleOf(p: Policy, s: System, events: seq<Event>, id: nat): Trouble {
    if events == [] then NoTrouble
    else
      var front := events[..|events| - 1];
      TroubleNext(p, RunOf(p, s, front), events[|events| - 1], id, TroubleOf(p, s, front, id))
  }

  // ----- the undo as a fold over its failing calls -----

  /** One undo call: the owner owns nothing exactly when the clone is gone. */
  function UndoNext(p: Policy, j: Job, d: Dup, fault: bool): Dup
    requires d.Undo?
  {
    DupNext(p, j, d, if fault then Failure(Unavailable) else if d.at == CountOwned && d.left.db then Count(1)
                     else if d.at == CountOwned then Count(0) else Done)
  }

  function UndoneBy(p: Policy, j: Job, e: Error, stage: Stage, undo: seq<bool>): (d: Dup)
    ensures !d.Forward?
  {
    if undo == [] then UndoFrom(p, j, DeleteVault, e, Made(stage), true)
    else
      var d := UndoneBy(p, j, e, stage, undo[..|undo| - 1]);
      if d.Undo? then UndoNext(p, j, d, undo[|undo| - 1]) else d
  }

  /** On a tracked state one undo call does what the fold says, whatever the catalog. */
  lemma UndoIsFold(p: Policy, j: Job, d: Dup, c: Catalog, fault: bool)
    requires Allowed(p, j) && Tracks(p, j, d, c) && d.Undo?
    ensures DupNext(p, j, d, Attempt(p, c, DupCall(p, j, d), fault).1) == UndoNext(p, j, d, fault)
  {
    if d.at == CountOwned {
      CountIsZero(p, c, j.owner);
      if d.left.db { assert j.database in OwnedBy(c, j.owner); } else { assert OwnedBy(c, j.owner) == {}; }
    }
  }

  predicate AnyFrom(undo: seq<bool>, b: nat) {
    exists i :: b <= i < |undo| && undo[i]
  }

  /** The calls of the undo before it comes to the clone. */
  function Before(stage: Stage): nat { if Made(stage).vault then 1 else 0 }

  /** How far the undo has come, and what its failed calls have left. */
  predicate UndoShape(stage: Stage, undo: seq<bool>, d: Dup) {
    var made, b := Made(stage), Before(stage);
    var k := if made.db then b + 1 else b;
    match d
    case Forward(_, _) => false
    case Undo(at, _, left, _) =>
      made.role && left.role &&
      (match at
       case DeleteVault => made == ALL && |undo| == 0 && left == ALL
       case UndoDatabase => |undo| == b && left.db && made.db
       case CountOwned => |undo| == k && (left.db <==> made.db && undo[b])
       case UndoRole => |undo| == k + 1 && !left.db && !AnyFrom(undo, b))
    case Finished(_, left, _) =>
      if made == NOTHING then left == NOTHING
      else b < |undo| && (left.role <==> AnyFrom(undo, b)) && (left.db <==> made.db && undo[b])
  }

  lemma AnyFromStep(undo: seq<bool>, fault: bool, b: nat)
    requires b <= |undo|
    ensures AnyFrom(undo + [fault], b) <==> AnyFrom(undo, b) || fault
  {
    var more := undo + [fault];
    if fault { assert more[|undo|]; }
    if AnyFrom(undo, b) { var i :| b <= i < |undo| && undo[i]; assert more[i]; }
    if AnyFrom(more, b) && !fault { var i :| b <= i < |more| && more[i]; assert undo[i]; }
  }

  lemma ShapeStep(p: Policy, j: Job, stage: Stage, undo: seq<bool>, d: Dup, fault: bool)
    requires Allowed(p, j) && d.Undo? && UndoShape(stage, undo, d)
    ensures UndoShape(stage, undo + [fault], UndoNext(p, j, d, fault))
  {
    if d.at != DeleteVault { AnyFromStep(undo, fault, Before(stage)); }
    assert forall i :: 0 <= i < |undo| ==> (undo + [fault])[i] == undo[i];
    assert (undo + [fault])[|undo|] == fault;
    assert |undo| == Before(stage) ==> !AnyFrom(undo, Before(stage));
    hide AnyFrom;
  }

  /** The undo so far is that of the error of this history. */
  predicate FollowsUndo(p: Policy, j: Job, e: Error, t: Trouble, d: Dup) {
    t.Trouble? && d == UndoneBy(p, j, e, t.stage, t.undo) && UndoShape(t.stage, t.undo, d)
  }

  /** The source was gone at one of the two isolation checks, and the server said so. */
  predicate SourceLost(t: Trouble) {
    t.Trouble? && t.stage in {FirstCheck, LastCheck} && !t.fault && t.gone
  }

  /** Where the poller stands fits the history. */
  predicate DupFits(p: Policy, j: Job, d: Dup, t: Trouble) {
    match d
    case Forward(_, _) => true
    case Undo(_, e, _, _) => FollowsUndo(p, j, e, t, d) && (Skips(e) <==> SourceLost(t))
    case Finished(None, _, _) => true
    case Finished(Some(e), left, _) =>
      if t.NoTrouble? then left == NOTHING
      else FollowsUndo(p, j, e, t, d) && (Made(t.stage) != NOTHING ==> (Skips(e) <==> SourceLost(t)))
  }

  /** The forward error of a job: which errors are of a kind that is not compensated. */
  lemma ErrorKind(p: Policy, j: Job, d: Dup, c: Catalog, fault: bool)
    requires Allowed(p, j) && Tracks(p, j, d, c) && d.Forward? && j.source.Some? && Made(d.stage) != NOTHING
    requires StageError(p, j, d, Attempt(p, c, DupCall(p, j, d), fault).1).Some?
    ensures var e := StageError(p, j, d, Attempt(p, c, DupCall(p, j, d), fault).1).value;
            Skips(e) <==> d.stage in {FirstCheck, LastCheck} && !fault && Missing(c, j)
  {
    hide OwnedBy, SourceError, Transferred;
  }

  /** The error begins the undo of this history. */
  lemma UndoBegins(p: Policy, j: Job, d: Dup, reply: Reply, t: Trouble)
    requires Allowed(p, j) && d.Forward? && Callable(j, d) && StageError(p, j, d, reply).Some?
    requires t.Trouble? && t.stage == d.stage && t.undo == []
    requires Made(d.stage) != NOTHING ==> (Skips(StageError(p, j, d, reply).value) <==> SourceLost(t))
    ensures DupFits(p, j, DupNext(p, j, d, reply), t)
  {
    hide StageError, Skips, SourceLost, Expected;
  }

  /** One call of Duplicate keeps place and history together. */
  lemma CallFits(p: Policy, j: Job, d: Dup, c: Catalog, fault: bool, t: Trouble, n: Trouble)
    requires Allowed(p, j) && Tracks(p, j, d, c) && !d.Finished? && j.source.Some? && DupFits(p, j, d, t)
    requires var reply := Attempt(p, c, DupCall(p, j, d), fault).1;
             n == if d.Undo? then t.(undo := t.undo + [fault])
                  else if StageError(p, j, d, reply).Some? then Trouble(d.stage, fault, Missing(c, j), []) else t
    ensures DupFits(p, j, DupNext(p, j, d, Attempt(p, c, DupCall(p, j, d), fault).1), n)
  {
    hide Tracks, Attempt, DupCall, Missing, Skips, UndoShape;
    var reply := Attempt(p, c, DupCall(p, j, d), fault).1;
    if d.Forward? {
      if StageError(p, j, d, reply).Some? {
        if Made(d.stage) != NOTHING { ErrorKind(p, j, d, c, fault); }
        UndoBegins(p, j, d, reply, n);
      }
    } else {
      UndoIsFold(p, j, d, c, fault);
      ShapeStep(p, j, t.stage, t.undo, d, fault);
      assert n.undo[..|n.undo| - 1] == t.undo;
      UndoKeepsError(p, j, d, reply);
    }
  }

  lemma UndoKeepsError(p: Policy, j: Job, d: Dup, reply: Reply)
    requires d.Undo?
    ensures var n := DupNext(p, j, d, reply);
            (n.Undo? ==> n.error == d.error) && (n.Finished? ==> n.failure == Some(d.error))
  {
  }

  // ----- the invariant -----

  predicate PlaceFits(p: Policy, proc: Proc, id: nat, t: Trouble) {
    match proc
    case Duplicating(x, job, d) => x == id ==> DupFits(p, job, d, t)
    case Failing(x, job, d) => x == id ==> DupFits(p, job, d, t)
    case Undoing(x, job, _, _, Worker(d)) => x == id ==> DupFits(p, job, d, t)
    case Finishing(x, job, _, Worker(d)) => x == id ==> DupFits(p, job, d, t)
    case _ => true
  }

  predicate TroubleInv(p: Policy, s: System, id: nat, t: Trouble) {
    Live(s.store, id) ==> PlaceFits(p, s.proc, id, t)
  }

  /** A claimed job begins without trouble. */
  lemma ClaimFits(p: Policy, s: System, e: Event, id: nat, t: Trouble)
    requires e.Claim? && PlaceFits(p, s.proc, id, t)
    ensures PlaceFits(p, Next(p, s, e).proc, id, TroubleNext(p, s, e, id, t))
  {
    hide Ops.Transitioned, UndoneBy, UndoShape, SourceLost;
  }

  lemma CallStepFits(p: Policy, s: System, e: Event, id: nat, t: Trouble)
    requires Inv(p, s) && Live(s.store, id) && PlaceFits(p, s.proc, id, t)
    requires e.Work? && s.proc.Duplicating? && s.proc.id == id && !s.proc.d.Finished?
    ensures PlaceFits(p, Next(p, s, e).proc, id, TroubleNext(p, s, e, id, t))
  {
    HasResult(p, s, id);
    assert LiveOk(p, s.store, s.catalog, id);
    JobAtWork(p, s, id);
    hide Inv, Attempt, DupCall, DupFits, Next, StageError, Expected, OwnedBy, Present;
    var Duplicating(_, job, d) := s.proc;
    DuplicateNext(p, s, e);
    TroubleIsTrouble(p, job, d, t);
    CallFits(p, job, d, s.catalog, e.fault, t, TroubleNext(p, s, e, id, t));
  }

  lemma TroubleIsTrouble(p: Policy, j: Job, d: Dup, t: Trouble)
    requires DupFits(p, j, d, t)
    ensures d.Undo? ==> t.Trouble?
  {
  }

  /** Any other step. */
  lemma RestFits(p: Policy, s: System, e: Event, id: nat, t: Trouble)
    requires Inv(p, s) && Live(s.store, id) && PlaceFits(p, s.proc, id, t) && !e.Claim?
    requires !(e.Work? && s.proc.Duplicating? && s.proc.id == id && !s.proc.d.Finished?)
    ensures PlaceFits(p, Next(p, s, e).proc, id, TroubleNext(p, s, e, id, t))
  {
    hide DupFits, StoreOk, Tracks, CompTracks, Honest, Expected, SecondLoop, ThirdLoop, ResumeOk, Exactly, StepOf, Callable,
         Ops.Pruned, Ops.Transitioned, StageError, Attempt, DupCall;
  }

  lemma StepKeepsTrouble(p: Policy, s: System, e: Event, id: nat, t: Trouble)
    requires Inv(p, s) && TroubleInv(p, s, id, t)
    ensures TroubleInv(p, Next(p, s, e), id, TroubleNext(p, s, e, id, t))
  {
    if Live(Next(p, s, e).store, id) {
      LiveBefore(p, s, e, id);
      if id !in s.store.ops {
        NobodyAtWork(p, s, id, t);
      } else if e.Claim? {
        ClaimFits(p, s, e, id, t);
      } else if e.Work? && s.proc.Duplicating? && s.proc.id == id && !s.proc.d.Finished? {
        CallStepFits(p, s, e, id, t);
      } else {
        RestFits(p, s, e, id, t);
      }
      hide Inv, Next, PlaceFits;
    }
  }

  lemma NobodyAtWork(p: Policy, s: System, id: nat, t: Trouble)
    requires Inv(p, s) && id !in s.store.ops
    ensures forall u :: PlaceFits(p, s.proc, id, u)
  {
    hide StoreOk, Tracks, CompTracks, Honest, Expected, ResumeOk, Exactly, DupFits;
  }

  lemma {:induction false} EveryRunKeepsTrouble(p: Policy, c: Catalog, events: seq<Event>, id: nat)
    requires Owned(c)
    ensures TroubleInv(p, RunOf(p, Start(c), events), id, TroubleOf(p, Start(c), events, id))
  {
    if events != [] {
      var front := events[..|events| - 1];
      EveryRunKeepsTrouble(p, c, front, id);
      EveryRunKeepsInv(p, c, front);
      hide Inv, TroubleInv, Next;
      StepKeepsTrouble(p, RunOf(p, Start(c), front), events[|events| - 1], id, TroubleOf(p, Start(c), front, id));
    }
  }

  // ----- what failed means -----

  /** When the poller writes failed, for every run from the first start: the role is left if
      and only if the source was found gone at one of the two isolation checks and one of the
      undo's calls from its DROP DATABASE on failed; the clone if and only if that DROP
      failed. In every other case neither is left. */
  lemma PollerFailureLeavesIff(p: Policy, c: Catalog, events: seq<Event>, e: Event, id: nat)
    requires Owned(c)
    requires var s := RunOf(p, Start(c), events);
             Live(s.store, id) && s.proc.Finishing? && s.proc.resume.Worker? &&
             id in Next(p, s, e).store.ops && Next(p, s, e).store.ops[id].status == Ops.Failed
    ensures var s := RunOf(p, Start(c), events);
            var n := Next(p, s, e);
            var t := TroubleOf(p, Start(c), events, id);
            n.store.ops[id].result.Some? &&
            var here := Present(n.catalog, OpJob(n.store.ops[id], ""));
            (here.role <==> SourceLost(t) && AnyFrom(t.undo, Before(t.stage))) &&
            (here.db <==> SourceLost(t) && Before(t.stage) < |t.undo| && t.undo[Before(t.stage)])
  {
    EveryRunKeepsInv(p, c, events);
    EveryRunKeepsTrouble(p, c, events, id);
    hide RunOf, TroubleOf;
    var s := RunOf(p, Start(c), events);
    var t := TroubleOf(p, Start(c), events, id);
    PollerFailureKeepsTally(p, s, e, id);
    hide Inv, Next;
    WhatIsLeft(p, s.proc.job, s.proc.resume.d, t);
  }

  lemma WhatIsLeft(p: Policy, j: Job, d: Dup, t: Trouble)
    requires DupFits(p, j, d, t) && d.Finished? && d.failure.Some?
    ensures Skips(d.failure.value) ==>
              (d.left.role <==> SourceLost(t) && AnyFrom(t.undo, Before(t.stage))) &&
              (d.left.db <==> SourceLost(t) && Before(t.stage) < |t.undo| && t.undo[Before(t.stage)])
    ensures !Skips(d.failure.value) ==> !SourceLost(t)
  {
    hide Skips, AnyFrom, UndoneBy;
  }
}
