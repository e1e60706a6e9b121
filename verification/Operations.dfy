/** The operation table and its resource locks as values: one function for each
    SQLite transaction of internal/operations/store.go, and what every run keeps. */
module Operations {
  import opened Prelude

  const TERMINAL_RETENTION: int := 30 * 24 * HOUR
  const MAX_TERMINAL_OPERATIONS: nat := 10000
  /** 32 lower-case hexadecimal digits: text order is numeric order. */
  const ID_LIMIT: nat := 0x1_0000_0000_0000_0000_0000_0000_0000_0000

  datatype Status =
    Queued | Running | Compensating | Interrupted | Indeterminate | Succeeded | Failed | Canceled

  datatype Phase = Accepted | Cloning | TransferringOwnership | Vaulting | Undoing

  datatype Action = Duplicate | OtherAction

  datatype ResourceKind = DatabaseKind | RoleKind | RedisUserKind

  datatype ResourceLock = ResourceLock(kind: ResourceKind, name: Name)

  datatype DuplicateResult = DuplicateResult(database: Name, owner: Name, source: Name)

  datatype OperationError = OperationError(code: string, message: string)

  datatype Operation = Operation(
    id: nat, status: Status, phase: Option<Phase>, actor: string, request: string, target: Name,
    result: Option<DuplicateResult>, error: Option<OperationError>,
    createdAt: int, updatedAt: int, startedAt: Option<int>, finishedAt: Option<int>)

  /** What a caller hands to InsertQueued; absent times are Go's zero time. */
  datatype Request = Request(
    id: nat, action: Action, actor: string, request: string, target: Name, phase: Option<Phase>,
    result: Option<DuplicateResult>, createdAt: Option<int>, updatedAt: Option<int>)

  datatype Change = Change(
    from: Status, to: Status, phase: Option<Phase>, result: Option<DuplicateResult>,
    error: Option<OperationError>, startedAt: Option<int>, finishedAt: Option<int>, keepLocks: bool)

  datatype StoreError =
    InvalidId | StoreConflict | IllegalEdge | UnsafeResult | NotFound | LockHeld | StorageFailed

  datatype Table = Table(ops: map<nat, Operation>, locks: map<ResourceLock, nat>)

  predicate ValidId(id: nat) { id < ID_LIMIT }

  predicate LegalEdge(from: Status, to: Status) {
    match from
    case Queued => to == Running || to == Canceled
    case Running => to == Succeeded || to == Failed || to == Compensating || to == Interrupted
    case Compensating => to == Failed || to == Indeterminate
    case Interrupted => to == Succeeded || to == Failed || to == Compensating || to == Indeterminate
    case _ => false
  }

  predicate Terminal(s: Status) {
    s == Succeeded || s == Failed || s == Canceled || s == Indeterminate
  }

  /** Position of a status in an operation's life; the four terminal ones come last. */
  function Rank(s: Status): (r: nat)
    ensures r <= 4 && (r == 4 <==> Terminal(s)) && (r == 0 <==> s == Queued)
  {
    match s
    case Queued => 0
    case Running => 1
    case Interrupted => 2
    case Compensating => 3
    case _ => 4
  }

  // ----- InsertQueued -----

  predicate Insertable(r: Request, locks: seq<ResourceLock>) {
    r.action == Duplicate && !Blank(r.actor) && !Blank(r.request) &&
    forall i :: 0 <= i < |locks| ==> !Blank(locks[i].name)
  }

  function QueuedOperation(r: Request, now: int): Operation {
    var created := if r.createdAt.Some? then r.createdAt.value else now;
    var updated := if r.updatedAt.Some? then r.updatedAt.value else created;
    var phase := if r.phase.Some? then r.phase else Some(Accepted);
    Operation(r.id, Queued, phase, r.actor, r.request, r.target, r.result, None, created, updated, None, None)
  }

  /** Every lock row is new and no row is asked for twice. */
  predicate LocksFree(held: map<ResourceLock, nat>, locks: seq<ResourceLock>) {
    (forall i :: 0 <= i < |locks| ==> locks[i] !in held) &&
    (forall i, j :: 0 <= i < j < |locks| ==> locks[i] != locks[j])
  }

  function LockSet(locks: seq<ResourceLock>): set<ResourceLock> {
    set i | 0 <= i < |locks| :: locks[i]
  }

  function WithLocks(held: map<ResourceLock, nat>, locks: seq<ResourceLock>, id: nat): map<ResourceLock, nat> {
    held + map l | l in LockSet(locks) :: id
  }

  function Inserted(t: Table, r: Request, locks: seq<ResourceLock>, now: int): (Table, Option<StoreError>) {
    if !ValidId(r.id) then (t, Some(InvalidId))
    else if !Insertable(r, locks) then (t, Some(StoreConflict))
    else if r.id in t.ops then (t, Some(StoreConflict))
    else if !LocksFree(t.locks, locks) then (t, Some(LockHeld))
    else (Table(t.ops[r.id := QueuedOperation(r, now)], WithLocks(t.locks, locks, r.id)), None)
  }

  // ----- transition -----

  function Updated(cur: Operation, ch: Change, now: int): Operation {
    cur.(status := ch.to,
         phase := if ch.phase.Some? then ch.phase else cur.phase,
         result := if ch.result.Some? then ch.result else cur.result,
         error := if ch.to != Failed && ch.to != Indeterminate then None
                  else if ch.error.Some? then ch.error else cur.error,
         updatedAt := now,
         startedAt := if ch.startedAt.Some? then ch.startedAt
                      else if ch.to == Running && cur.startedAt.None? then Some(now) else cur.startedAt,
         finishedAt := if ch.finishedAt.Some? then ch.finishedAt
                       else if Terminal(ch.to) then Some(now) else cur.finishedAt)
  }

  function WithoutLocksOf(locks: map<ResourceLock, nat>, id: nat): map<ResourceLock, nat> {
    map l | l in locks && locks[l] != id :: locks[l]
  }

  function LocksOf(t: Table, id: nat): set<ResourceLock> {
    set l | l in t.locks && t.locks[l] == id
  }

  function Transitioned(t: Table, id: nat, ch: Change, now: int): (Table, Option<StoreError>) {
    if !ValidId(id) then (t, Some(InvalidId))
    else if !LegalEdge(ch.from, ch.to) then (t, Some(IllegalEdge))
    else if ch.keepLocks && ch.to != Indeterminate then (t, Some(IllegalEdge))
    else if id !in t.ops then (t, Some(NotFound))
    else if t.ops[id].status == ch.to then (t, None)
    else if t.ops[id].status != ch.from then (t, Some(IllegalEdge))
    else if ch.to == Succeeded && ch.result.None? then (t, Some(UnsafeResult))
    else
      (Table(t.ops[id := Updated(t.ops[id], ch, now)],
             if Terminal(ch.to) && !ch.keepLocks then WithoutLocksOf(t.locks, id) else t.locks), None)
  }

  // ----- what the two transactions answer and write -----

  /** The twelve edges of an operation's life. */
  lemma EdgesAre(from: Status, to: Status)
    ensures LegalEdge(from, to) <==>
            (from, to) in {(Queued, Running), (Queued, Canceled), (Running, Succeeded), (Running, Failed),
                           (Running, Compensating), (Running, Interrupted), (Compensating, Failed),
                           (Compensating, Indeterminate), (Interrupted, Succeeded), (Interrupted, Failed),
                           (Interrupted, Compensating), (Interrupted, Indeterminate)}
  {
  }

  /** An insertion is refused for a malformed id, for a foreign action, a blank name or a
      known id, or else for a lock that is held or asked for twice. Only then nothing is
      written; otherwise there is one queued row more, which holds exactly the locks asked
      for. */
  lemma InsertAnswers(t: Table, r: Request, locks: seq<ResourceLock>, now: int)
    ensures var (n, err) := Inserted(t, r, locks, now);
            var blank := Blank(r.actor) || Blank(r.request) || exists i :: 0 <= i < |locks| && Blank(locks[i].name);
            var taken := (exists i :: 0 <= i < |locks| && locks[i] in t.locks) ||
                         exists i, j :: 0 <= i < j < |locks| && locks[i] == locks[j];
            err == (if r.id >= ID_LIMIT then Some(InvalidId)
                    else if r.action != Duplicate || blank || r.id in t.ops then Some(StoreConflict)
                    else if taken then Some(LockHeld)
                    else None) &&
            (err.Some? ==> n == t)
    ensures var (n, err) := Inserted(t, r, locks, now);
            err.None? ==>
              n.ops.Keys == t.ops.Keys + {r.id} && (forall id :: id in t.ops ==> n.ops[id] == t.ops[id]) &&
              (forall k :: k in n.locks <==> k in t.locks || k in locks) &&
              (forall k :: k in n.locks ==> n.locks[k] == if k in locks then r.id else t.locks[k])
    ensures var (n, err) := Inserted(t, r, locks, now);
            err.None? ==>
              var op := n.ops[r.id];
              op.id == r.id && op.status == Queued && op.actor == r.actor && op.request == r.request && op.target == r.target &&
              op.result == r.result && op.error.None? && op.startedAt.None? && op.finishedAt.None? &&
              op.phase == (if r.phase.None? then Some(Accepted) else r.phase) &&
              op.createdAt == (if r.createdAt.None? then now else r.createdAt.value) &&
              op.updatedAt == (if r.updatedAt.None? then op.createdAt else r.updatedAt.value)
  {
    hide Blank;
    assert forall k :: k in LockSet(locks) <==> k in locks;
  }

  /** A transition is refused for a malformed id, an edge that is none, a KeepLocks that does
      not go with indeterminate, an unknown row, a row in another status, or a success
      without a result. On a row that is there already nothing is written. Otherwise that
      row alone changes, and its locks go if it has ended and KeepLocks is not set. */
  lemma TransitionAnswers(t: Table, id: nat, ch: Change, now: int)
    ensures var (n, err) := Transitioned(t, id, ch, now);
            err == (if id >= ID_LIMIT then Some(InvalidId)
                    else if !LegalEdge(ch.from, ch.to) || (ch.keepLocks && ch.to != Indeterminate) then Some(IllegalEdge)
                    else if id !in t.ops then Some(NotFound)
                    else if t.ops[id].status == ch.to then None
                    else if t.ops[id].status != ch.from then Some(IllegalEdge)
                    else if ch.to == Succeeded && ch.result.None? then Some(UnsafeResult)
                    else None) &&
            (err.Some? || t.ops[id].status == ch.to ==> n == t)
    ensures var (n, err) := Transitioned(t, id, ch, now);
            err.None? && t.ops[id].status != ch.to ==>
              n.ops.Keys == t.ops.Keys && (forall x :: x in t.ops && x != id ==> n.ops[x] == t.ops[x]) &&
              (forall k :: k in n.locks ==> k in t.locks && n.locks[k] == t.locks[k]) &&
              (forall k :: k in t.locks && k !in n.locks ==>
                 t.locks[k] == id && ch.to in {Succeeded, Failed, Canceled, Indeterminate} && !ch.keepLocks) &&
              (ch.to in {Succeeded, Failed, Canceled, Indeterminate} && !ch.keepLocks ==> LocksOf(n, id) == {})
    ensures var (n, err) := Transitioned(t, id, ch, now);
            err.None? && t.ops[id].status != ch.to ==>
              var was, op := t.ops[id], n.ops[id];
              op == was.(status := ch.to, phase := op.phase, result := op.result, error := op.error, updatedAt := now,
                         startedAt := op.startedAt, finishedAt := op.finishedAt) &&
              (ch.phase.Some? ==> op.phase == ch.phase) && (ch.phase.None? ==> op.phase == was.phase) &&
              (ch.result.Some? ==> op.result == ch.result) && (ch.result.None? ==> op.result == was.result) &&
              (ch.to !in {Failed, Indeterminate} ==> op.error.None?) &&
              (ch.to in {Failed, Indeterminate} ==> op.error == if ch.error.None? then was.error else ch.error) &&
              op.startedAt == (if ch.startedAt.Some? then ch.startedAt
                               else if was.startedAt.None? && ch.to == Running then Some(now) else was.startedAt) &&
              op.finishedAt == (if ch.finishedAt.Some? then ch.finishedAt
                                else if ch.to in {Succeeded, Failed, Canceled, Indeterminate} then Some(now) else was.finishedAt)
  {
    hide LegalEdge;
  }

  // ----- pruneTerminal -----

  function TerminalIds(ops: map<nat, Operation>): set<nat> {
    set id | id in ops && Terminal(ops[id].status)
  }

  function ExpiredIds(ops: map<nat, Operation>, cutoff: int): set<nat> {
    set id | id in ops && Terminal(ops[id].status) && ops[id].finishedAt.Some? && ops[id].finishedAt.value < cutoff
  }

  /** ORDER BY finished_at ASC, id ASC; SQLite sorts NULL first. */
  predicate Older(ops: map<nat, Operation>, a: nat, b: nat)
    requires a in ops && b in ops
  {
    match (ops[a].finishedAt, ops[b].finishedAt)
    case (None, None) => a < b
    case (None, Some(_)) => true
    case (Some(_), None) => false
    case (Some(x), Some(y)) => x < y || (x == y && a < b)
  }

  predicate IsOldest(ops: map<nat, Operation>, ids: set<nat>, m: nat)
    requires ids <= ops.Keys
  {
    m in ids && forall y :: y in ids && y != m ==> Older(ops, m, y)
  }

  lemma {:induction false} SomeOldest(ops: map<nat, Operation>, ids: set<nat>)
    requires ids <= ops.Keys && ids != {}
    ensures exists m :: IsOldest(ops, ids, m)
    decreases |ids|
  {
    var x :| x in ids;
    var rest := ids - {x};
    if rest == {} {
      assert ids == {x};
      assert IsOldest(ops, ids, x);
    } else {
      SomeOldest(ops, rest);
      var m :| IsOldest(ops, rest, m);
      var best := if Older(ops, x, m) then x else m;
      forall y | y in ids && y != best ensures Older(ops, best, y) { assert y == x || y in rest; }
      assert IsOldest(ops, ids, best);
    }
  }

  lemma RestOfIds(ids: set<nat>, m: nat, rest: seq<nat>)
    requires m in ids && |rest| == |ids - {m}| && forall x :: x in rest <==> x in ids - {m}
    ensures |rest| == |ids| - 1 && forall x :: x in rest <==> x in ids && x != m
  {
  }

  /** An oldest id before the others in order puts them all in order. */
  lemma OldestComesFirst(ops: map<nat, Operation>, ids: set<nat>, m: nat, rest: seq<nat>)
    requires ids <= ops.Keys && IsOldest(ops, ids, m)
    requires |rest| == |ids| - 1 && forall x :: x in rest <==> x in ids && x != m
    requires forall i, j :: 0 <= i < j < |rest| ==> rest[i] != rest[j] && Older(ops, rest[i], rest[j])
    ensures var r := [m] + rest;
            |r| == |ids| && (forall x :: x in r <==> x in ids) &&
            forall i, j :: 0 <= i < j < |r| ==> r[i] != r[j] && Older(ops, r[i], r[j])
  {
    assert forall j :: 0 <= j < |rest| ==> rest[j] in rest;
  }

  /** The ids in the order the prune query lists them. */
  function OldestFirst(ops: map<nat, Operation>, ids: set<nat>): (r: seq<nat>)
    requires ids <= ops.Keys
    ensures |r| == |ids|
    ensures forall x :: x in r <==> x in ids
    ensures forall i, j :: 0 <= i < j < |r| ==> r[i] != r[j] && Older(ops, r[i], r[j])
    decreases |ids|
  {
    if ids == {} then []
    else
      SomeOldest(ops, ids);
      var m :| IsOldest(ops, ids, m);
      var rest := OldestFirst(ops, ids - {m});
      RestOfIds(ids, m, rest);
      OldestComesFirst(ops, ids, m, rest);
      [m] + rest
  }

  /** A list of the ids in the order of the prune query. */
  ghost predicate InOrder(ops: map<nat, Operation>, ids: set<nat>, a: seq<nat>)
    requires ids <= ops.Keys
  {
    |a| == |ids| && (forall x :: x in a <==> x in ids) &&
    forall i, j :: 0 <= i < j < |a| ==> a[i] != a[j] && Older(ops, a[i], a[j])
  }

  /** The query has one answer: two lists of the same ids in its order are equal. */
  lemma {:induction false} OrderIsUnique(ops: map<nat, Operation>, ids: set<nat>, a: seq<nat>, b: seq<nat>)
    requires ids <= ops.Keys && InOrder(ops, ids, a) && InOrder(ops, ids, b)
    ensures a == b
    decreases |ids|
  {
    SameLength(ops, ids, a, b);
    if a != [] {
      HeadIsOldest(ops, ids, a);
      HeadIsOldest(ops, ids, b);
      OldestIsUnique(ops, ids, a[0], b[0]);
      TailInOrder(ops, ids, a);
      TailInOrder(ops, ids, b);
      hide InOrder, IsOldest, Older;
      OrderIsUnique(ops, ids - {a[0]}, a[1..], b[1..]);
      assert a == [a[0]] + a[1..] && b == [b[0]] + b[1..];
    }
  }

  lemma SameLength(ops: map<nat, Operation>, ids: set<nat>, a: seq<nat>, b: seq<nat>)
    requires ids <= ops.Keys && InOrder(ops, ids, a) && InOrder(ops, ids, b)
    ensures |a| == |b| == |ids|
  {
  }

  lemma HeadIsOldest(ops: map<nat, Operation>, ids: set<nat>, a: seq<nat>)
    requires ids <= ops.Keys && InOrder(ops, ids, a) && a != []
    ensures IsOldest(ops, ids, a[0]) && a[0] in ids
  {
    hide Older;
    assert a[0] in a;
    forall y | y in ids && y != a[0] ensures Older(ops, a[0], y) {
      var j :| 0 <= j < |a| && a[j] == y;
    }
  }

  lemma OldestIsUnique(ops: map<nat, Operation>, ids: set<nat>, m: nat, n: nat)
    requires ids <= ops.Keys && IsOldest(ops, ids, m) && IsOldest(ops, ids, n)
    ensures m == n
  {
  }

  lemma TailInOrder(ops: map<nat, Operation>, ids: set<nat>, a: seq<nat>)
    requires ids <= ops.Keys && InOrder(ops, ids, a) && a != []
    ensures a[0] in ids && InOrder(ops, ids - {a[0]}, a[1..])
  {
    hide Older;
    assert a[0] in a;
    forall x ensures x in a[1..] <==> x in ids - {a[0]} {
      if x in ids - {a[0]} {
        var j :| 0 <= j < |a| && a[j] == x;
        assert a[1..][j - 1] == x;
      }
      if x in a[1..] {
        var j :| 0 <= j < |a| - 1 && a[1..][j] == x;
        assert a[j + 1] == x && x in a;
      }
    }
  }

  function Overflow(n: nat): (r: nat) {
    if n > MAX_TERMINAL_OPERATIONS then n - MAX_TERMINAL_OPERATIONS else 0
  }

  function Elements(s: seq<nat>): set<nat> { set i | 0 <= i < |s| :: s[i] }

  lemma ElementsStep(s: seq<nat>, i: nat)
    requires i < |s|
    ensures Elements(s[..i + 1]) == Elements(s[..i]) + {s[i]}
  {
    assert s[..i + 1] == s[..i] + [s[i]];
  }

  function WithoutIds(t: Table, gone: set<nat>): Table {
    Table(t.ops - gone, map l | l in t.locks && t.locks[l] !in gone :: t.locks[l])
  }

  function OverflowIds(t: Table): set<nat> {
    var ids := OldestFirst(t.ops, TerminalIds(t.ops));
    assert Overflow(|ids|) <= |ids|;
    Elements(ids[..Overflow(|ids|)])
  }

  function Pruned(t: Table, now: int): Table {
    var kept := WithoutIds(t, ExpiredIds(t.ops, now - TERMINAL_RETENTION));
    WithoutIds(kept, OverflowIds(kept))
  }

  lemma {:induction false} DistinctElements(s: seq<nat>)
    requires forall i, j :: 0 <= i < j < |s| ==> s[i] != s[j]
    ensures |Elements(s)| == |s|
  {
    if s != [] {
      var front := s[..|s| - 1];
      DistinctElements(front);
      assert Elements(s) == Elements(front) + {s[|s| - 1]};
    }
  }

  lemma OverflowIsOlder(t: Table, gone: nat, kept: nat)
    requires gone in OverflowIds(t) && kept in TerminalIds(t.ops) && kept !in OverflowIds(t)
    ensures gone in t.ops && kept in t.ops && Older(t.ops, gone, kept)
  {
    var ids := OldestFirst(t.ops, TerminalIds(t.ops));
    var n := Overflow(|ids|);
    var i :| 0 <= i < n && ids[..n][i] == gone;
    var j :| 0 <= j < |ids| && ids[j] == kept;
    assert forall k :: 0 <= k < n ==> ids[..n][k] == ids[k] && ids[k] in OverflowIds(t);
    assert n <= j;
  }

  /** What the overflow part of the prune deletes: terminal rows only, exactly those
      beyond the newest MAX_TERMINAL_OPERATIONS. */
  lemma OverflowIsOldest(t: Table)
    ensures OverflowIds(t) <= TerminalIds(t.ops)
    ensures |OverflowIds(t)| == Overflow(|TerminalIds(t.ops)|)
    ensures forall gone, kept :: gone in OverflowIds(t) && kept in TerminalIds(t.ops) && kept !in OverflowIds(t)
              ==> gone in t.ops && Older(t.ops, gone, kept)
  {
    var ids := OldestFirst(t.ops, TerminalIds(t.ops));
    DistinctElements(ids[..Overflow(|ids|)]);
    forall gone, kept | gone in OverflowIds(t) && kept in TerminalIds(t.ops) && kept !in OverflowIds(t)
      ensures gone in t.ops && Older(t.ops, gone, kept)
    {
      OverflowIsOlder(t, gone, kept);
    }
  }

  /** A prune leaves no expired row and at most MAX_TERMINAL_OPERATIONS terminal ones, keeps
      every live operation, and deletes a lock row only together with its operation. */
  lemma PruneKeepsTheLive(t: Table, now: int)
    ensures var p := Pruned(t, now);
            ExpiredIds(p.ops, now - TERMINAL_RETENTION) == {} &&
            |TerminalIds(p.ops)| <= MAX_TERMINAL_OPERATIONS &&
            (forall id :: id in t.ops && !Terminal(t.ops[id].status) ==> id in p.ops) &&
            (forall id :: id in p.ops ==> id in t.ops && p.ops[id] == t.ops[id]) &&
            (forall k :: k in t.locks && t.locks[k] in p.ops ==> k in p.locks) &&
            (forall k :: k in p.locks ==> k in t.locks && p.locks[k] == t.locks[k] && (t.locks[k] in t.ops ==> t.locks[k] in p.ops))
  {
    var expired := ExpiredIds(t.ops, now - TERMINAL_RETENTION);
    var kept := WithoutIds(t, expired);
    OverflowIsOldest(kept);
    var p := Pruned(t, now);
    var terms := TerminalIds(kept.ops);
    assert TerminalIds(p.ops) == terms - OverflowIds(kept);
    assert |terms - OverflowIds(kept)| == |terms| - |OverflowIds(kept)|;
  }

  /** The overflow part: which ended rows stay, and how many. */
  lemma OverflowLeaves(kept: Table, id: nat)
    requires id in OverflowIds(kept)
    ensures var left := TerminalIds(WithoutIds(kept, OverflowIds(kept)).ops);
            id in TerminalIds(kept.ops) && |left| == 10000 &&
            forall k :: k in left ==> k in kept.ops && Older(kept.ops, id, k)
  {
    OverflowIsOldest(kept);
    hide OverflowIds, OldestFirst, Older;
    var terms, gone := TerminalIds(kept.ops), OverflowIds(kept);
    var left := TerminalIds(WithoutIds(kept, gone).ops);
    assert left == terms - gone;
    assert |terms - gone| == |terms| - |gone|;
    assert gone != {};
  }

  /** And it deletes nothing else: a deleted row had ended, and either ended more than thirty
      days ago or no later than each of the ten thousand ended rows that stay. */
  lemma PruneDropsOnly(t: Table, now: int, id: nat)
    requires id in t.ops && id !in Pruned(t, now).ops
    ensures var p, op := Pruned(t, now), t.ops[id];
            op.status in {Succeeded, Failed, Canceled, Indeterminate} &&
            ((op.finishedAt.Some? && op.finishedAt.value < now - 30 * 24 * 60 * 60 * SECOND) ||
             (|TerminalIds(p.ops)| == 10000 &&
              forall k :: k in TerminalIds(p.ops) ==> k in t.ops && EndedNoLater(op, t.ops[k])))
  {
    hide OverflowIds, OldestFirst, TerminalIds, Older;
    var expired := ExpiredIds(t.ops, now - TERMINAL_RETENTION);
    if id !in expired {
      var kept := WithoutIds(t, expired);
      OverflowLeaves(kept, id);
      TerminalRow(kept.ops, id);
      forall k | k in TerminalIds(Pruned(t, now).ops) ensures k in t.ops && EndedNoLater(t.ops[id], t.ops[k]) {
        OlderEndedNoLater(kept.ops, id, k);
      }
    }
  }

  lemma TerminalRow(ops: map<nat, Operation>, id: nat)
    requires id in TerminalIds(ops)
    ensures id in ops && ops[id].status in {Succeeded, Failed, Canceled, Indeterminate}
  {
  }

  lemma OlderEndedNoLater(ops: map<nat, Operation>, a: nat, b: nat)
    requires a in ops && b in ops && Older(ops, a, b)
    ensures EndedNoLater(ops[a], ops[b])
  {
  }

  /** And it leaves no more: no row that ended more than thirty days ago, and at most ten
      thousand that have ended. */
  lemma PruneLeavesNone(t: Table, now: int)
    ensures var p := Pruned(t, now);
            (forall id :: id in p.ops && p.ops[id].status in {Succeeded, Failed, Canceled, Indeterminate} ==>
               p.ops[id].finishedAt.None? || p.ops[id].finishedAt.value >= now - 30 * 24 * 60 * 60 * SECOND) &&
            |set id | id in p.ops && p.ops[id].status in {Succeeded, Failed, Canceled, Indeterminate}| <= 10000
  {
    PruneKeepsTheLive(t, now);
    hide Pruned;
    var p := Pruned(t, now);
    assert TerminalIds(p.ops) == set id | id in p.ops && p.ops[id].status in {Succeeded, Failed, Canceled, Indeterminate};
    forall id | id in p.ops && p.ops[id].status in {Succeeded, Failed, Canceled, Indeterminate}
      ensures p.ops[id].finishedAt.None? || p.ops[id].finishedAt.value >= now - 30 * 24 * 60 * 60 * SECOND
    {
      assert id !in ExpiredIds(p.ops, now - TERMINAL_RETENTION);
    }
  }

  predicate EndedNoLater(a: Operation, b: Operation) {
    a.finishedAt.None? || (b.finishedAt.Some? && a.finishedAt.value <= b.finishedAt.value)
  }

  lemma PruneIsIdempotent(t: Table, now: int)
    ensures Pruned(Pruned(t, now), now) == Pruned(t, now)
  {
    hide OverflowIds, OldestFirst, ExpiredIds;
    var p := Pruned(t, now);
    PruneKeepsTheLive(t, now);
    OverflowIsOldest(p);
    assert OverflowIds(p) == {};
    assert WithoutIds(p, {}) == p;
  }

  // ----- every run of the store -----

  datatype Step =
    | Insert(request: Request, locks: seq<ResourceLock>, now: int)
    | Move(id: nat, change: Change, now: int)
    | Prune(now: int)

  /** The table together with what its rows do not say: the locks each operation was
      inserted with, the operations that ended with KeepLocks, and those that some change
      gave an explicit finish time. */
  datatype Ledger = Ledger(table: Table, wanted: map<nat, set<ResourceLock>>, kept: set<nat>, dated: set<nat>)

  const EMPTY: Ledger := Ledger(Table(map[], map[]), map[], {}, {})

  function Do(l: Ledger, step: Step): Ledger {
    match step
    case Insert(r, locks, now) =>
      var (t, err) := Inserted(l.table, r, locks, now);
      if err.None? then Ledger(t, l.wanted[r.id := LockSet(locks)], l.kept - {r.id}, l.dated - {r.id}) else l
    case Move(id, ch, now) =>
      var (t, err) := Transitioned(l.table, id, ch, now);
      var moved := err.None? && l.table.ops[id].status != ch.to;
      Ledger(t, l.wanted,
             if moved && ch.keepLocks then l.kept + {id} else l.kept,
             if moved && ch.finishedAt.Some? then l.dated + {id} else l.dated)
    case Prune(now) => l.(table := Pruned(l.table, now))
  }

  function Run(steps: seq<Step>): Ledger {
    if steps == [] then EMPTY else Do(Run(steps[..|steps| - 1]), steps[|steps| - 1])
  }

  ghost predicate WellKept(l: Ledger, id: nat)
    requires id in l.table.ops
  {
    var op := l.table.ops[id];
    id in l.wanted &&
    (if !Terminal(op.status) then LocksOf(l.table, id) == l.wanted[id]
     else LocksOf(l.table, id) == {} ||
          (op.status == Indeterminate && id in l.kept && LocksOf(l.table, id) == l.wanted[id]))
  }

  /** finished_at is set exactly on terminal rows and on those that were given a finish time. */
  predicate WellFormed(op: Operation, dated: bool) {
    (op.finishedAt.Some? <==> Terminal(op.status) || dated) &&
    (op.status == Succeeded ==> op.result.Some?) &&
    (op.error.Some? ==> op.status == Failed || op.status == Indeterminate) &&
    (op.status == Queued ==> op.startedAt.None?)
  }

  ghost predicate LedgerInv(l: Ledger) {
    (forall k :: k in l.table.locks ==> l.table.locks[k] in l.table.ops) &&
    (forall id :: id in l.table.ops ==> l.table.ops[id].id == id && ValidId(id)) &&
    (forall id :: id in l.table.ops ==> WellKept(l, id))
  }

  lemma InsertKeepsLedger(l: Ledger, r: Request, locks: seq<ResourceLock>, now: int)
    requires LedgerInv(l)
    ensures LedgerInv(Do(l, Insert(r, locks, now)))
  {
    var m := Do(l, Insert(r, locks, now));
    if Inserted(l.table, r, locks, now).1.None? {
      assert LocksOf(m.table, r.id) == LockSet(locks);
      forall id | id in m.table.ops ensures WellKept(m, id) {
        if id != r.id {
          assert WellKept(l, id);
          assert LocksOf(m.table, id) == LocksOf(l.table, id);
        }
      }
    }
  }

  lemma MoveKeepsLedger(l: Ledger, id: nat, ch: Change, now: int)
    requires LedgerInv(l)
    ensures LedgerInv(Do(l, Move(id, ch, now)))
  {
    var m := Do(l, Move(id, ch, now));
    if m.table != l.table {
      forall other | other in m.table.ops ensures WellKept(m, other) {
        assert WellKept(l, other);
        if other != id || !Terminal(ch.to) || ch.keepLocks {
          assert LocksOf(m.table, other) == LocksOf(l.table, other);
        } else {
          assert LocksOf(m.table, other) == {};
        }
      }
    } else {
      forall other | other in m.table.ops ensures WellKept(m, other) {
        assert WellKept(l, other);
      }
    }
  }

  lemma RemovalKeepsLocks(t: Table, gone: set<nat>, id: nat)
    requires id !in gone
    ensures LocksOf(WithoutIds(t, gone), id) == LocksOf(t, id)
  {
  }

  lemma PruneKeepsLedger(l: Ledger, now: int)
    requires LedgerInv(l)
    ensures LedgerInv(Do(l, Prune(now)))
  {
    var m := Do(l, Prune(now));
    var g1 := ExpiredIds(l.table.ops, now - TERMINAL_RETENTION);
    var t1 := WithoutIds(l.table, g1);
    var g2 := OverflowIds(t1);
    forall id | id in m.table.ops ensures WellKept(m, id) {
      assert WellKept(l, id);
      RemovalKeepsLocks(l.table, g1, id);
      RemovalKeepsLocks(t1, g2, id);
    }
  }

  /** The lock table, in every state that any sequence of store calls can reach: each
      lock row belongs to an operation, a live operation holds exactly the locks it was
      inserted with, and a finished one holds none unless it ended indeterminate with
      KeepLocks. */
  lemma {:induction false} EveryRunKeepsLedger(steps: seq<Step>)
    ensures LedgerInv(Run(steps))
  {
    if steps != [] {
      var before := steps[..|steps| - 1];
      EveryRunKeepsLedger(before);
      match steps[|steps| - 1]
      case Insert(r, locks, now) => InsertKeepsLedger(Run(before), r, locks, now);
      case Move(id, ch, now) => MoveKeepsLedger(Run(before), id, ch, now);
      case Prune(now) => PruneKeepsLedger(Run(before), now);
    }
  }

  /** Two live operations never want the same resource. */
  lemma LiveOperationsAreDisjoint(steps: seq<Step>, a: nat, b: nat)
    requires var l := Run(steps); a in l.table.ops && b in l.table.ops && a != b
    requires var l := Run(steps); !Terminal(l.table.ops[a].status) && !Terminal(l.table.ops[b].status)
    ensures var l := Run(steps); a in l.wanted && b in l.wanted && l.wanted[a] !! l.wanted[b]
  {
    EveryRunKeepsLedger(steps);
    var l := Run(steps);
    assert WellKept(l, a) && WellKept(l, b);
    assert LocksOf(l.table, a) !! LocksOf(l.table, b);
  }

  ghost predicate AllWellFormed(l: Ledger) {
    forall id :: id in l.table.ops ==> WellFormed(l.table.ops[id], id in l.dated)
  }

  lemma StepKeepsWellFormed(l: Ledger, step: Step)
    requires AllWellFormed(l)
    ensures AllWellFormed(Do(l, step))
  {
    hide Pruned, OldestFirst;
    var m := Do(l, step);
    if step.Prune? { PruneKeepsTheLive(l.table, step.now); }
    forall id | id in m.table.ops ensures WellFormed(m.table.ops[id], id in m.dated) {
      match step
      case Insert(r, locks, now) =>
      case Move(moved, ch, now) => LegalEdgeRises(ch.from, ch.to);
      case Prune(now) =>
        assert m.table.ops[id] == l.table.ops[id];
    }
  }

  /** In every run finished_at is set exactly on terminal operations and on those that some
      change gave an explicit finish time, a success has its result, and only failed or
      indeterminate operations carry an error. */
  lemma {:induction false} EveryRunIsWellFormed(steps: seq<Step>)
    ensures AllWellFormed(Run(steps))
  {
    if steps != [] {
      var before := steps[..|steps| - 1];
      EveryRunIsWellFormed(before);
      StepKeepsWellFormed(Run(before), steps[|steps| - 1]);
    }
  }

  // ----- operation life -----

  lemma LegalEdgeRises(from: Status, to: Status)
    ensures LegalEdge(from, to) ==> Rank(from) < Rank(to)
  {
  }

  /** The statuses that one operation shows along a run that never drops it. */
  ghost predicate LivesThrough(l: Ledger, steps: seq<Step>, id: nat)
    decreases |steps|
  {
    id in l.table.ops && (steps == [] || LivesThrough(Do(l, steps[0]), steps[1..], id))
  }

  ghost function StatusChanges(l: Ledger, steps: seq<Step>, id: nat): nat
    requires LivesThrough(l, steps, id)
    decreases |steps|
  {
    if steps == [] then 0
    else
      var next := Do(l, steps[0]);
      assert LivesThrough(next, steps[1..], id);
      StatusChanges(next, steps[1..], id) +
      (if next.table.ops[id].status != l.table.ops[id].status then 1 else 0)
  }

  lemma StepRaisesRank(l: Ledger, step: Step, id: nat)
    requires id in l.table.ops && id in Do(l, step).table.ops
    ensures var s, s' := l.table.ops[id].status, Do(l, step).table.ops[id].status;
            s == s' || (LegalEdge(s, s') && Rank(s) < Rank(s'))
  {
    if step.Move? {
      LegalEdgeRises(step.change.from, step.change.to);
    }
  }

  /** An operation takes at most four status changes, whatever calls are made. */
  lemma {:induction false} AtMostFourStatusChanges(l: Ledger, steps: seq<Step>, id: nat)
    requires LivesThrough(l, steps, id)
    ensures StatusChanges(l, steps, id) <= 4 - Rank(l.table.ops[id].status)
    decreases |steps|
  {
    if steps != [] {
      var next := Do(l, steps[0]);
      AtMostFourStatusChanges(next, steps[1..], id);
      StepRaisesRank(l, steps[0], id);
    }
  }

  // ----- resultFrom -----

  /** The loop over lock rows: first role name, last database name that is not the target. */
  function ResultFrom(target: Name, rows: seq<ResourceLock>): DuplicateResult {
    FoldRows(target, rows, DuplicateResult(target, "", ""))
  }

  function FoldRows(target: Name, rows: seq<ResourceLock>, out: DuplicateResult): DuplicateResult {
    if rows == [] then out
    else
      var row := rows[0];
      var withOwner := if row.kind == RoleKind && out.owner == "" then out.(owner := row.name) else out;
      var withSource := if row.kind == DatabaseKind && row.name != target then withOwner.(source := row.name) else withOwner;
      FoldRows(target, rows[1..], withSource)
  }

  function JobLocks(r: DuplicateResult): set<ResourceLock> {
    {ResourceLock(DatabaseKind, r.source), ResourceLock(DatabaseKind, r.database), ResourceLock(RoleKind, r.owner)}
  }

  /** What FoldRows does when every row is one of the three locks of job r. */
  lemma {:induction false} FoldRowsOfJob(r: DuplicateResult, rows: seq<ResourceLock>, out: DuplicateResult)
    requires r.source != r.database && r.owner != ""
    requires forall i :: 0 <= i < |rows| ==> rows[i] in JobLocks(r)
    requires out.database == r.database && out.owner in {"", r.owner} && out.source in {"", r.source}
    ensures var f := FoldRows(r.database, rows, out);
            f.database == r.database &&
            f.owner == (if ResourceLock(RoleKind, r.owner) in rows then r.owner else out.owner) &&
            f.source == (if ResourceLock(DatabaseKind, r.source) in rows then r.source else out.source)
    decreases |rows|
  {
    if rows != [] {
      var row := rows[0];
      var withOwner := if row.kind == RoleKind && out.owner == "" then out.(owner := row.name) else out;
      var next := if row.kind == DatabaseKind && row.name != r.database then withOwner.(source := row.name) else withOwner;
      assert row in JobLocks(r);
      assert rows == [row] + rows[1..];
      FoldRowsOfJob(r, rows[1..], next);
    }
  }

  /** The triple rebuilt from the lock rows, in whatever order SQLite returns them, is
      the triple that was enqueued. */
  lemma ResultFromAnyRowOrder(r: DuplicateResult, rows: seq<ResourceLock>)
    requires r.source != r.database && r.owner != ""
    requires forall k :: k in rows <==> k in JobLocks(r)
    ensures ResultFrom(r.database, rows) == r
  {
    FoldRowsOfJob(r, rows, DuplicateResult(r.database, "", ""));
  }
}
