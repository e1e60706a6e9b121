/** The in-process locks of the PostgreSQL service (truncate.go, drop.go, duplicate.go):
    three maps of names in use, behind three mutexes. The methods show what one thread does
    to the maps while it holds the mutexes; the state machine interleaves any number of
    threads at every lock and unlock of a mutex. */
module ServiceLocks {
  import opened Prelude
  import opened Catalog

  datatype Mutex = TruncateMu | DropMu | DuplicateMu

  datatype Request = Truncating(db: Name) | Dropping(db: Name) | Duplicating(source: Name, db: Name, owner: Name)

  /** An entry of s.truncating, s.dropping or s.duplicating. */
  datatype Entry = InTruncating(db: Name) | InDropping(db: Name) | InDuplicating(key: string)

  function LockKeys(source: Name, db: Name, owner: Name): seq<string> {
    ["db:" + source, "db:" + db, "role:" + owner]
  }

  function KeyEntries(keys: seq<string>): set<Entry> { set k | k in keys :: InDuplicating(k) }

  /** The entries a request puts into the maps. */
  function Entries(r: Request): set<Entry> {
    match r
    case Truncating(db) => {InTruncating(db)}
    case Dropping(db) => {InDropping(db)}
    case Duplicating(source, db, owner) => KeyEntries(LockKeys(source, db, owner))
  }

  /** The entries that refuse it. */
  function Blockers(r: Request): set<Entry> {
    match r
    case Truncating(db) => {InDropping(db), InTruncating(db)}
    case Dropping(db) => {InTruncating(db), InDropping(db)}
    case Duplicating(_, _, _) => Entries(r)
  }

  // ----- what is done under the mutexes -----

  class LockMaps {
    var truncating: set<Name>
    var dropping: set<Name>
    var duplicating: set<string>

    function All(): set<Entry>
      reads this
    {
      (set d | d in truncating :: InTruncating(d)) + (set d | d in dropping :: InDropping(d)) +
      (set k | k in duplicating :: InDuplicating(k))
    }

    constructor ()
      ensures All() == {}
    {
      truncating, dropping, duplicating := {}, {}, {};
    }

    method LockTruncate(db: Name) returns (err: Option<Error>)
      modifies this
      ensures err.None? <==> Blockers(Truncating(db)) !! old(All())
      ensures All() == if err.None? then old(All()) + Entries(Truncating(db)) else old(All())
      ensures err.Some? ==> err.value == if InDropping(db) in old(All()) then DropInProgress else TruncateInProgress
    {
      if db in dropping { return Some(DropInProgress); }
      if db in truncating { return Some(TruncateInProgress); }
      truncating := truncating + {db};
      return None;
    }

    method UnlockTruncate(db: Name)
      modifies this
      ensures All() == old(All()) - Entries(Truncating(db))
    {
      truncating := truncating - {db};
    }

    method LockDrop(db: Name) returns (err: Option<Error>)
      modifies this
      ensures err.None? <==> Blockers(Dropping(db)) !! old(All())
      ensures All() == if err.None? then old(All()) + Entries(Dropping(db)) else old(All())
      ensures err.Some? ==> err.value == if InTruncating(db) in old(All()) then TruncateInProgress else DropInProgress
    {
      if db in truncating { return Some(TruncateInProgress); }
      if db in dropping { return Some(DropInProgress); }
      dropping := dropping + {db};
      return None;
    }

    method UnlockDrop(db: Name)
      modifies this
      ensures All() == old(All()) - Entries(Dropping(db))
    {
      dropping := dropping - {db};
    }

    method TryLockDuplicate(source: Name, db: Name, owner: Name) returns (ok: bool)
      modifies this
      ensures ok <==> Blockers(Duplicating(source, db, owner)) !! old(All())
      ensures All() == if ok then old(All()) + Entries(Duplicating(source, db, owner)) else old(All())
    {
      var keys := LockKeys(source, db, owner);
      for i := 0 to |keys|
        invariant KeyEntries(keys[..i]) !! All() && All() == old(All())
      {
        KeysStep(keys, i);
        if keys[i] in duplicating {
          assert InDuplicating(keys[i]) in KeyEntries(keys);
          return false;
        }
      }
      assert keys[..|keys|] == keys;
      for i := 0 to |keys|
        invariant All() == old(All()) + KeyEntries(keys[..i])
      {
        KeysStep(keys, i);
        duplicating := duplicating + {keys[i]};
      }
      ok := true;
    }

    method UnlockDuplicate(source: Name, db: Name, owner: Name)
      modifies this
      ensures All() == old(All()) - Entries(Duplicating(source, db, owner))
    {
      var keys := LockKeys(source, db, owner);
      for i := 0 to |keys|
        invariant All() == old(All()) - KeyEntries(keys[..i])
      {
        KeysStep(keys, i);
        duplicating := duplicating - {keys[i]};
      }
      assert keys[..|keys|] == keys;
    }
  }

  lemma KeysStep(keys: seq<string>, i: nat)
    requires i < |keys|
    ensures KeyEntries(keys[..i + 1]) == KeyEntries(keys[..i]) + {InDuplicating(keys[i])}
  {
    assert keys[..i + 1] == keys[..i] + [keys[i]];
  }

  // ----- threads -----

  /** Where a thread is. Truncate and Drop lock truncateMu, then dropMu, and the deferred
      unlocks release truncateMu first. Leaving takes one mutex only. */
  datatype Place =
    | Entering | Second | Checking | FirstUnlock(entered: bool) | SecondUnlock(entered: bool)
    | Inside | Leaving | Deleting | LastUnlock | Finished

  datatype Thread = Thread(request: Request, at: Place)

  datatype State = State(threads: map<nat, Thread>, held: map<Mutex, nat>, entries: set<Entry>)

  function EntryMutex(r: Request): Mutex { if r.Duplicating? then DuplicateMu else TruncateMu }

  function ExitMutex(r: Request): Mutex {
    match r
    case Truncating(_) => TruncateMu
    case Dropping(_) => DropMu
    case Duplicating(_, _, _) => DuplicateMu
  }

  predicate Holds(t: Thread, m: Mutex) {
    match t.at
    case Second => m == TruncateMu && !t.request.Duplicating?
    case Checking => if t.request.Duplicating? then m == DuplicateMu else m == TruncateMu || m == DropMu
    case FirstUnlock(_) => !t.request.Duplicating? && (m == TruncateMu || m == DropMu)
    case SecondUnlock(_) => m == if t.request.Duplicating? then DuplicateMu else DropMu
    case Deleting => m == ExitMutex(t.request)
    case LastUnlock => m == ExitMutex(t.request)
    case _ => false
  }

  /** The mutex the thread's next step must lock. */
  function Wants(t: Thread): Option<Mutex> {
    match t.at
    case Entering => Some(EntryMutex(t.request))
    case Second => Some(DropMu)
    case Leaving => Some(ExitMutex(t.request))
    case _ => None
  }

  /** The thread's entries are in the maps. */
  predicate Owns(t: Thread) {
    t.at in {FirstUnlock(true), SecondUnlock(true), Inside, Leaving, Deleting}
  }

  predicate Enabled(s: State, t: nat) {
    t in s.threads && s.threads[t].at != Finished && (Wants(s.threads[t]).Some? ==> Wants(s.threads[t]).value !in s.held)
  }

  function Moved(s: State, t: nat, at: Place, held: map<Mutex, nat>): State
    requires t in s.threads
  {
    s.(threads := s.threads[t := s.threads[t].(at := at)], held := held)
  }

  /** One step of thread t; a thread whose mutex is taken waits. */
  function Step(s: State, t: nat): State {
    if !Enabled(s, t) then s
    else
      var r := s.threads[t].request;
      match s.threads[t].at
      case Entering => Moved(s, t, if r.Duplicating? then Checking else Second, s.held[EntryMutex(r) := t])
      case Second => Moved(s, t, Checking, s.held[DropMu := t])
      case Checking =>
        var ok := Blockers(r) !! s.entries;
        Moved(s.(entries := if ok then s.entries + Entries(r) else s.entries), t,
              if r.Duplicating? then SecondUnlock(ok) else FirstUnlock(ok), s.held)
      case FirstUnlock(ok) => Moved(s, t, SecondUnlock(ok), s.held - {TruncateMu})
      case SecondUnlock(ok) =>
        Moved(s, t, if ok then Inside else Finished, s.held - {if r.Duplicating? then DuplicateMu else DropMu})
      case Inside => Moved(s, t, Leaving, s.held)
      case Leaving => Moved(s, t, Deleting, s.held[ExitMutex(r) := t])
      case Deleting => Moved(s.(entries := s.entries - Entries(r)), t, LastUnlock, s.held)
      case LastUnlock => Moved(s, t, Finished, s.held - {ExitMutex(r)})
      case Finished => s
  }

  datatype Event = Call(t: nat, request: Request) | Run(t: nat)

  function Next(s: State, e: Event): State {
    match e
    case Call(t, r) => if t in s.threads then s else s.(threads := s.threads[t := Thread(r, Entering)])
    case Run(t) => Step(s, t)
  }

  const START: State := State(map[], map[], {})

  function RunOf(events: seq<Event>): State {
    if events == [] then START else Next(RunOf(events[..|events| - 1]), events[|events| - 1])
  }

  // ----- the invariant -----

  /** A mutex is held by exactly the thread whose place says so. */
  predicate MutexesMatch(s: State) {
    (forall m :: m in s.held ==> s.held[m] in s.threads) &&
    (forall t, m :: t in s.threads ==> (Holds(s.threads[t], m) <==> m in s.held && s.held[m] == t))
  }

  predicate OwnedBy(s: State, e: Entry, t: nat) {
    t in s.threads && Owns(s.threads[t]) && e in Entries(s.threads[t].request)
  }

  /** The maps hold exactly the entries of the threads that own them, and no owner's entry
      blocks another owner. */
  ghost predicate EntriesMatch(s: State) {
    (forall e :: e in s.entries <==> exists t :: OwnedBy(s, e, t)) &&
    (forall t, u :: t in s.threads && u in s.threads && t != u && Owns(s.threads[t]) && Owns(s.threads[u]) ==>
       Entries(s.threads[t].request) !! Blockers(s.threads[u].request))
  }

  predicate Placed(t: Thread) {
    t.request.Duplicating? ==> t.at != Second && !t.at.FirstUnlock?
  }

  ghost predicate Inv(s: State) {
    (forall t :: t in s.threads ==> Placed(s.threads[t])) && MutexesMatch(s) && EntriesMatch(s)
  }

  lemma BlockingIsMutual(a: Request, b: Request)
    ensures Entries(a) !! Blockers(b) <==> Entries(b) !! Blockers(a)
    ensures Entries(a) <= Blockers(a)
  {
    if !a.Duplicating? && !b.Duplicating? {
      assert Entries(b) !! Blockers(a) <==> a.db != b.db;
      assert Entries(a) !! Blockers(b) <==> a.db != b.db;
    }
  }

  /** Everybody but t is as before. */
  predicate OnlyMoves(s: State, n: State, t: nat) {
    t in s.threads && n.threads.Keys == s.threads.Keys && n.threads[t].request == s.threads[t].request &&
    forall u :: u in s.threads && u != t ==> n.threads[u] == s.threads[u]
  }

  lemma AcquireKeepsMutexes(s: State, n: State, t: nat, m: Mutex)
    requires MutexesMatch(s) && OnlyMoves(s, n, t) && m !in s.held && n.held == s.held[m := t]
    requires forall k :: Holds(n.threads[t], k) <==> Holds(s.threads[t], k) || k == m
    ensures MutexesMatch(n)
  {
    hide Holds;
  }

  lemma ReleaseKeepsMutexes(s: State, n: State, t: nat, m: Mutex)
    requires MutexesMatch(s) && OnlyMoves(s, n, t) && Holds(s.threads[t], m) && n.held == s.held - {m}
    requires forall k :: Holds(n.threads[t], k) <==> Holds(s.threads[t], k) && k != m
    ensures MutexesMatch(n)
  {
    hide Holds;
    assert s.held[m] == t;
    forall u, k | u in n.threads ensures Holds(n.threads[u], k) <==> k in n.held && n.held[k] == u {
      assert Holds(s.threads[u], k) <==> k in s.held && s.held[k] == u;
    }
  }

  lemma SameHoldsKeepsMutexes(s: State, n: State, t: nat)
    requires MutexesMatch(s) && OnlyMoves(s, n, t) && n.held == s.held
    requires forall k :: Holds(n.threads[t], k) <==> Holds(s.threads[t], k)
    ensures MutexesMatch(n)
  {
    hide Holds;
  }

  lemma StepKeepsMutexes(s: State, t: nat)
    requires MutexesMatch(s) && Enabled(s, t) && Placed(s.threads[t])
    ensures MutexesMatch(Step(s, t)) && Placed(Step(s, t).threads[t])
  {
    hide Entries, Blockers, MutexesMatch;
    var n := Step(s, t);
    var r := s.threads[t].request;
    match s.threads[t].at
    case Entering => AcquireKeepsMutexes(s, n, t, EntryMutex(r));
    case Second => AcquireKeepsMutexes(s, n, t, DropMu);
    case Leaving => AcquireKeepsMutexes(s, n, t, ExitMutex(r));
    case FirstUnlock(_) => ReleaseKeepsMutexes(s, n, t, TruncateMu);
    case SecondUnlock(_) => ReleaseKeepsMutexes(s, n, t, if r.Duplicating? then DuplicateMu else DropMu);
    case LastUnlock => ReleaseKeepsMutexes(s, n, t, ExitMutex(r));
    case Checking => SameHoldsKeepsMutexes(s, n, t);
    case Inside => SameHoldsKeepsMutexes(s, n, t);
    case Deleting => SameHoldsKeepsMutexes(s, n, t);
  }

  lemma StepKeepsEntries(s: State, t: nat)
    requires EntriesMatch(s) && Enabled(s, t)
    ensures EntriesMatch(Step(s, t))
  {
    hide EntriesMatch, Entries, Blockers, Holds;
    var n := Step(s, t);
    match s.threads[t].at
    case Checking => EnterKeepsEntries(s, n, t);
    case Deleting => LeaveKeepsEntries(s, n, t);
    case _ => SameOwnersKeepEntries(s, n, t);
  }

  lemma SameOwnersKeepEntries(s: State, n: State, t: nat)
    requires EntriesMatch(s) && OnlyMoves(s, n, t) && n.entries == s.entries && Owns(n.threads[t]) == Owns(s.threads[t])
    ensures EntriesMatch(n)
  {
    hide Entries, Blockers, Owns;
    assert forall e, u :: OwnedBy(n, e, u) <==> OwnedBy(s, e, u);
  }

  lemma EnterKeepsEntries(s: State, n: State, t: nat)
    requires EntriesMatch(s) && t in s.threads && s.threads[t].at == Checking
    requires OnlyMoves(s, n, t)
    requires var ok := Blockers(s.threads[t].request) !! s.entries;
             Owns(n.threads[t]) == ok && n.entries == if ok then s.entries + Entries(s.threads[t].request) else s.entries
    ensures EntriesMatch(n)
  {
    var r := s.threads[t].request;
    hide Entries, Blockers;
    forall e ensures e in n.entries <==> exists u :: OwnedBy(n, e, u) {
      if u :| OwnedBy(n, e, u) { assert u == t || OwnedBy(s, e, u); }
      if e in s.entries { var u :| OwnedBy(s, e, u); assert OwnedBy(n, e, u); }
      if e in n.entries && e !in s.entries { assert OwnedBy(n, e, t); }
    }
    forall u | u in s.threads && u != t && Owns(s.threads[u]) && Owns(n.threads[t])
      ensures Entries(r) !! Blockers(s.threads[u].request) && Entries(s.threads[u].request) !! Blockers(r)
    {
      assert forall e :: e in Entries(s.threads[u].request) ==> OwnedBy(s, e, u);
      BlockingIsMutual(r, s.threads[u].request);
    }
  }

  lemma LeaveKeepsEntries(s: State, n: State, t: nat)
    requires EntriesMatch(s) && t in s.threads && Owns(s.threads[t])
    requires OnlyMoves(s, n, t)
    requires !Owns(n.threads[t]) && n.entries == s.entries - Entries(s.threads[t].request)
    ensures EntriesMatch(n)
  {
    var r := s.threads[t].request;
    hide Entries, Blockers;
    forall e ensures e in n.entries <==> exists u :: OwnedBy(n, e, u) {
      if u :| OwnedBy(n, e, u) {
        assert OwnedBy(s, e, u);
        BlockingIsMutual(r, r);
        assert Entries(s.threads[u].request) !! Blockers(r);
      }
      if e in n.entries { var u :| OwnedBy(s, e, u); assert OwnedBy(n, e, u); }
    }
  }

  lemma CallKeepsInv(s: State, t: nat, r: Request)
    requires Inv(s) && t !in s.threads
    ensures Inv(Next(s, Call(t, r)))
  {
    hide Entries, Blockers;
    var n := Next(s, Call(t, r));
    assert forall e, u :: OwnedBy(n, e, u) <==> OwnedBy(s, e, u);
  }

  lemma StepKeepsInv(s: State, e: Event)
    requires Inv(s)
    ensures Inv(Next(s, e))
  {
    match e
    case Call(t, r) => if t !in s.threads { CallKeepsInv(s, t, r); }
    case Run(t) =>
      hide MutexesMatch, EntriesMatch, Holds, Owns, Entries, Blockers;
      if Enabled(s, t) {
        StepKeepsMutexes(s, t);
        StepKeepsEntries(s, t);
      }
  }

  lemma {:induction false} EveryRunKeepsInv(events: seq<Event>)
    ensures Inv(RunOf(events))
  {
    if events != [] {
      EveryRunKeepsInv(events[..|events| - 1]);
      StepKeepsInv(RunOf(events[..|events| - 1]), events[|events| - 1]);
    }
  }

  // ----- what it gives -----

  /** In every interleaving: no database is being truncated and dropped, or truncated twice
      or dropped twice, at once, and two duplicates share no source, target or role key. */
  lemma RegionsExclude(events: seq<Event>, t: nat, u: nat)
    requires var s := RunOf(events);
             t != u && t in s.threads && u in s.threads && Owns(s.threads[t]) && Owns(s.threads[u])
    ensures var a, b := RunOf(events).threads[t].request, RunOf(events).threads[u].request;
            (!a.Duplicating? && !b.Duplicating? ==> a.db != b.db) &&
            (a.Duplicating? && b.Duplicating? ==> {a.source, a.db} !! {b.source, b.db} && a.owner != b.owner)
  {
    EveryRunKeepsInv(events);
    hide RunOf;
    var a, b := RunOf(events).threads[t].request, RunOf(events).threads[u].request;
    assert Entries(a) !! Blockers(b);
    if a.Duplicating? && b.Duplicating? {
      DuplicateKeys(a);
      DuplicateKeys(b);
    }
  }

  lemma DuplicateKeys(r: Request)
    requires r.Duplicating?
    ensures InDuplicating("db:" + r.source) in Entries(r) && InDuplicating("db:" + r.db) in Entries(r)
    ensures InDuplicating("role:" + r.owner) in Entries(r)
  {
    var keys := LockKeys(r.source, r.db, r.owner);
    assert keys[0] in keys && keys[1] in keys && keys[2] in keys;
  }

  /** Each entry of the maps belongs to exactly one thread, which is in its region or on
      its way in or out. */
  lemma EntryHasOneOwner(events: seq<Event>, e: Entry)
    requires e in RunOf(events).entries
    ensures var s := RunOf(events);
            exists t :: OwnedBy(s, e, t) && forall u :: OwnedBy(s, e, u) ==> u == t
  {
    EveryRunKeepsInv(events);
    hide RunOf, Entries, Blockers, Owns;
    var s := RunOf(events);
    var t :| OwnedBy(s, e, t);
    forall u | OwnedBy(s, e, u) ensures u == t {
      BlockingIsMutual(s.threads[u].request, s.threads[u].request);
    }
  }

  /** A map is read or written only with its own mutex held, so no two threads are ever at
      an access to the same map. */
  lemma MapAccessIsExclusive(events: seq<Event>, t: nat, u: nat)
    requires var s := RunOf(events);
             t != u && t in s.threads && u in s.threads &&
             s.threads[t].at in {Checking, Deleting} && s.threads[u].at in {Checking, Deleting}
    ensures var a, b := RunOf(events).threads[t], RunOf(events).threads[u];
            if a.request.Duplicating? || b.request.Duplicating? then a.request.Duplicating? != b.request.Duplicating?
            else a.at == b.at == Deleting && a.request.Truncating? != b.request.Truncating?
  {
    EveryRunKeepsInv(events);
    hide RunOf;
    var s := RunOf(events);
    var a, b := s.threads[t], s.threads[u];
    forall m ensures !(Holds(a, m) && Holds(b, m)) {
      assert Holds(a, m) <==> m in s.held && s.held[m] == t;
      assert Holds(b, m) <==> m in s.held && s.held[m] == u;
    }
    assert Holds(a, ExitMutex(a.request)) && Holds(b, ExitMutex(b.request));
    assert a.at == Checking && !a.request.Duplicating? ==> Holds(a, TruncateMu) && Holds(a, DropMu);
    assert b.at == Checking && !b.request.Duplicating? ==> Holds(b, TruncateMu) && Holds(b, DropMu);
  }

  /** The lock order never deadlocks: while a call is unfinished, some thread can move. */
  lemma NeverDeadlocks(events: seq<Event>, t: nat)
    requires t in RunOf(events).threads && RunOf(events).threads[t].at != Finished
    ensures exists u :: Enabled(RunOf(events), u)
  {
    EveryRunKeepsInv(events);
    SomebodyCanMove(RunOf(events), t);
  }

  lemma SomebodyCanMove(s: State, t: nat)
    requires Inv(s) && t in s.threads && s.threads[t].at != Finished
    ensures exists u :: Enabled(s, u)
  {
    hide EntriesMatch;
    if DropMu in s.held {
      assert Holds(s.threads[s.held[DropMu]], DropMu);
      assert Enabled(s, s.held[DropMu]);
    } else if DuplicateMu in s.held {
      assert Holds(s.threads[s.held[DuplicateMu]], DuplicateMu);
      assert Enabled(s, s.held[DuplicateMu]);
    } else if TruncateMu in s.held {
      assert Holds(s.threads[s.held[TruncateMu]], TruncateMu);
      assert Enabled(s, s.held[TruncateMu]);
    } else {
      assert Enabled(s, t);
    }
  }

  /** Steps a thread still has to take at most. */
  function Rest(t: Thread): nat {
    match t.at
    case Entering => 9 case Second => 8 case Checking => 7 case FirstUnlock(_) => 6 case SecondUnlock(_) => 5
    case Inside => 4 case Leaving => 3 case Deleting => 2 case LastUnlock => 1 case Finished => 0
  }

  ghost function Total(threads: map<nat, Thread>): nat
    decreases |threads|
  {
    if threads == map[] then 0
    else
      var t :| t in threads;
      Rest(threads[t]) + Total(threads - {t})
  }

  lemma {:induction false} TotalWithout(threads: map<nat, Thread>, t: nat)
    requires t in threads
    ensures Total(threads) == Rest(threads[t]) + Total(threads - {t})
    decreases |threads|
  {
    var u :| u in threads && Total(threads) == Rest(threads[u]) + Total(threads - {u});
    if u != t {
      TotalWithout(threads - {u}, t);
      TotalWithout(threads - {t}, u);
      assert threads - {u} - {t} == threads - {t} - {u};
    }
  }

  /** Every step a thread takes brings the end nearer, so every schedule ends. */
  lemma StepLowersTotal(s: State, t: nat)
    requires Enabled(s, t)
    ensures Total(Step(s, t).threads) < Total(s.threads)
  {
    var n := Step(s, t);
    TotalWithout(s.threads, t);
    TotalWithout(n.threads, t);
    assert n.threads - {t} == s.threads - {t};
  }

  lemma NothingLeaks(s: State)
    requires Inv(s) && forall t :: t in s.threads ==> s.threads[t].at == Finished
    ensures s.entries == {} && s.held == map[]
  {
    assert forall e, t :: !OwnedBy(s, e, t);
    forall m ensures m !in s.held {
      if m in s.held {
        NobodyHolds(s, s.held[m], m);
      }
    }
    assert s.held.Keys == {};
  }

  lemma NobodyHolds(s: State, t: nat, m: Mutex)
    requires MutexesMatch(s) && t in s.threads && s.threads[t].at == Finished
    ensures !(m in s.held && s.held[m] == t)
  {
    assert !Holds(s.threads[t], m);
  }

  /** The state after the given threads have taken steps in turn. */
  function Played(s: State, schedule: seq<nat>): State
    decreases |schedule|
  {
    if schedule == [] then s else Played(Step(s, schedule[0]), schedule[1..])
  }

  /** Each thread of the schedule can move when its turn comes. */
  predicate Moves(s: State, schedule: seq<nat>)
    decreases |schedule|
  {
    schedule == [] || (Enabled(s, schedule[0]) && Moves(Step(s, schedule[0]), schedule[1..]))
  }

  /** No schedule goes on for ever: it has at most the remaining steps of its threads. */
  lemma {:induction false} EveryScheduleEnds(s: State, schedule: seq<nat>)
    requires Moves(s, schedule)
    ensures |schedule| + Total(Played(s, schedule).threads) <= Total(s.threads)
    decreases |schedule|
  {
    hide Step, Enabled, Total;
    if schedule != [] {
      StepLowersTotal(s, schedule[0]);
      EveryScheduleEnds(Step(s, schedule[0]), schedule[1..]);
    }
  }

  /** From every reachable state all calls can finish, and when they have, the maps are
      empty and every mutex is free: nothing is ever leaked. */
  lemma {:induction false} EveryCallCanFinish(s: State) returns (schedule: seq<nat>)
    requires Inv(s)
    ensures Moves(s, schedule)
    ensures var end := Played(s, schedule);
            (forall t :: t in end.threads ==> end.threads[t].at == Finished) && end.entries == {} && end.held == map[]
    decreases Total(s.threads)
  {
    hide Inv, Step, Enabled, Total;
    if t :| t in s.threads && s.threads[t].at != Finished {
      SomebodyCanMove(s, t);
      var u :| Enabled(s, u);
      StepKeepsInv(s, Run(u));
      StepLowersTotal(s, u);
      var rest := EveryCallCanFinish(Step(s, u));
      schedule := [u] + rest;
    } else {
      NothingLeaks(s);
      schedule := [];
    }
  }
}
