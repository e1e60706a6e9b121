/** The law of the lockout, told by the calls alone: how long the next attempt of a user
    waits after the failures that were let through. */
module LockoutLaw {
  import opened Prelude
  import opened Lockout

  /** What ReserveFailure answers after a run of calls. */
  function Wait(calls: seq<Call>, user: string, ip: string, now: int): int {
    RemainingAfter(Scan(RunOf(calls), user, ip, now - LOCKOUT_WINDOW), now)
  }

  /** The times at which calls of `since` let a failure of the pair through. */
  function Admitted(before: seq<Call>, since: seq<Call>, user: string, ip: string): seq<int> {
    if since == [] then []
    else
      var front, last := since[..|since| - 1], since[|since| - 1];
      Admitted(before, front, user, ip) +
      if last.Reserve? && last.user == user && last.ip == ip && Wait(before + front, user, ip, last.now) <= 0
      then [last.now] else []
  }

  /** The pair neither succeeds nor is cleared. */
  predicate NoReset(calls: seq<Call>, user: string, ip: string) {
    forall i :: 0 <= i < |calls| && !calls[i].Reserve? ==> calls[i].user != user || calls[i].ip != ip
  }

  /** The times not before from. */
  function From(ts: seq<int>, from: int): (r: seq<int>)
    ensures forall x :: x in r ==> x >= from
  {
    if ts == [] then []
    else From(ts[..|ts| - 1], from) + if ts[|ts| - 1] >= from then [ts[|ts| - 1]] else []
  }

  /** Nothing for the first four failures of the last quarter of an hour, then 1, 2, 4, ...
      seconds from the last of them. */
  function Rest(ts: seq<int>, now: int): int {
    var recent := From(ts, now - 15 * 60 * SECOND);
    if |recent| < 5 then 0
    else
      var until := recent[|recent| - 1] + Pow2(|recent| - 5) * SECOND;
      if now < until then until - now else 0
  }

  // ----- times -----

  lemma {:induction false} FromJoins(a: seq<int>, b: seq<int>, from: int)
    ensures From(a + b, from) == From(a, from) + From(b, from)
  {
    if b == [] {
      assert a + b == a;
    } else {
      var n := |b| - 1;
      assert (a + b)[..|a + b| - 1] == a + b[..n];
      FromJoins(a, b[..n], from);
    }
  }

  lemma {:induction false} FromTwice(ts: seq<int>, a: int, b: int)
    requires a <= b
    ensures From(From(ts, a), b) == From(ts, b)
  {
    if ts != [] {
      var n := |ts| - 1;
      FromTwice(ts[..n], a, b);
      FromJoins(From(ts[..n], a), if ts[n] >= a then [ts[n]] else [], b);
      assert From([ts[n]], b) == if ts[n] >= b then [ts[n]] else [] by { assert [ts[n]][..0] == []; }
    }
  }

  lemma {:induction false} NothingFrom(ts: seq<int>, from: int)
    requires forall i :: 0 <= i < |ts| ==> ts[i] < from
    ensures From(ts, from) == []
  {
    if ts != [] {
      NothingFrom(ts[..|ts| - 1], from);
    }
  }

  /** Of rising times, those from an instant on are the last ones. */
  lemma {:induction false} RecentIsFrom(ts: seq<int>, from: int)
    requires Rising(ts)
    ensures Recent(ts, from) == |From(ts, from)|
    ensures From(ts, from) != [] ==> From(ts, from)[|From(ts, from)| - 1] == ts[|ts| - 1]
  {
    if ts != [] {
      var n := |ts| - 1;
      RecentIsFrom(ts[..n], from);
      if ts[n] < from { NothingFrom(ts, from); }
    }
  }

  // ----- failures of joined tables -----

  lemma {:induction false} FailuresJoin(a: seq<Attempt>, b: seq<Attempt>, user: string, ip: string)
    ensures Failures(a + b, user, ip) == Failures(a, user, ip) + Failures(b, user, ip)
  {
    if b == [] {
      assert a + b == a;
    } else {
      var n := |b| - 1;
      assert (a + b)[..|a + b| - 1] == a + b[..n];
      FailuresJoin(a, b[..n], user, ip);
    }
  }

  lemma {:induction false} NotBeforeJoins(a: seq<Attempt>, b: seq<Attempt>, cutoff: int)
    ensures NotBefore(a + b, cutoff) == NotBefore(a, cutoff) + NotBefore(b, cutoff)
  {
    if a == [] {
      assert a + b == b;
    } else {
      assert (a + b)[1..] == a[1..] + b && (a + b)[0] == a[0];
      NotBeforeJoins(a[1..], b, cutoff);
      var one := if a[0].at < cutoff then [] else [a[0]];
      assert one + NotBefore(a[1..], cutoff) + NotBefore(b, cutoff) == one + (NotBefore(a[1..], cutoff) + NotBefore(b, cutoff));
    }
  }

  lemma {:induction false} NotBeforeIsShorter(rows: seq<Attempt>, cutoff: int)
    ensures |NotBefore(rows, cutoff)| <= |rows|
  {
    if rows != [] { NotBeforeIsShorter(rows[1..], cutoff); }
  }

  lemma NotBeforeOne(x: Attempt, cutoff: int)
    ensures NotBefore([x], cutoff) == if x.at < cutoff then [] else [x]
  {
    assert [x][1..] == [];
  }

  lemma FailuresOfOne(x: Attempt, user: string, ip: string)
    ensures Failures([], user, ip) == []
    ensures Failures([x], user, ip) == if Of(x, user, ip) && !x.succeeded then [x.at] else []
  {
    hide Of;
    assert [x][..0] == [];
  }

  lemma FromOne(t: int, from: int)
    ensures From([], from) == [] && From([t], from) == if t >= from then [t] else []
  {
    assert [t][..0] == [];
  }

  lemma OneExpires(x: Attempt, cutoff: int, user: string, ip: string)
    ensures Failures(NotBefore([x], cutoff), user, ip) == From(Failures([x], user, ip), cutoff)
  {
    hide Failures, NotBefore, From, Of;
    NotBeforeOne(x, cutoff);
    FailuresOfOne(x, user, ip);
    FromOne(x.at, cutoff);
  }

  /** Expiry keeps exactly the recent failures. */
  lemma {:induction false} FailuresExpire(rows: seq<Attempt>, cutoff: int, user: string, ip: string)
    ensures Failures(NotBefore(rows, cutoff), user, ip) == From(Failures(rows, user, ip), cutoff)
  {
    if rows != [] {
      hide Failures, NotBefore, From, Of;
      var front, one := rows[..|rows| - 1], [rows[|rows| - 1]];
      assert rows == front + one;
      FailuresExpire(front, cutoff, user, ip);
      OneExpires(rows[|rows| - 1], cutoff, user, ip);
      NotBeforeJoins(front, one, cutoff);
      FailuresJoin(front, one, user, ip);
      FailuresJoin(NotBefore(front, cutoff), NotBefore(one, cutoff), user, ip);
      FromJoins(Failures(front, user, ip), Failures(one, user, ip), cutoff);
    }
  }

  lemma {:induction false} FailureRows(rows: seq<Attempt>, user: string, ip: string)
    ensures forall t :: t in Failures(rows, user, ip) <==> exists x :: x in rows && Of(x, user, ip) && !x.succeeded && x.at == t
  {
    if rows != [] {
      var n := |rows| - 1;
      FailureRows(rows[..n], user, ip);
      assert rows == rows[..n] + [rows[n]];
    }
  }

  lemma FewerRowsFewerFailures(a: seq<Attempt>, b: seq<Attempt>, user: string, ip: string)
    requires forall x :: x in a ==> x in b
    ensures forall t :: t in Failures(a, user, ip) ==> t in Failures(b, user, ip)
  {
    FailureRows(a, user, ip);
    FailureRows(b, user, ip);
  }

  // ----- the table as what was there before and what came since -----

  /** The table is a rest x of what was there, with failures of base only, and at most j
      newer rows y, whose recent failures are those let through. */
  ghost predicate Split(rows: seq<Attempt>, x: seq<Attempt>, y: seq<Attempt>, ts: seq<int>, base: seq<int>, j: nat, clock: int,
                        user: string, ip: string) {
    rows == x + y && |y| <= j &&
    From(Failures(y, user, ip), clock - LOCKOUT_WINDOW) == From(ts, clock - LOCKOUT_WINDOW) &&
    forall t :: t in Failures(x, user, ip) ==> t in base
  }

  /** Expiry, insertion and eviction keep the split while fewer than a thousand rows are new. */
  lemma InsertSplits(x: seq<Attempt>, y: seq<Attempt>, u: string, i: string, succeeded: bool, now: int)
    returns (x': seq<Attempt>, y': seq<Attempt>)
    requires |y| < MAX_STORED_ATTEMPTS
    ensures Inserted(x + y, u, i, succeeded, now) == x' + y' && |y'| <= |y| + 1
    ensures forall r :: r in x' ==> r in x
    ensures exists id :: y' == NotBefore(y, now - LOCKOUT_WINDOW) + [Attempt(id, u, i, succeeded, now)]
  {
    var cutoff := now - LOCKOUT_WINDOW;
    NotBeforeJoins(x, y, cutoff);
    NotBeforeHas(x, cutoff);
    NotBeforeIsShorter(y, cutoff);
    var keptX, keptY := NotBefore(x, cutoff), NotBefore(y, cutoff);
    var a := Attempt(NextId(keptX + keptY), u, i, succeeded, now);
    y' := keptY + [a];
    var all := keptX + keptY + [a];
    assert all == keptX + y';
    var drop := if |all| <= MAX_STORED_ATTEMPTS then 0 else |all| - MAX_STORED_ATTEMPTS;
    x' := keptX[drop..];
    assert Newest(all) == x' + y';
  }

  /** One inserted row more, of this pair or another. */
  lemma InsertKeepsSplit(rows: seq<Attempt>, x: seq<Attempt>, y: seq<Attempt>, ts: seq<int>, base: seq<int>, j: nat, clock: int,
                         user: string, ip: string, u: string, i: string, succeeded: bool, now: int)
    returns (x': seq<Attempt>, y': seq<Attempt>)
    requires Split(rows, x, y, ts, base, j, clock, user, ip) && clock <= now && j < MAX_STORED_ATTEMPTS
    ensures var more := if u == user && i == ip && !succeeded then [now] else [];
            Split(Inserted(rows, u, i, succeeded, now), x', y', ts + more, base, j + 1, now, user, ip)
  {
    hide Inserted, Failures, NotBefore, From, RemainingAfter, Scan;
    x', y' := InsertSplits(x, y, u, i, succeeded, now);
    var cutoff := now - LOCKOUT_WINDOW;
    var more := if u == user && i == ip && !succeeded then [now] else [];
    var id :| y' == NotBefore(y, cutoff) + [Attempt(id, u, i, succeeded, now)];
    FewerRowsFewerFailures(x', x, user, ip);
    FailuresExpire(y, cutoff, user, ip);
    FailuresOfAppend(NotBefore(y, cutoff), Attempt(id, u, i, succeeded, now), user, ip);
    FromStep(Failures(y, user, ip), ts, more, clock - LOCKOUT_WINDOW, cutoff);
  }

  lemma FromStep(f: seq<int>, ts: seq<int>, more: seq<int>, earlier: int, cutoff: int)
    requires From(f, earlier) == From(ts, earlier) && earlier <= cutoff
    ensures From(From(f, cutoff) + more, cutoff) == From(ts + more, cutoff)
  {
    hide From;
    FromJoins(From(f, cutoff), more, cutoff);
    FromJoins(ts, more, cutoff);
    FromTwice(f, cutoff, cutoff);
    FromTwice(f, earlier, cutoff);
    FromTwice(ts, earlier, cutoff);
  }

  /** Deleting another pair's failures. */
  lemma ClearKeepsSplit(rows: seq<Attempt>, x: seq<Attempt>, y: seq<Attempt>, ts: seq<int>, base: seq<int>, j: nat, clock: int,
                        user: string, ip: string, u: string, i: string)
    returns (x': seq<Attempt>, y': seq<Attempt>)
    requires Split(rows, x, y, ts, base, j, clock, user, ip) && (u != user || i != ip)
    ensures Split(WithoutFailures(rows, u, i), x', y', ts, base, j, clock, user, ip)
  {
    x', y' := WithoutFailures(x, u, i), WithoutFailures(y, u, i);
    WithoutFailuresJoins(x, y, u, i);
    WithoutFailuresKeepsOthers(x, u, i, user, ip);
    WithoutFailuresKeepsOthers(y, u, i, user, ip);
  }

  lemma LaterSplit(rows: seq<Attempt>, x: seq<Attempt>, y: seq<Attempt>, ts: seq<int>, base: seq<int>, j: nat, clock: int,
                   user: string, ip: string, later: int, more: nat)
    requires Split(rows, x, y, ts, base, j, clock, user, ip) && clock <= later && j <= more
    ensures Split(rows, x, y, ts, base, more, later, user, ip)
  {
    FromTwice(Failures(y, user, ip), clock - LOCKOUT_WINDOW, later - LOCKOUT_WINDOW);
    FromTwice(ts, clock - LOCKOUT_WINDOW, later - LOCKOUT_WINDOW);
  }

  lemma AdmittedStep(before: seq<Call>, front: seq<Call>, last: Call, user: string, ip: string)
    ensures Admitted(before, front + [last], user, ip) == Admitted(before, front, user, ip) +
              if last.Reserve? && last.user == user && last.ip == ip && Wait(before + front, user, ip, last.now) <= 0
              then [last.now] else []
  {
    assert (front + [last])[..|front|] == front && (front + [last])[|front|] == last;
  }

  lemma WaitIsRemaining(calls: seq<Call>, last: Call)
    ensures last.Reserve? ==>
              Called(RunOf(calls), last) == (if Wait(calls, last.user, last.ip, last.now) > 0 then RunOf(calls)
                                             else Inserted(RunOf(calls), last.user, last.ip, false, last.now))
  {
    hide Scan, Inserted, RemainingAfter, RunOf;
  }

  /** One call that does not reset the pair. */
  lemma CallKeepsSplit(before: seq<Call>, front: seq<Call>, last: Call, x: seq<Attempt>, y: seq<Attempt>, clock: int,
                       user: string, ip: string)
    returns (x': seq<Attempt>, y': seq<Attempt>)
    requires var base := Failures(RunOf(before), user, ip);
             Split(RunOf(before + front), x, y, Admitted(before, front, user, ip), base, |front|, clock, user, ip)
    requires |front| + 1 < 1000 && (last.Clear? || clock <= last.now) && NoReset([last], user, ip)
    ensures Split(Called(RunOf(before + front), last), x', y', Admitted(before, front + [last], user, ip),
                  Failures(RunOf(before), user, ip), |front| + 1, if last.Clear? then clock else last.now, user, ip)
  {
    hide Split, RunOf, Inserted, WithoutFailures, Scan, Failures, Wait, Admitted, RemainingAfter;
    var rows, ts, base := RunOf(before + front), Admitted(before, front, user, ip), Failures(RunOf(before), user, ip);
    AdmittedStep(before, front, last, user, ip);
    WaitIsRemaining(before + front, last);
    assert [last][0] == last;
    match last
    case Reserve(u, i, now) =>
      if Wait(before + front, u, i, now) > 0 {
        x', y' := x, y;
        LaterSplit(rows, x, y, ts, base, |front|, clock, user, ip, now, |front| + 1);
        assert ts + [] == ts;
      } else {
        x', y' := InsertKeepsSplit(rows, x, y, ts, base, |front|, clock, user, ip, u, i, false, now);
      }
    case Success(u, i, now) =>
      x', y' := ClearKeepsSplit(rows, x, y, ts, base, |front|, clock, user, ip, u, i);
      x', y' := InsertKeepsSplit(WithoutFailures(rows, u, i), x', y', ts, base, |front|, clock, user, ip, u, i, true, now);
      assert ts + [] == ts;
    case Clear(u, i) =>
      x', y' := ClearKeepsSplit(rows, x, y, ts, base, |front|, clock, user, ip, u, i);
      LaterSplit(WithoutFailures(rows, u, i), x', y', ts, base, |front|, clock, user, ip, clock, |front| + 1);
      assert ts + [] == ts;
  }

  lemma {:induction false} RunSplits(before: seq<Call>, since: seq<Call>, user: string, ip: string, now: int)
    returns (x: seq<Attempt>, y: seq<Attempt>)
    requires ClockRises(before + since, now) && |since| < 1000 && NoReset(since, user, ip)
    ensures Split(RunOf(before + since), x, y, Admitted(before, since, user, ip), Failures(RunOf(before), user, ip), |since|,
                  now, user, ip)
  {
    if since == [] {
      assert before + since == before;
      x, y := RunOf(before), [];
      assert RunOf(before) + [] == RunOf(before);
    } else {
      var front, last := since[..|since| - 1], since[|since| - 1];
      assert (before + since)[..|before + since| - 1] == before + front && (before + since)[|before + since| - 1] == last;
      assert since == front + [last];
      var clock := if last.Clear? then now else last.now;
      x, y := RunSplits(before, front, user, ip, clock);
      hide Split, Admitted, Failures;
      assert NoReset([last], user, ip);
      x, y := CallKeepsSplit(before, front, last, x, y, clock, user, ip);
      LaterSplit(RunOf(before + since), x, y, Admitted(before, since, user, ip), Failures(RunOf(before), user, ip), |since|,
                 clock, user, ip, now, |since|);
    }
  }

  /** What the loop counts in a table that splits so. */
  lemma SplitCounts(rows: seq<Attempt>, x: seq<Attempt>, y: seq<Attempt>, ts: seq<int>, base: seq<int>, j: nat, now: int,
                    user: string, ip: string) returns (older: nat)
    requires TableInv(rows) && Split(rows, x, y, ts, base, j, now, user, ip)
    ensures var since := now - LOCKOUT_WINDOW;
            var t, recent := Scan(rows, user, ip, since), From(ts, since);
            t.failures == older + |recent| && (recent != [] ==> t.last == Some(recent[|recent| - 1])) &&
            ((forall b :: b in base ==> b < since) ==> older == 0)
  {
    var since := now - LOCKOUT_WINDOW;
    var fx, fy := Failures(x, user, ip), Failures(y, user, ip);
    FailuresJoin(x, y, user, ip);
    FromJoins(fx, fy, since);
    ScanCounts(rows, user, ip, since);
    FailuresRise(rows, user, ip);
    RecentIsFrom(fx + fy, since);
    older := |From(fx, since)|;
    hide Scan, TableInv, Failures, From, Recent;
    if forall b :: b in base ==> b < since {
      forall i | 0 <= i < |fx| ensures fx[i] < since { assert fx[i] in fx; }
      NothingFrom(fx, since);
    }
  }

  /** Up to fourteen failures the cap of the back-off never applies. */
  lemma CapIsFar(n: nat)
    requires 5 <= n <= 14
    ensures Backoff(n) == Pow2(n - 5) * SECOND
  {
    Pow2Grows(n - 5, 9);
    assert Pow2(5) == 32 && Pow2(9) == 512;
  }

  /** The law. Take any run of calls for any users, and a stretch at its end of fewer than a
      thousand calls that does not reset this pair. The next attempt of the pair waits at
      least as long as the failures that this stretch let through in the last quarter of an
      hour make it: not at all after fewer than five, and until 2^(n-5) seconds from the last
      of n. It waits exactly so long when no failure from before the stretch is that recent. */
  lemma WaitIsRest(before: seq<Call>, since: seq<Call>, user: string, ip: string, now: int)
    requires ClockRises(before + since, now) && |since| < 1000 && NoReset(since, user, ip)
    ensures var rest := Rest(Admitted(before, since, user, ip), now);
            Wait(before + since, user, ip, now) >= rest &&
            ((forall t :: t in Failures(RunOf(before), user, ip) ==> t < now - 15 * 60 * SECOND) ==>
               Wait(before + since, user, ip, now) == rest)
  {
    hide TableInv, Split, RunOf, Scan, Failures, From, Admitted;
    var rows, ts := RunOf(before + since), Admitted(before, since, user, ip);
    EveryRunKeepsInv(before + since, now);
    FailedAttemptBound(rows, user, ip, now);
    var x, y := RunSplits(before, since, user, ip, now);
    var older := SplitCounts(rows, x, y, ts, Failures(RunOf(before), user, ip), |since|, now, user, ip);
    var n := |From(ts, now - LOCKOUT_WINDOW)|;
    if n >= 5 {
      CapIsFar(n);
      CapIsFar(older + n);
      Pow2Grows(n - 5, older + n - 5);
    }
  }

  /** A pair with no history: every wait of a run of fewer than a thousand calls follows from
      the failures it let through itself. */
  lemma FirstLockouts(calls: seq<Call>, user: string, ip: string, now: int)
    requires ClockRises(calls, now) && |calls| < 1000 && NoReset(calls, user, ip)
    ensures Wait(calls, user, ip, now) == Rest(Admitted([], calls, user, ip), now)
  {
    assert [] + calls == calls;
    WaitIsRest([], calls, user, ip, now);
  }
}
