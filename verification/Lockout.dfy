/** The login lockout of internal/auth/security.go: an attempt table with a sliding
    window, eviction of old rows, and a delay that doubles with each failure. */
module Lockout {
  import opened Prelude

  const LOCKOUT_THRESHOLD: nat := 5
  const LOCKOUT_WINDOW: int := 15 * MINUTE
  const MAX_LOCKOUT: int := 15 * MINUTE
  const MAX_STORED_ATTEMPTS: nat := 1000

  datatype Attempt = Attempt(id: nat, user: string, ip: string, succeeded: bool, at: int)

  // ----- the delay -----

  function Pow2(n: nat): (r: nat)
    ensures r >= 1
  {
    if n == 0 then 1 else 2 * Pow2(n - 1)
  }

  lemma {:induction false} Pow2Grows(m: nat, n: nat)
    requires m <= n
    ensures Pow2(m) <= Pow2(n)
    decreases n
  {
    if m < n { Pow2Grows(m, n - 1); }
  }

  /** The delay after n consecutive failures, n being at the threshold or above. */
  function Backoff(n: nat): int
    requires n >= LOCKOUT_THRESHOLD
  {
    var d := Pow2(n - LOCKOUT_THRESHOLD) * SECOND;
    if d > MAX_LOCKOUT then MAX_LOCKOUT else d
  }

  lemma BackoffGrows(m: nat, n: nat)
    requires LOCKOUT_THRESHOLD <= m <= n
    ensures Backoff(m) <= Backoff(n)
  {
    Pow2Grows(m - LOCKOUT_THRESHOLD, n - LOCKOUT_THRESHOLD);
  }

  /** The multiplication 2^exp seconds stays within an int64 exactly up to exp 33. */
  lemma DelayFitsIff(exp: nat)
    ensures Pow2(exp) * SECOND <= INT64_MAX <==> exp <= 33
  {
    assert Pow2(8) == 256;
    assert Pow2(16) == 65536 by { assert Pow2(12) == 4096; }
    assert Pow2(24) == 16777216 by { assert Pow2(20) == 1048576; }
    assert Pow2(32) == 4294967296 by { assert Pow2(28) == 268435456; }
    assert Pow2(34) == 17179869184;
    if exp <= 33 { Pow2Grows(exp, 33); } else { Pow2Grows(34, exp); }
  }

  // ----- what the table says of one (user, ip) -----

  predicate Of(a: Attempt, user: string, ip: string) { a.user == user && a.ip == ip }

  /** The times of the failed attempts in the table. */
  function Failures(rows: seq<Attempt>, user: string, ip: string): seq<int> {
    if rows == [] then []
    else
      var n := |rows| - 1;
      Failures(rows[..n], user, ip) + (if Of(rows[n], user, ip) && !rows[n].succeeded then [rows[n].at] else [])
  }

  datatype Tally = Tally(failures: nat, last: Option<int>)

  /** The loop of lockoutRemaining over the selected rows. */
  function Scan(rows: seq<Attempt>, user: string, ip: string, since: int): Tally {
    if rows == [] then Tally(0, None)
    else
      var n := |rows| - 1;
      var t := Scan(rows[..n], user, ip, since);
      if !Of(rows[n], user, ip) || rows[n].at < since then t
      else if rows[n].succeeded then Tally(0, None)
      else Tally(t.failures + 1, Some(rows[n].at))
  }

  function RemainingAfter(t: Tally, now: int): (d: int) {
    if t.failures < LOCKOUT_THRESHOLD || t.last.None? then 0
    else if now < t.last.value + Backoff(t.failures) then t.last.value + Backoff(t.failures) - now
    else 0
  }

  // ----- the invariant -----

  predicate Sorted(rows: seq<Attempt>) {
    forall i, j :: 0 <= i < j < |rows| ==> rows[i].id < rows[j].id && rows[i].at <= rows[j].at
  }

  /** Successes of a pair come before its failures: a success deletes the failures. */
  predicate SuccessesFirst(rows: seq<Attempt>) {
    forall i, j :: 0 <= i < j < |rows| && rows[i].user == rows[j].user && rows[i].ip == rows[j].ip && !rows[i].succeeded
      ==> !rows[j].succeeded
  }

  predicate Rising(ts: seq<int>) {
    forall i, j :: 0 <= i < j < |ts| ==> ts[i] <= ts[j]
  }

  /** A failure that has n >= 5 others in the window before it waited for their delay. */
  predicate Spaced(ts: seq<int>) {
    forall i, j :: 0 <= i && i + LOCKOUT_THRESHOLD <= j < |ts| && ts[j] - ts[i] <= LOCKOUT_WINDOW
      ==> ts[j] - ts[j - 1] >= Backoff(j - i)
  }

  ghost predicate TableInv(rows: seq<Attempt>) {
    Sorted(rows) && SuccessesFirst(rows) && forall user, ip :: Spaced(Failures(rows, user, ip))
  }

  /** How many of the rising times lie at or after since: a suffix. */
  function Recent(ts: seq<int>, since: int): (n: nat)
    ensures n <= |ts|
  {
    if ts == [] || ts[|ts| - 1] < since then 0 else 1 + Recent(ts[..|ts| - 1], since)
  }

  lemma {:induction false} RecentIsSuffix(ts: seq<int>, since: int)
    requires Rising(ts)
    ensures forall i :: 0 <= i < |ts| ==> (ts[i] >= since <==> i >= |ts| - Recent(ts, since))
  {
    if ts != [] && ts[|ts| - 1] >= since {
      RecentIsSuffix(ts[..|ts| - 1], since);
    }
  }

  // ----- Failures under the table operations -----

  lemma {:induction false} FailuresRise(rows: seq<Attempt>, user: string, ip: string)
    requires Sorted(rows)
    ensures Rising(Failures(rows, user, ip))
    ensures forall i :: 0 <= i < |Failures(rows, user, ip)| ==> rows != [] && Failures(rows, user, ip)[i] <= rows[|rows| - 1].at
  {
    if rows != [] {
      FailuresRise(rows[..|rows| - 1], user, ip);
    }
  }

  /** Dropping the oldest rows drops the oldest failures of each pair. */
  lemma {:induction false} FailuresOfSuffix(rows: seq<Attempt>, k: nat, user: string, ip: string) returns (m: nat)
    requires k <= |rows|
    ensures m <= |Failures(rows, user, ip)| && Failures(rows[k..], user, ip) == Failures(rows, user, ip)[m..]
    decreases |rows|
  {
    if k == |rows| {
      m := |Failures(rows, user, ip)|;
    } else {
      var n := |rows| - 1;
      m := FailuresOfSuffix(rows[..n], k, user, ip);
      assert rows[..n][k..] == rows[k..][..n - k];
    }
  }

  lemma SuffixStaysSpaced(ts: seq<int>, m: nat)
    requires m <= |ts| && Spaced(ts)
    ensures Spaced(ts[m..])
  {
    var s := ts[m..];
    forall i, j | 0 <= i && i + LOCKOUT_THRESHOLD <= j < |s| && s[j] - s[i] <= LOCKOUT_WINDOW
      ensures s[j] - s[j - 1] >= Backoff(j - i)
    {
      assert ts[m + j] - ts[m + i] <= LOCKOUT_WINDOW;
      assert ts[m + j] - ts[m + j - 1] >= Backoff((m + j) - (m + i));
    }
  }

  lemma SuffixKeepsInv(rows: seq<Attempt>, k: nat)
    requires k <= |rows| && TableInv(rows)
    ensures TableInv(rows[k..])
  {
    forall user, ip ensures Spaced(Failures(rows[k..], user, ip)) {
      var m := FailuresOfSuffix(rows, k, user, ip);
      SuffixStaysSpaced(Failures(rows, user, ip), m);
    }
  }

  /** DELETE ... WHERE attempted_at < cutoff. */
  function NotBefore(rows: seq<Attempt>, cutoff: int): seq<Attempt> {
    if rows == [] then []
    else (if rows[0].at < cutoff then [] else [rows[0]]) + NotBefore(rows[1..], cutoff)
  }

  lemma {:induction false} NotBeforeIsSuffix(rows: seq<Attempt>, cutoff: int) returns (k: nat)
    requires Sorted(rows)
    ensures k <= |rows| && NotBefore(rows, cutoff) == rows[k..]
    ensures forall i :: k <= i < |rows| ==> rows[i].at >= cutoff
  {
    if rows == [] {
      k := 0;
    } else {
      k := NotBeforeIsSuffix(rows[1..], cutoff);
      if rows[0].at < cutoff {
        k := k + 1;
      } else {
        assert forall i :: 0 <= i < |rows| ==> rows[i].at >= cutoff;
        KeepAll(rows, cutoff);
        k := 0;
      }
    }
  }

  lemma {:induction false} KeepAll(rows: seq<Attempt>, cutoff: int)
    requires forall i :: 0 <= i < |rows| ==> rows[i].at >= cutoff
    ensures NotBefore(rows, cutoff) == rows
  {
    if rows != [] { KeepAll(rows[1..], cutoff); }
  }

  /** DELETE ... WHERE username = ? AND client_ip = ? AND succeeded = 0. */
  function WithoutFailures(rows: seq<Attempt>, user: string, ip: string): seq<Attempt> {
    if rows == [] then []
    else
      var n := |rows| - 1;
      WithoutFailures(rows[..n], user, ip) + (if Of(rows[n], user, ip) && !rows[n].succeeded then [] else [rows[n]])
  }

  lemma {:induction false} WithoutFailuresKeepsOthers(rows: seq<Attempt>, user: string, ip: string, u: string, i: string)
    ensures Failures(WithoutFailures(rows, user, ip), u, i) == if u == user && i == ip then [] else Failures(rows, u, i)
  {
    if rows != [] {
      var n := |rows| - 1;
      WithoutFailuresKeepsOthers(rows[..n], user, ip, u, i);
      var w := WithoutFailures(rows[..n], user, ip);
      assert (w + [rows[n]])[..|w|] == w;
      assert w + [] == w;
    }
  }

  lemma {:induction false} WithoutFailuresElements(rows: seq<Attempt>, user: string, ip: string)
    ensures forall x :: x in WithoutFailures(rows, user, ip) ==> x in rows && (Of(x, user, ip) ==> x.succeeded)
  {
    if rows != [] {
      WithoutFailuresElements(rows[..|rows| - 1], user, ip);
    }
  }

  lemma AppendLater(w: seq<Attempt>, a: Attempt)
    requires Sorted(w) && SuccessesFirst(w)
    requires forall x :: x in w ==> x.id < a.id && x.at <= a.at
    requires forall x :: x in w && x.user == a.user && x.ip == a.ip && !x.succeeded ==> !a.succeeded
    ensures Sorted(w + [a]) && SuccessesFirst(w + [a])
  {
    assert forall i :: 0 <= i < |w| ==> w[i] in w;
  }

  lemma Earlier(rows: seq<Attempt>, x: Attempt)
    requires rows != [] && Sorted(rows) && SuccessesFirst(rows) && x in rows[..|rows| - 1]
    ensures var a := rows[|rows| - 1];
            x.id < a.id && x.at <= a.at && (x.user == a.user && x.ip == a.ip && !x.succeeded ==> !a.succeeded)
  {
    var i :| 0 <= i < |rows| - 1 && rows[i] == x;
  }

  /** What is left is still in order, without failures of the pair. */
  lemma {:induction false} WithoutFailuresIsSubsequence(rows: seq<Attempt>, user: string, ip: string)
    requires Sorted(rows) && SuccessesFirst(rows)
    ensures var w := WithoutFailures(rows, user, ip); Sorted(w) && SuccessesFirst(w)
  {
    if rows != [] {
      var n := |rows| - 1;
      WithoutFailuresIsSubsequence(rows[..n], user, ip);
      var w := WithoutFailures(rows[..n], user, ip);
      WithoutFailuresElements(rows[..n], user, ip);
      hide Sorted, SuccessesFirst;
      forall x | x in w
        ensures x.id < rows[n].id && x.at <= rows[n].at &&
                (x.user == rows[n].user && x.ip == rows[n].ip && !x.succeeded ==> !rows[n].succeeded)
      {
        Earlier(rows, x);
      }
      AppendLater(w, rows[n]);
      assert w + [] == w;
    }
  }

  lemma WithoutFailuresNotBack(rows: seq<Attempt>, user: string, ip: string, now: int)
    requires TableInv(rows) && NotBack(rows, now)
    ensures NotBack(WithoutFailures(rows, user, ip), now)
  {
    WithoutFailuresElements(rows, user, ip);
    var w := WithoutFailures(rows, user, ip);
    if w != [] {
      assert w[|w| - 1] in rows;
    }
  }

  lemma WithoutFailuresKeepsInv(rows: seq<Attempt>, user: string, ip: string)
    requires TableInv(rows)
    ensures TableInv(WithoutFailures(rows, user, ip))
  {
    WithoutFailuresIsSubsequence(rows, user, ip);
    forall u, i ensures Spaced(Failures(WithoutFailures(rows, user, ip), u, i)) {
      WithoutFailuresKeepsOthers(rows, user, ip, u, i);
    }
  }

  function NextId(rows: seq<Attempt>): nat {
    if rows == [] then 1 else rows[|rows| - 1].id + 1
  }

  function Newest(rows: seq<Attempt>): seq<Attempt> {
    if |rows| <= MAX_STORED_ATTEMPTS then rows else rows[|rows| - MAX_STORED_ATTEMPTS..]
  }

  /** insertAttempt: expire, insert, evict. */
  function Inserted(rows: seq<Attempt>, user: string, ip: string, succeeded: bool, now: int): seq<Attempt> {
    var kept := NotBefore(rows, now - LOCKOUT_WINDOW);
    Newest(kept + [Attempt(NextId(kept), user, ip, succeeded, now)])
  }

  lemma FailuresOfAppend(rows: seq<Attempt>, a: Attempt, user: string, ip: string)
    ensures Failures(rows + [a], user, ip) ==
            Failures(rows, user, ip) + (if Of(a, user, ip) && !a.succeeded then [a.at] else [])
  {
    assert (rows + [a])[..|rows|] == rows;
  }

  /** The clock has not gone back behind the newest row. */
  predicate NotBack(rows: seq<Attempt>, now: int) {
    rows == [] || rows[|rows| - 1].at <= now
  }

  lemma AppendKeepsOrder(kept: seq<Attempt>, a: Attempt)
    requires Sorted(kept) && SuccessesFirst(kept) && a.id == NextId(kept) && NotBack(kept, a.at)
    requires a.succeeded ==> Failures(kept, a.user, a.ip) == []
    ensures Sorted(kept + [a]) && SuccessesFirst(kept + [a])
  {
    AppendKeepsSuccesses(kept, a);
    hide SuccessesFirst, Failures;
  }

  lemma AppendKeepsSuccesses(kept: seq<Attempt>, a: Attempt)
    requires SuccessesFirst(kept) && (a.succeeded ==> Failures(kept, a.user, a.ip) == [])
    ensures SuccessesFirst(kept + [a])
  {
    if a.succeeded {
      NoFailureRows(kept, a.user, a.ip);
    }
    hide Failures;
  }

  lemma AppendKeepsSpacing(kept: seq<Attempt>, a: Attempt)
    requires TableInv(kept)
    requires !a.succeeded ==> Spaced(Failures(kept, a.user, a.ip) + [a.at])
    ensures forall u, i :: Spaced(Failures(kept + [a], u, i))
  {
    forall u, i ensures Spaced(Failures(kept + [a], u, i)) {
      FailuresOfAppend(kept, a, u, i);
      assert Spaced(Failures(kept, u, i));
      assert Failures(kept, u, i) + [] == Failures(kept, u, i);
    }
  }

  lemma SuffixOfAppend(ts: seq<int>, m: nat, x: int)
    requires m <= |ts|
    ensures (ts + [x])[m..] == ts[m..] + [x]
  {
  }

  lemma InsertKeepsInv(rows: seq<Attempt>, user: string, ip: string, succeeded: bool, now: int)
    requires TableInv(rows) && NotBack(rows, now)
    requires succeeded ==> Failures(rows, user, ip) == []
    requires !succeeded ==> Spaced(Failures(rows, user, ip) + [now])
    ensures TableInv(Inserted(rows, user, ip, succeeded, now))
    ensures NotBack(Inserted(rows, user, ip, succeeded, now), now)
  {
    hide Failures, Spaced, SuccessesFirst;
    var k := NotBeforeIsSuffix(rows, now - LOCKOUT_WINDOW);
    var kept := rows[k..];
    SuffixKeepsInv(rows, k);
    var a := Attempt(NextId(kept), user, ip, succeeded, now);
    var m := FailuresOfSuffix(rows, k, user, ip);
    if !succeeded {
      SuffixStaysSpaced(Failures(rows, user, ip) + [now], m);
      SuffixOfAppend(Failures(rows, user, ip), m, now);
    }
    AppendKeepsOrder(kept, a);
    AppendKeepsSpacing(kept, a);
    EvictionKeepsInv(kept + [a]);
  }

  lemma EvictionKeepsInv(all: seq<Attempt>)
    requires TableInv(all)
    ensures TableInv(Newest(all)) && (all != [] ==> Newest(all) != [] && Newest(all)[|Newest(all)| - 1] == all[|all| - 1])
  {
    hide Failures, Spaced, Sorted, SuccessesFirst;
    if |all| > MAX_STORED_ATTEMPTS {
      SuffixKeepsInv(all, |all| - MAX_STORED_ATTEMPTS);
    }
  }

  lemma NewRowIsLast(rows: seq<Attempt>, user: string, ip: string, succeeded: bool, now: int)
    ensures var n := Inserted(rows, user, ip, succeeded, now);
            n != [] && Of(n[|n| - 1], user, ip) && n[|n| - 1].succeeded == succeeded && n[|n| - 1].at == now
  {
  }

  lemma {:induction false} NoFailureRows(rows: seq<Attempt>, user: string, ip: string)
    requires Failures(rows, user, ip) == []
    ensures forall i :: 0 <= i < |rows| && Of(rows[i], user, ip) ==> rows[i].succeeded
  {
    if rows != [] {
      NoFailureRows(rows[..|rows| - 1], user, ip);
    }
  }

  // ----- what stays in the table -----

  /** Expiry deletes exactly the rows before the cutoff. */
  lemma {:induction false} NotBeforeHas(rows: seq<Attempt>, cutoff: int)
    ensures forall x :: x in NotBefore(rows, cutoff) <==> x in rows && x.at >= cutoff
  {
    if rows != [] { NotBeforeHas(rows[1..], cutoff); }
  }

  /** Rows of the last quarter of an hour outlive a change unless a thousand newer ones push
      them out; all says whether the failures of the pair do too. */
  ghost predicate RecentStay(before: seq<Attempt>, after: seq<Attempt>, now: int, user: string, ip: string, all: bool) {
    forall i :: 0 <= i < |before| && now - before[i].at <= 15 * 60 * SECOND && |before| - i < 1000 ==>
      (all || Spared(before[i], user, ip)) ==> before[i] in after
  }

  /** No failure of the pair. */
  predicate Spared(x: Attempt, user: string, ip: string) { Of(x, user, ip) ==> x.succeeded }

  /** The last row is the new one, and every other was there before. */
  ghost predicate OneMore(before: seq<Attempt>, after: seq<Attempt>, user: string, ip: string, succeeded: bool, now: int) {
    after != [] && after[|after| - 1] == Attempt(after[|after| - 1].id, user, ip, succeeded, now) &&
    forall x :: x in after ==> x in before || x == after[|after| - 1]
  }

  lemma InsertedHas(rows: seq<Attempt>, user: string, ip: string, succeeded: bool, now: int)
    requires Sorted(rows) && NotBack(rows, now)
    ensures RecentStay(rows, Inserted(rows, user, ip, succeeded, now), now, user, ip, true)
    ensures OneMore(rows, Inserted(rows, user, ip, succeeded, now), user, ip, succeeded, now)
  {
    var k := NotBeforeIsSuffix(rows, now - LOCKOUT_WINDOW);
    NotBeforeHas(rows, now - LOCKOUT_WINDOW);
    hide NotBefore, Sorted;
    var kept := rows[k..];
    var a := Attempt(NextId(kept), user, ip, succeeded, now);
    assert Inserted(rows, user, ip, succeeded, now) == Newest(kept + [a]);
    hide Inserted, NextId;
    forall i | 0 <= i < |rows| && now - rows[i].at <= 15 * 60 * SECOND && |rows| - i < 1000
      ensures rows[i] in Newest(kept + [a])
    {
      KeptIsLater(rows, k, i);
      NewestHas(kept + [a], i - k);
      assert (kept + [a])[i - k] == rows[i];
    }
    NewestIsPart(kept + [a]);
  }

  lemma NewestHas(all: seq<Attempt>, i: nat)
    requires i < |all| && |all| - i <= 1000
    ensures all[i] in Newest(all)
  {
    if |all| > MAX_STORED_ATTEMPTS { assert Newest(all)[i - (|all| - MAX_STORED_ATTEMPTS)] == all[i]; }
  }

  lemma NewestIsPart(all: seq<Attempt>)
    requires all != []
    ensures Newest(all) != [] && Newest(all)[|Newest(all)| - 1] == all[|all| - 1] && forall x :: x in Newest(all) ==> x in all
  {
  }

  /** A row that is among the kept ones is not before them. */
  lemma KeptIsLater(rows: seq<Attempt>, k: nat, i: nat)
    requires Sorted(rows) && i < |rows| && k <= |rows| && rows[i] in rows[k..]
    ensures k <= i
  {
    var j :| 0 <= j < |rows| - k && rows[k..][j] == rows[i];
    assert rows[k + j] == rows[i];
  }

  /** The deletion spares everything but the pair's failures. */
  lemma {:induction false} WithoutFailuresHas(rows: seq<Attempt>, user: string, ip: string)
    ensures forall x :: x in WithoutFailures(rows, user, ip) <==> x in rows && Spared(x, user, ip)
  {
    if rows != [] {
      var n := |rows| - 1;
      WithoutFailuresHas(rows[..n], user, ip);
      assert rows == rows[..n] + [rows[n]];
    }
  }

  lemma NothingChanged(rows: seq<Attempt>, now: int, user: string, ip: string)
    ensures RecentStay(rows, rows, now, user, ip, true)
  {
  }

  lemma {:induction false} WithoutFailuresJoins(a: seq<Attempt>, b: seq<Attempt>, user: string, ip: string)
    ensures WithoutFailures(a + b, user, ip) == WithoutFailures(a, user, ip) + WithoutFailures(b, user, ip)
    ensures |WithoutFailures(b, user, ip)| <= |b|
  {
    if b == [] {
      assert a + b == a;
    } else {
      var n := |b| - 1;
      assert (a + b)[..|a + b| - 1] == a + b[..n];
      WithoutFailuresJoins(a, b[..n], user, ip);
    }
  }

  /** A spared row has no more rows behind it than before. */
  lemma SparedIsNoOlder(rows: seq<Attempt>, user: string, ip: string, i: nat) returns (k: nat)
    requires i < |rows| && Spared(rows[i], user, ip)
    ensures var w := WithoutFailures(rows, user, ip); k < |w| && w[k] == rows[i] && |w| - k <= |rows| - i
  {
    var a, b := rows[..i], rows[i..];
    assert rows == a + b && b == [rows[i]] + b[1..];
    WithoutFailuresJoins(a, b, user, ip);
    WithoutFailuresJoins([rows[i]], b[1..], user, ip);
    assert WithoutFailures([rows[i]], user, ip) == [rows[i]] by { assert [rows[i]][..0] == []; }
    k := |WithoutFailures(a, user, ip)|;
  }

  /** The same of an insertion after the pair's failures were deleted. */
  lemma SuccessHas(rows: seq<Attempt>, user: string, ip: string, now: int)
    requires TableInv(rows) && NotBack(rows, now)
    ensures var n := Called(rows, Success(user, ip, now));
            RecentStay(rows, n, now, user, ip, false) && OneMore(rows, n, user, ip, true, now) &&
            forall x :: x in n ==> Spared(x, user, ip)
  {
    var w := WithoutFailures(rows, user, ip);
    WithoutFailuresHas(rows, user, ip);
    WithoutFailuresIsSubsequence(rows, user, ip);
    WithoutFailuresNotBack(rows, user, ip, now);
    InsertedHas(w, user, ip, true, now);
    hide Inserted, WithoutFailures, Sorted, SuccessesFirst, NotBack;
    var n := Inserted(w, user, ip, true, now);
    forall i | 0 <= i < |rows| && now - rows[i].at <= 15 * 60 * SECOND && |rows| - i < 1000 && Spared(rows[i], user, ip)
      ensures rows[i] in n
    {
      var k := SparedIsNoOlder(rows, user, ip, i);
      assert w[k] == rows[i];
    }
  }

  // ----- what lockoutRemaining computes -----

  /** With the table in order, the loop counts the failures in the window and remembers
      the last one. */
  lemma {:induction false} ScanCounts(rows: seq<Attempt>, user: string, ip: string, since: int)
    requires Sorted(rows) && SuccessesFirst(rows)
    ensures var ts := Failures(rows, user, ip);
            Scan(rows, user, ip, since) ==
              Tally(Recent(ts, since), if Recent(ts, since) == 0 then None else Some(ts[|ts| - 1]))
  {
    if rows != [] {
      var n := |rows| - 1;
      var before := rows[..n];
      ScanCounts(before, user, ip, since);
      var ts := Failures(before, user, ip);
      if Of(rows[n], user, ip) && rows[n].at >= since {
        if rows[n].succeeded {
          SuccessMeansNone(rows, user, ip);
        } else {
          assert (ts + [rows[n].at])[..|ts|] == ts;
        }
      } else if Of(rows[n], user, ip) && !rows[n].succeeded {
        FailuresRise(before, user, ip);
        assert Recent(ts, since) == 0;
      } else {
        assert ts + [] == ts;
      }
    }
  }

  lemma {:induction false} SuccessMeansNone(rows: seq<Attempt>, user: string, ip: string)
    requires SuccessesFirst(rows) && rows != [] && Of(rows[|rows| - 1], user, ip) && rows[|rows| - 1].succeeded
    ensures Failures(rows[..|rows| - 1], user, ip) == []
  {
    AllSuccesses(rows[..|rows| - 1], user, ip);
  }

  lemma {:induction false} AllSuccesses(rows: seq<Attempt>, user: string, ip: string)
    requires forall i :: 0 <= i < |rows| && Of(rows[i], user, ip) ==> rows[i].succeeded
    ensures Failures(rows, user, ip) == []
  {
    if rows != [] { AllSuccesses(rows[..|rows| - 1], user, ip); }
  }

  /** A time that waited for the delay of the n recent ones keeps the spacing. */
  lemma AppendedIsSpaced(ts: seq<int>, now: int, n: nat)
    requires Spaced(ts) && n <= |ts|
    requires forall i :: 0 <= i < |ts| && ts[i] >= now - LOCKOUT_WINDOW ==> i >= |ts| - n
    requires n >= LOCKOUT_THRESHOLD ==> now >= ts[|ts| - 1] + Backoff(n)
    ensures Spaced(ts + [now])
  {
    var us := ts + [now];
    forall i, j | 0 <= i && i + LOCKOUT_THRESHOLD <= j < |us| && us[j] - us[i] <= LOCKOUT_WINDOW
      ensures us[j] - us[j - 1] >= Backoff(j - i)
    {
      assert us[i] == ts[i] && us[j - 1] == ts[j - 1];
      if j < |ts| {
        assert us[j] == ts[j];
        assert ts[j] - ts[j - 1] >= Backoff(j - i);
      } else {
        BackoffGrows(j - i, n);
      }
    }
  }

  /** A failure that is let through keeps the spacing. */
  lemma AdmittedIsSpaced(rows: seq<Attempt>, user: string, ip: string, now: int)
    requires TableInv(rows) && NotBack(rows, now)
    requires RemainingAfter(Scan(rows, user, ip, now - LOCKOUT_WINDOW), now) == 0
    ensures Spaced(Failures(rows, user, ip) + [now])
  {
    var ts := Failures(rows, user, ip);
    var since := now - LOCKOUT_WINDOW;
    ScanCounts(rows, user, ip, since);
    FailuresRise(rows, user, ip);
    RecentIsSuffix(ts, since);
    AppendedIsSpaced(ts, now, Recent(ts, since));
  }

  /** Failures 5 to n of a window waited 1 + 2 + 4 + ... seconds together. */
  lemma {:induction false} SpanGrows(ts: seq<int>, a: nat, n: nat)
    requires Spaced(ts) && Rising(ts) && 4 <= n <= 14 && a + n < |ts|
    ensures ts[a + n] - ts[a] <= LOCKOUT_WINDOW ==> ts[a + n] - ts[a] >= (Pow2(n - 4) - 1) * SECOND
  {
    if n > 4 {
      SpanGrows(ts, a, n - 1);
      Pow2Grows(n - 5, 9);
      assert Pow2(5) == 32 && Pow2(9) == 512;
      assert Backoff(n) == Pow2(n - 5) * SECOND;
    }
  }

  /** A fifteenth failure would come 1023 seconds after the first at the earliest. */
  lemma FifteenNeedMoreThanTheWindow(ts: seq<int>, a: nat)
    requires Spaced(ts) && Rising(ts) && a + 14 < |ts|
    ensures ts[a + 14] - ts[a] > LOCKOUT_WINDOW
  {
    SpanGrows(ts, a, 14);
    assert Pow2(5) == 32 && Pow2(10) == 1024;
  }

  /** At most 14 failures of one (user, ip) are ever counted in a window, so the exponent is
      at most 9, the delay at most 512 seconds, and nothing overflows. */
  lemma FailedAttemptBound(rows: seq<Attempt>, user: string, ip: string, now: int)
    requires TableInv(rows) && NotBack(rows, now)
    ensures var t := Scan(rows, user, ip, now - LOCKOUT_WINDOW);
            t.failures <= 14 &&
            0 <= RemainingAfter(t, now) <= 512 * SECOND &&
            (t.failures >= LOCKOUT_THRESHOLD ==> Pow2(t.failures - LOCKOUT_THRESHOLD) * SECOND <= INT64_MAX)
  {
    hide Failures, Spaced, Recent, Scan;
    var since := now - LOCKOUT_WINDOW;
    var ts := Failures(rows, user, ip);
    var n := Recent(ts, since);
    ScanCounts(rows, user, ip, since);
    FailuresRise(rows, user, ip);
    RecentIsSuffix(ts, since);
    if n >= 15 {
      FifteenNeedMoreThanTheWindow(ts, |ts| - n);
    }
    if n >= LOCKOUT_THRESHOLD {
      DelayFitsIff(n - LOCKOUT_THRESHOLD);
      BackoffGrows(n, 14);
      assert Pow2(5) == 32 && Pow2(9) == 512;
    }
  }

  // ----- whole runs -----

  datatype Call = Reserve(user: string, ip: string, now: int) | Success(user: string, ip: string, now: int)
    | Clear(user: string, ip: string)

  function Called(rows: seq<Attempt>, c: Call): seq<Attempt> {
    match c
    case Reserve(user, ip, now) =>
      if RemainingAfter(Scan(rows, user, ip, now - LOCKOUT_WINDOW), now) > 0 then rows
      else Inserted(rows, user, ip, false, now)
    case Success(user, ip, now) => Inserted(WithoutFailures(rows, user, ip), user, ip, true, now)
    case Clear(user, ip) => WithoutFailures(rows, user, ip)
  }

  function RunOf(calls: seq<Call>): seq<Attempt> {
    if calls == [] then [] else Called(RunOf(calls[..|calls| - 1]), calls[|calls| - 1])
  }

  /** The clock never goes back from one call to the next, nor from the last to now. */
  predicate ClockRises(calls: seq<Call>, now: int) {
    calls == [] ||
    var last := calls[|calls| - 1];
    (last.Clear? || last.now <= now) && ClockRises(calls[..|calls| - 1], if last.Clear? then now else last.now)
  }

  lemma ReserveKeepsInv(rows: seq<Attempt>, user: string, ip: string, now: int)
    requires TableInv(rows) && NotBack(rows, now)
    ensures var n := Called(rows, Reserve(user, ip, now)); TableInv(n) && NotBack(n, now)
  {
    hide TableInv, Inserted;
    FailedAttemptBound(rows, user, ip, now);
    if RemainingAfter(Scan(rows, user, ip, now - LOCKOUT_WINDOW), now) <= 0 {
      AdmittedIsSpaced(rows, user, ip, now);
      InsertKeepsInv(rows, user, ip, false, now);
    }
  }

  lemma SuccessKeepsInv(rows: seq<Attempt>, user: string, ip: string, now: int)
    requires TableInv(rows) && NotBack(rows, now)
    ensures var n := Called(rows, Success(user, ip, now)); TableInv(n) && NotBack(n, now)
  {
    hide TableInv, Inserted, WithoutFailures;
    WithoutFailuresKeepsInv(rows, user, ip);
    WithoutFailuresKeepsOthers(rows, user, ip, user, ip);
    WithoutFailuresNotBack(rows, user, ip, now);
    InsertKeepsInv(WithoutFailures(rows, user, ip), user, ip, true, now);
  }

  lemma {:induction false} EveryRunKeepsInv(calls: seq<Call>, now: int)
    requires ClockRises(calls, now)
    ensures TableInv(RunOf(calls)) && NotBack(RunOf(calls), now)
  {
    if calls == [] {
      NothingRecorded();
    } else {
      var front, last := calls[..|calls| - 1], calls[|calls| - 1];
      EveryRunKeepsInv(front, if last.Clear? then now else last.now);
      var rows := RunOf(front);
      if last.Reserve? {
        ReserveKeepsInv(rows, last.user, last.ip, last.now);
      } else if last.Success? {
        SuccessKeepsInv(rows, last.user, last.ip, last.now);
      } else {
        WithoutFailuresKeepsInv(rows, last.user, last.ip);
        WithoutFailuresNotBack(rows, last.user, last.ip, now);
        assert RunOf(calls) == WithoutFailures(rows, last.user, last.ip);
      }
      hide TableInv, Called;
    }
  }

  lemma NothingRecorded()
    ensures TableInv([])
  {
  }

  /** Whatever calls are made for whatever users, while the clock does not go back: at most
      14 failures of one (user, ip) count in any window, no wait exceeds 512 seconds, and
      the product of the back-off fits an int64. */
  lemma EveryRunIsBounded(calls: seq<Call>, user: string, ip: string, now: int)
    requires ClockRises(calls, now)
    ensures var t := Scan(RunOf(calls), user, ip, now - LOCKOUT_WINDOW);
            t.failures <= 14 && 0 <= RemainingAfter(t, now) <= 512 * SECOND &&
            (t.failures >= LOCKOUT_THRESHOLD ==> Pow2(t.failures - LOCKOUT_THRESHOLD) * SECOND <= INT64_MAX)
  {
    EveryRunKeepsInv(calls, now);
    FailedAttemptBound(RunOf(calls), user, ip, now);
  }

  class AttemptStore {
    var rows: seq<Attempt>

    ghost predicate Valid()
      reads this
    {
      TableInv(rows)
    }

    constructor ()
      ensures Valid() && rows == []
    {
      rows := [];
    }

    /** The SELECT yields the pair's rows since the cutoff, oldest first (ties by id). */
    method LockoutRemaining(user: string, ip: string, now: int) returns (remaining: int)
      ensures remaining == RemainingAfter(Scan(rows, user, ip, now - LOCKOUT_WINDOW), now)
    {
      var since := now - LOCKOUT_WINDOW;
      var failures: nat := 0;
      var lastFailure: Option<int> := None;
      for i := 0 to |rows|
        invariant Tally(failures, lastFailure) == Scan(rows[..i], user, ip, since)
      {
        assert rows[..i + 1][..i] == rows[..i];
        var row := rows[i];
        if row.user == user && row.ip == ip && row.at >= since {
          if row.succeeded {
            failures, lastFailure := 0, None;
          } else {
            failures, lastFailure := failures + 1, Some(row.at);
          }
        }
      }
      assert rows[..|rows|] == rows;
      if failures < LOCKOUT_THRESHOLD || lastFailure.None? { return 0; }
      var d := Pow2(failures - LOCKOUT_THRESHOLD) * SECOND;
      if d > MAX_LOCKOUT { d := MAX_LOCKOUT; }
      var until := lastFailure.value + d;
      if now < until { return until - now; }
      return 0;
    }

    method InsertAttempt(user: string, ip: string, succeeded: bool, now: int)
      modifies this
      ensures rows == Inserted(old(rows), user, ip, succeeded, now)
    {
      rows := NotBefore(rows, now - LOCKOUT_WINDOW);
      rows := rows + [Attempt(NextId(rows), user, ip, succeeded, now)];
      rows := Newest(rows);
    }

    /** Admits the attempt as a failure, or says how long to wait; the wait is at most 512 s. */
    method ReserveFailure(user: string, ip: string, now: int) returns (wait: int)
      requires Valid() && NotBack(rows, now)
      modifies this
      ensures Valid() && NotBack(rows, now)
      ensures wait == old(RemainingAfter(Scan(rows, user, ip, now - LOCKOUT_WINDOW), now)) && 0 <= wait <= 512 * SECOND
      ensures rows == Called(old(rows), Reserve(user, ip, now))
      ensures Scan(rows, user, ip, now - LOCKOUT_WINDOW).failures <= 14
      ensures wait > 0 ==> rows == old(rows)
      ensures wait == 0 ==> OneMore(old(rows), rows, user, ip, false, now)
      ensures RecentStay(old(rows), rows, now, user, ip, true)
    {
      InsertedHas(rows, user, ip, false, now);
      NothingChanged(rows, now, user, ip);
      hide TableInv, Inserted, Scan, RemainingAfter, RecentStay, OneMore;
      FailedAttemptBound(rows, user, ip, now);
      wait := LockoutRemaining(user, ip, now);
      if wait > 0 { return; }
      AdmittedIsSpaced(rows, user, ip, now);
      InsertKeepsInv(rows, user, ip, false, now);
      InsertAttempt(user, ip, false, now);
      FailedAttemptBound(rows, user, ip, now);
    }

    /** A success forgets the pair's failures. */
    method RecordSuccess(user: string, ip: string, now: int)
      requires Valid() && NotBack(rows, now)
      modifies this
      ensures Valid() && NotBack(rows, now)
      ensures rows == Called(old(rows), Success(user, ip, now))
      ensures Scan(rows, user, ip, now - LOCKOUT_WINDOW) == Tally(0, None)
      ensures RecentStay(old(rows), rows, now, user, ip, false) && OneMore(old(rows), rows, user, ip, true, now)
      ensures forall x :: x in rows ==> Spared(x, user, ip)
    {
      SuccessHas(rows, user, ip, now);
      hide TableInv, Sorted, SuccessesFirst, RecentStay, OneMore, Spared;
      WithoutFailuresKeepsInv(rows, user, ip);
      WithoutFailuresKeepsOthers(rows, user, ip, user, ip);
      ghost var before := rows;
      rows := WithoutFailures(rows, user, ip);
      WithoutFailuresNotBack(before, user, ip, now);
      InsertKeepsInv(rows, user, ip, true, now);
      InsertAttempt(user, ip, true, now);
      NewRowIsLast(WithoutFailures(before, user, ip), user, ip, true, now);
    }

    method ClearFailures(user: string, ip: string)
      requires Valid()
      modifies this
      ensures Valid() && rows == Called(old(rows), Clear(user, ip))
      ensures forall now :: Scan(rows, user, ip, now).failures == 0
      ensures forall x :: x in rows <==> x in old(rows) && Spared(x, user, ip)
    {
      WithoutFailuresHas(rows, user, ip);
      WithoutFailuresKeepsInv(rows, user, ip);
      WithoutFailuresKeepsOthers(rows, user, ip, user, ip);
      rows := WithoutFailures(rows, user, ip);
      forall now ensures Scan(rows, user, ip, now).failures == 0 {
        ScanCounts(rows, user, ip, now);
      }
    }
  }
}
