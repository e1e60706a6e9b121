/** Paging through the audit history (audit/list.go, httpapi/audit_routes.go): pages of
    decreasing ids, and an opaque cursor that carries the last id of a page. */
module AuditPaging {
  import opened Prelude
  import opened Base64
  import opened Decimals

  const DEFAULT_LIMIT := 50
  const MAX_LIMIT := 500
  const CURSOR_PREFIX := "a1:"
  const MAX_CURSOR_LEN := 64
  const RAW_URL := Encoding(UrlSafe, false)

  // ----- the cursor -----

  predicate ByteText(s: string) { forall i :: 0 <= i < |s| ==> s[i] as int < 256 }

  function BytesOf(s: string): seq<byte>
    requires ByteText(s)
  {
    seq(|s|, i requires 0 <= i < |s| => s[i] as int)
  }

  function TextOf(b: seq<byte>): (s: string)
    ensures ByteText(s)
  {
    seq(|b|, i requires 0 <= i < |b| => b[i] as char)
  }

  lemma TextBytes(s: string)
    requires ByteText(s)
    ensures TextOf(BytesOf(s)) == s
  {
  }

  lemma BytesText(b: seq<byte>)
    ensures BytesOf(TextOf(b)) == b
  {
  }

  lemma CursorText(id: int)
    ensures ByteText(CURSOR_PREFIX + FormatInt(id))
  {
    DecimalReadsBack(if id < 0 then -id else id);
    var s := FormatInt(id);
    assert forall i :: 0 <= i < |s| ==> IsDigit(s[i]) || s[i] == '-';
  }

  function EncodeCursor(id: int): string {
    CursorText(id);
    Encode(RAW_URL, BytesOf(CURSOR_PREFIX + FormatInt(id)))
  }

  /** The exclusive upper bound of a page; 0 asks for the newest page. */
  function DecodeCursor(raw: string): Option<int> {
    if raw == "" then Some(0)
    else if |raw| > MAX_CURSOR_LEN then None
    else
      var decoded := Decode(RAW_URL, raw);
      if decoded.None? then None
      else
        var text := TextOf(decoded.value);
        if !(CURSOR_PREFIX <= text) then None
        else
          var digits := text[|CURSOR_PREFIX|..];
          var id := ParseInt(digits);
          if id.None? || id.value <= 0 then None
          else if FormatInt(id.value) != digits then None
          else id
  }

  lemma CursorIsShort(id: int)
    requires 0 < id <= INT64_MAX
    ensures 0 < |EncodeCursor(id)| <= MAX_CURSOR_LEN
  {
    CursorText(id);
    assert Power10(19) == 10000000000000000000 by {
      assert Power10(4) == 10000;
      assert Power10(8) == 10000 * Power10(4);
      assert Power10(12) == 10000 * Power10(8);
      assert Power10(16) == 10000 * Power10(12);
    }
    DecimalLength(id, 19);
    EncodedText(RAW_URL, BytesOf(CURSOR_PREFIX + FormatInt(id)));
  }

  lemma CursorRoundTrip(id: int)
    requires 0 < id <= INT64_MAX
    ensures DecodeCursor(EncodeCursor(id)) == Some(id)
  {
    CursorText(id);
    CursorIsShort(id);
    var text := CURSOR_PREFIX + FormatInt(id);
    RoundTrip(RAW_URL, BytesOf(text));
    TextBytes(text);
    FormattedIsParsed(id);
    assert text[|CURSOR_PREFIX|..] == FormatInt(id);
    hide Encode, Decode, FormatInt, ParseInt;
  }

  /** A cursor is accepted for an id exactly when it is a short base64 text of the one
      canonical payload of that id. */
  lemma AcceptedCursorIsCanonical(raw: string, id: int)
    requires raw != ""
    ensures DecodeCursor(raw) == Some(id) <==>
            |raw| <= MAX_CURSOR_LEN && 0 < id <= INT64_MAX && ByteText(CURSOR_PREFIX + FormatInt(id)) &&
            Decode(RAW_URL, raw) == Some(BytesOf(CURSOR_PREFIX + FormatInt(id)))
  {
    CursorText(id);
    var text := CURSOR_PREFIX + FormatInt(id);
    TextBytes(text);
    assert text[|CURSOR_PREFIX|..] == FormatInt(id);
    if 0 < id <= INT64_MAX { FormattedIsParsed(id); }
    hide Decode, FormatInt;
    var decoded := Decode(RAW_URL, raw);
    if DecodeCursor(raw) == Some(id) {
      BytesText(decoded.value);
      assert TextOf(decoded.value) == CURSOR_PREFIX + FormatInt(id);
    }
  }

  // ----- one page -----

  function ClampLimit(limit: int): (r: nat)
    ensures 0 < r <= MAX_LIMIT && (0 < limit <= MAX_LIMIT ==> r == limit)
  {
    if limit <= 0 || limit > MAX_LIMIT then DEFAULT_LIMIT else limit
  }

  function Largest(s: set<int>): (m: int)
    requires s != {}
    ensures m in s && forall x :: x in s ==> x <= m
  {
    LargestExists(s);
    var m :| m in s && forall x :: x in s ==> x <= m;
    m
  }

  lemma Inhabited(s: set<int>)
    ensures s == {} || exists x :: x in s
  {
    if forall x :: x !in s {
      assert s == {};
    }
  }

  lemma {:induction false} LargestExists(s: set<int>)
    requires s != {}
    ensures exists m :: m in s && forall x :: x in s ==> x <= m
    decreases |s|
  {
    Inhabited(s);
    var x :| x in s;
    if s - {x} == {} {
      assert s == {x};
    } else {
      LargestExists(s - {x});
      var y :| y in s - {x} && forall z :: z in s - {x} ==> z <= y;
      var m := if x < y then y else x;
      assert forall z :: z in s ==> z == x || z in s - {x};
      assert m in s && forall z :: z in s ==> z <= m;
    }
  }

  /** ORDER BY id DESC. */
  function Newest(ids: set<int>): (r: seq<int>)
    ensures |r| == |ids| && (forall x :: x in r <==> x in ids) && Descends(r)
    decreases |ids|
  {
    if ids == {} then [] else [Largest(ids)] + Newest(ids - {Largest(ids)})
  }

  /** WHERE id < before, or every row when before is not above zero. */
  function Below(ids: set<int>, before: int): set<int> {
    set x | x in ids && (before > 0 ==> x < before)
  }

  datatype Page = Page(ids: seq<int>, hasMore: bool)

  /** The ids that a request asks for. */
  function PageOf(ids: set<int>, before: int, limit: int): Page {
    var all := Newest(Below(ids, before));
    var n := ClampLimit(limit);
    if |all| > n then Page(all[..n], true) else Page(all, false)
  }

  /** The newest ids below the bound, newest first: as many as the limit allows, which is 50
      unless 1 to 500 are asked for; and whether there are more. */
  ghost predicate IsPage(p: Page, ids: set<int>, before: int, limit: int) {
    IsNewest(p, set x | x in ids && (before <= 0 || x < before), if 1 <= limit <= 500 then limit else 50)
  }

  /** The n newest of the ids, newest first, and whether there are more. */
  ghost predicate IsNewest(p: Page, below: set<int>, n: nat) {
    (forall i, j :: 0 <= i < j < |p.ids| ==> p.ids[i] > p.ids[j]) &&
    (forall x :: x in p.ids ==> x in below) &&
    (forall x, y :: x in below && x !in p.ids && y in p.ids ==> y > x) &&
    |p.ids| == (if |below| <= n then |below| else n) && (p.hasMore <==> |below| > n)
  }

  lemma FrontIsNewest(all: seq<int>, n: nat, x: int, y: int)
    requires Descends(all) && n <= |all| && x in all && x !in all[..n] && y in all[..n]
    ensures y > x
  {
    assert all == all[..n] + all[n..];
    var i :| 0 <= i < |all| - n && all[n..][i] == x;
    var j :| 0 <= j < n && all[..n][j] == y;
    assert all[n + i] == x && all[j] == y;
  }

  lemma FrontDescends(all: seq<int>, n: nat)
    requires Descends(all) && n <= |all|
    ensures forall i, j :: 0 <= i < j < n ==> all[..n][i] > all[..n][j]
    ensures forall x :: x in all[..n] ==> x in all
  {
  }

  lemma FrontIsPage(all: seq<int>, below: set<int>, n: nat, p: Page)
    requires Descends(all) && |all| == |below| && forall x :: x in all <==> x in below
    requires p == if |all| > n then Page(all[..n], true) else Page(all, false)
    ensures IsNewest(p, below, n)
  {
    hide Descends;
    var m := |p.ids|;
    assert p.ids == all[..m] && m <= |all|;
    FrontDescends(all, m);
    forall x, y | x in below && x !in p.ids && y in p.ids ensures y > x {
      FrontIsNewest(all, m, x, y);
    }
  }

  lemma PageOfIsPage(ids: set<int>, before: int, limit: int)
    ensures IsPage(PageOf(ids, before, limit), ids, before, limit)
  {
    var below := set x | x in ids && (before <= 0 || x < before);
    assert Below(ids, before) == below;
    hide Newest, Below, IsNewest, Descends;
    FrontIsPage(Newest(below), below, ClampLimit(limit), PageOf(ids, before, limit));
  }

  class Store {
    /** Rows are only ever inserted; AUTOINCREMENT gives each a larger id. */
    var events: map<int, string>

    /** List; the query returns at most one row more than the limit. */
    method List(before: int, limit: int) returns (page: Page, summaries: seq<string>)
      ensures page == PageOf(events.Keys, before, limit) && IsPage(page, events.Keys, before, limit)
      ensures |summaries| == |page.ids|
      ensures forall i :: 0 <= i < |page.ids| ==> page.ids[i] in events && summaries[i] == events[page.ids[i]]
    {
      PageOfIsPage(events.Keys, before, limit);
      hide Newest, ClampLimit, IsPage;
      var n := ClampLimit(limit);
      var all := Newest(Below(events.Keys, before));
      assert forall x :: x in all ==> x in events;
      hide Below;
      var rows := if |all| > n + 1 then all[..n + 1] else all;
      var ids: seq<int> := [];
      summaries := [];
      for i := 0 to |rows|
        invariant ids == rows[..i] && |summaries| == i
        invariant forall k :: 0 <= k < i ==> rows[k] in events && summaries[k] == events[rows[k]]
      {
        assert rows[i] in all;
        ids := ids + [rows[i]];
        summaries := summaries + [events[rows[i]]];
      }
      page := Page(ids, false);
      if |ids| > n {
        page := Page(ids[..n], true);
        summaries := summaries[..n];
      }
    }
  }

  // ----- following the cursor -----

  /** handleAuditEvents: the page and the next cursor, or a rejected cursor. */
  function Served(ids: set<int>, cursor: string, limit: int): Option<(Page, string)> {
    var before := DecodeCursor(cursor);
    if before.None? then None
    else
      var page := PageOf(ids, before.value, limit);
      var last := if page.ids == [] then 0 else page.ids[|page.ids| - 1];
      Some((page, if page.hasMore && page.ids != [] then EncodeCursor(last) else ""))
  }

  /** Request k sees the table tables(k); later tables only have newer rows added. */
  ghost predicate Growing(tables: nat -> set<int>) {
    (forall k, x :: x in tables(k) ==> 0 < x <= INT64_MAX) &&
    (forall k :: tables(0) <= tables(k)) &&
    (forall k, x, y :: x in tables(k) && x !in tables(0) && y in tables(0) ==> y < x)
  }

  /** The ids a reader collects from request k on, asking with the given cursor. */
  ghost function Collected(tables: nat -> set<int>, limits: nat -> int, k: nat, cursor: string, rounds: nat): Option<seq<int>>
    decreases rounds
  {
    var served := Served(tables(k), cursor, limits(k));
    if served.None? || rounds == 0 then None
    else if !served.value.0.hasMore then Some(served.value.0.ids)
    else
      var rest := Collected(tables, limits, k + 1, served.value.1, rounds - 1);
      if rest.None? then None else Some(served.value.0.ids + rest.value)
  }

  /** After the first n of a descending list come the numbers below its n-th. */
  lemma RestIsBelow(ids: set<int>, n: nat)
    requires 0 < n < |ids| && Newest(ids)[n - 1] > 0
    ensures Newest(Below(ids, Newest(ids)[n - 1])) == Newest(ids)[n..]
  {
    hide Newest, Largest;
    var all := Newest(ids);
    var low := Below(ids, all[n - 1]);
    forall x ensures x in all[n..] <==> x in low {
      if x in low {
        assert x in all;
        var i :| 0 <= i < |all| && all[i] == x;
        assert all[n..][i - n] == x;
      }
      if x in all[n..] {
        var i :| 0 <= i < |all| - n && all[n..][i] == x;
        assert all[n + i] == x && x in all;
      }
    }
    DescendingIsUnique(Newest(low), all[n..]);
  }

  predicate Descends(a: seq<int>) { forall i, j :: 0 <= i < j < |a| ==> a[i] > a[j] }

  lemma RestOfDescent(a: seq<int>)
    requires Descends(a) && a != []
    ensures Descends(a[1..]) && forall x :: x in a[1..] <==> x in a && x != a[0]
  {
    forall x ensures x in a[1..] <==> x in a && x != a[0] {
      if x in a && x != a[0] {
        var i :| 0 < i < |a| && a[i] == x;
        assert a[1..][i - 1] == x;
      }
      if x in a[1..] {
        var i :| 0 <= i < |a| - 1 && a[1..][i] == x;
        assert a[i + 1] == x;
      }
    }
  }

  lemma MemberOfOther(a: seq<int>, b: seq<int>, x: int)
    requires x in a && forall y :: y in a <==> y in b
    ensures x in b
  {
  }

  /** Two descending sequences of the same numbers are equal. */
  lemma {:induction false} DescendingIsUnique(a: seq<int>, b: seq<int>)
    requires Descends(a) && Descends(b) && forall x :: x in a <==> x in b
    ensures a == b
    decreases |a|
  {
    if b != [] { MemberOfOther(b, a, b[0]); }
    if a != [] {
      MemberOfOther(a, b, a[0]);
      SameHead(a, b);
      RestOfDescent(a);
      RestOfDescent(b);
      hide Descends;
      DescendingIsUnique(a[1..], b[1..]);
      assert a == [a[0]] + a[1..] && b == [b[0]] + b[1..];
    }
  }

  lemma SameHead(a: seq<int>, b: seq<int>)
    requires Descends(a) && Descends(b) && a != [] && b != [] && a[0] in b && b[0] in a
    ensures a[0] == b[0]
  {
  }

  /** The page for a positive bound looks the same in every later table, because the rows
      added since have larger ids than any the bound came from. */
  lemma LaterRowsAreNotBelow(tables: nat -> set<int>, k: nat, before: int)
    requires Growing(tables) && before in tables(0)
    ensures Below(tables(k), before) == Below(tables(0), before)
  {
  }

  lemma ServedAt(ids: set<int>, before: int, limit: int)
    requires 0 < before <= INT64_MAX
    ensures Served(ids, EncodeCursor(before), limit) == ServedBelow(ids, before, limit)
    ensures Served(ids, "", limit) == ServedBelow(ids, 0, limit)
  {
    CursorRoundTrip(before);
    CursorIsShort(before);
  }

  function ServedBelow(ids: set<int>, before: int, limit: int): Option<(Page, string)> {
    var page := PageOf(ids, before, limit);
    var last := if page.ids == [] then 0 else page.ids[|page.ids| - 1];
    Some((page, if page.hasMore && page.ids != [] then EncodeCursor(last) else ""))
  }

  /** From a bound on, the reader collects every id below it. */
  lemma {:induction false} CollectsTheRest(tables: nat -> set<int>, limits: nat -> int, k: nat, before: int, rounds: nat)
    requires Growing(tables) && before in tables(0) && rounds > |Below(tables(0), before)|
    ensures Collected(tables, limits, k, EncodeCursor(before), rounds) == Some(Newest(Below(tables(0), before)))
    decreases rounds
  {
    hide Newest, DecodeCursor, EncodeCursor, Below, PageOf, Served, Growing;
    LaterRowsAreNotBelow(tables, k, before);
    InRange(tables, before);
    ServedAt(tables(k), before, limits(k));
    OnePage(tables(0), before, limits(k));
    PageDependsOnBelow(tables(k), tables(0), before, limits(k));
    var page := PageOf(tables(0), before, limits(k));
    if page.hasMore {
      var last := page.ids[|page.ids| - 1];
      CollectsTheRest(tables, limits, k + 1, last, rounds - 1);
    }
  }

  lemma InRange(tables: nat -> set<int>, id: int)
    requires Growing(tables) && id in tables(0)
    ensures 0 < id <= INT64_MAX && forall x :: x in tables(0) ==> x > 0
  {
  }

  lemma PageDependsOnBelow(a: set<int>, b: set<int>, before: int, limit: int)
    requires Below(a, before) == Below(b, before)
    ensures PageOf(a, before, limit) == PageOf(b, before, limit)
  {
    hide Below, Newest;
  }

  /** A page and what comes below its last id make up everything below the bound. */
  lemma OnePage(ids: set<int>, before: int, limit: int)
    requires forall x :: x in ids ==> x > 0
    ensures var page := PageOf(ids, before, limit);
            if page.hasMore then
              page.ids != [] &&
              var last := page.ids[|page.ids| - 1];
              last in ids && |Below(ids, last)| < |Below(ids, before)| &&
              page.ids + Newest(Below(ids, last)) == Newest(Below(ids, before))
            else page.ids == Newest(Below(ids, before))
  {
    hide Newest;
    var low := Below(ids, before);
    var all := Newest(low);
    var n := ClampLimit(limit);
    if |all| > n {
      var last := all[n - 1];
      assert last in low;
      RestIsBelow(low, n);
      assert Below(low, last) == Below(ids, last);
    }
  }

  /** Following next_cursor from the first request until has_more is false yields every event
      that was there at the first page exactly once, newest first, whatever limits are asked
      for and whatever newer events are inserted in between. */
  lemma PagingIsComplete(tables: nat -> set<int>, limits: nat -> int)
    requires Growing(tables)
    ensures Collected(tables, limits, 0, "", |tables(0)| + 1) == Some(Newest(tables(0)))
  {
    hide Newest, DecodeCursor, EncodeCursor, PageOf, Served;
    var ids := tables(0);
    assert Below(ids, 0) == ids;
    ServedAt(ids, 1, limits(0));
    OnePage(ids, 0, limits(0));
    var page := PageOf(ids, 0, limits(0));
    if page.hasMore {
      var last := page.ids[|page.ids| - 1];
      CollectsTheRest(tables, limits, 1, last, |ids|);
    }
  }
}
