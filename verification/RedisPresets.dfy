/** Command names and presets of the Redis user pages (redisadmin/presets.go). */
module RedisPresets {
  import opened Prelude
  import opened Texts

  const MAX_COMMANDS := 256

  // ----- names -----

  function LowerChar(c: char): char { if 'A' <= c <= 'Z' then c - 'A' + 'a' else c }

  function UpperChar(c: char): char { if 'a' <= c <= 'z' then c - 'a' + 'A' else c }

  function Lower(s: string): string { seq(|s|, i requires 0 <= i < |s| => LowerChar(s[i])) }

  function Upper(s: string): string { seq(|s|, i requires 0 <= i < |s| => UpperChar(s[i])) }

  lemma LowerOfUpper(s: string)
    ensures Lower(Upper(s)) == Lower(s)
  {
  }

  /** A name as uniqueSorted reads it. */
  function Norm(s: string): string { Lower(TrimSpace(s)) }

  lemma {:induction false} TrimLeftShape(s: string)
    ensures TrimLeft(s) == "" || !IsSpace(TrimLeft(s)[0])
  {
    if s != "" { TrimLeftShape(s[1..]); }
  }

  lemma {:induction false} TrimRightShape(s: string)
    ensures TrimRight(s) == "" || !IsSpace(TrimRight(s)[|TrimRight(s)| - 1])
    ensures TrimRight(s) <= s
  {
    if s != "" { TrimRightShape(s[..|s| - 1]); }
  }

  lemma NormTwice(s: string)
    ensures Norm(Norm(s)) == Norm(s)
  {
    var t := TrimSpace(s);
    TrimLeftShape(s);
    TrimRightShape(TrimLeft(s));
    var n := Lower(t);
    assert n != "" ==> IsSpace(n[0]) == IsSpace(t[0]) && IsSpace(n[|n| - 1]) == IsSpace(t[|t| - 1]);
    assert TrimSpace(n) == n;
  }

  // ----- sort.Strings -----

  predicate Less(a: string, b: string) {
    b != "" && (a == "" || a[0] < b[0] || (a[0] == b[0] && Less(a[1..], b[1..])))
  }

  lemma {:induction false} LessIsTotal(a: string, b: string)
    ensures a == b || Less(a, b) || Less(b, a)
    ensures !(Less(a, b) && Less(b, a)) && !Less(a, a)
  {
    if a != "" && b != "" {
      LessIsTotal(a[1..], b[1..]);
      assert a == [a[0]] + a[1..] && b == [b[0]] + b[1..];
    }
    if a != "" { LessIsTotal(a[1..], a[1..]); }
  }

  lemma {:induction false} LessJoins(a: string, b: string, c: string)
    requires Less(a, b) && Less(b, c)
    ensures Less(a, c)
  {
    if a != "" && a[0] == b[0] == c[0] { LessJoins(a[1..], b[1..], c[1..]); }
  }

  predicate IsSmallest(m: string, s: set<string>) {
    m in s && forall x :: x in s && x != m ==> Less(m, x)
  }

  lemma Inhabited(s: set<string>)
    ensures s == {} || exists x :: x in s
  {
    if forall x :: x !in s { assert s == {}; }
  }

  lemma {:induction false} SmallestExists(s: set<string>)
    requires s != {}
    ensures exists m :: IsSmallest(m, s)
    decreases |s|
  {
    Inhabited(s);
    var x :| x in s;
    if s - {x} == {} {
      assert s == {x};
      assert IsSmallest(x, s);
    } else {
      SmallestExists(s - {x});
      var y :| IsSmallest(y, s - {x});
      LessIsTotal(x, y);
      var m := if Less(x, y) then x else y;
      forall z | z in s && z != m ensures Less(m, z) {
        if m == x && z != y { LessJoins(x, y, z); }
      }
      assert IsSmallest(m, s);
    }
  }

  lemma SmallestIsUnique(s: set<string>, a: string, b: string)
    requires IsSmallest(a, s) && IsSmallest(b, s)
    ensures a == b
  {
    LessIsTotal(a, b);
  }

  ghost predicate Ascends(r: seq<string>) {
    forall i, j :: 0 <= i < j < |r| ==> Less(r[i], r[j])
  }

  function Ascending(s: set<string>): (r: seq<string>)
    ensures |r| == |s| && (forall x :: x in r <==> x in s) && Ascends(r)
    decreases |s|
  {
    if s == {} then []
    else
      SmallestExists(s);
      assert forall a, b :: IsSmallest(a, s) && IsSmallest(b, s) ==> a == b by {
        forall a, b | IsSmallest(a, s) && IsSmallest(b, s) ensures a == b { SmallestIsUnique(s, a, b); }
      }
      var m :| m in s && IsSmallest(m, s);
      [m] + Ascending(s - {m})
  }

  lemma {:induction false} AscendingIsUnique(a: seq<string>, b: seq<string>)
    requires Ascends(a) && Ascends(b) && forall x :: x in a <==> x in b
    ensures a == b
  {
    forall i | 0 <= i < |b| ensures b[i] in a { assert b[i] in b; }
    forall i | 0 <= i < |a| ensures a[i] in b { assert a[i] in a; }
    if b != [] { assert b[0] in a; }
    if a != [] {
      assert a[0] in b;
      LessIsTotal(a[0], b[0]);
      assert a[0] == b[0];
      assert forall x :: x in a[1..] <==> x in a && x != a[0] by { TailOf(a); }
      assert forall x :: x in b[1..] <==> x in b && x != b[0] by { TailOf(b); }
      AscendingIsUnique(a[1..], b[1..]);
      assert a == [a[0]] + a[1..] && b == [b[0]] + b[1..];
    }
  }

  lemma TailOf(a: seq<string>)
    requires a != [] && Ascends(a)
    ensures forall x :: x in a[1..] <==> x in a && x != a[0]
  {
    LessIsTotal(a[0], a[0]);
    forall i | 0 < i < |a| ensures a[i] != a[0] {
      assert Less(a[0], a[i]);
    }
  }

  // ----- uniqueSorted and equalSet -----

  function NormSet(names: seq<string>): set<string> {
    set v | v in names && Norm(v) != "" :: Norm(v)
  }

  /** The normalized names, each once, in order. */
  function UniqueSorted(names: seq<string>): seq<string> { Ascending(NormSet(names)) }

  /** The names that a loop over the first ones has kept. */
  function Kept(names: seq<string>): seq<string> {
    if names == [] then []
    else
      var front, v := Kept(names[..|names| - 1]), Norm(names[|names| - 1]);
      if v == "" || v in front then front else front + [v]
  }

  lemma {:induction false} KeptIsNormSet(names: seq<string>)
    ensures forall x :: x in Kept(names) <==> x in NormSet(names)
    ensures forall i, j :: 0 <= i < j < |Kept(names)| ==> Kept(names)[i] != Kept(names)[j]
  {
    if names != [] {
      var n := |names| - 1;
      KeptIsNormSet(names[..n]);
      assert names == names[..n] + [names[n]];
      assert NormSet(names) == NormSet(names[..n]) + (if Norm(names[n]) != "" then {Norm(names[n])} else {});
    }
  }

  /** equalSet is equality of the sets of normalized names. */
  lemma EqualSetIsSetEquality(a: seq<string>, b: seq<string>)
    ensures UniqueSorted(a) == UniqueSorted(b) <==> NormSet(a) == NormSet(b)
  {
    if UniqueSorted(a) == UniqueSorted(b) {
      assert forall x :: x in NormSet(a) <==> x in UniqueSorted(a);
      assert forall x :: x in NormSet(b) <==> x in UniqueSorted(b);
    }
  }

  /** Sorting what is sorted already changes nothing. */
  lemma UniqueSortedTwice(names: seq<string>)
    ensures UniqueSorted(UniqueSorted(names)) == UniqueSorted(names)
  {
    var r := UniqueSorted(names);
    forall x ensures x in NormSet(r) <==> x in NormSet(names) {
      if x in NormSet(names) {
        var v :| v in names && Norm(v) == x;
        NormTwice(v);
        assert x in r;
      }
      if x in NormSet(r) {
        var w :| w in r && Norm(w) == x;
        var v :| v in names && Norm(v) == w;
        NormTwice(v);
      }
    }
    assert NormSet(r) == NormSet(names);
  }

  // ----- the two functions as loops -----

  method SortUnique(names: seq<string>) returns (out: seq<string>)
    ensures out == UniqueSorted(names)
  {
    var seen: set<string> := {};
    var kept: seq<string> := [];
    for i := 0 to |names|
      invariant kept == Kept(names[..i]) && seen == set x | x in kept
    {
      assert names[..i + 1][..i] == names[..i];
      var v := Norm(names[i]);
      if v == "" { continue; }
      if v in seen { continue; }
      seen := seen + {v};
      kept := kept + [v];
    }
    assert names[..|names|] == names;
    KeptIsNormSet(names);
    assert seen == NormSet(names);
    out := Ascending(seen);
  }

  method EqualSet(a: seq<string>, b: seq<string>) returns (same: bool)
    ensures same <==> NormSet(a) == NormSet(b)
  {
    EqualSetIsSetEquality(a, b);
    hide UniqueSorted, NormSet;
    var x := SortUnique(a);
    var y := SortUnique(b);
    if |x| != |y| { return false; }
    for i := 0 to |x|
      invariant x[..i] == y[..i]
    {
      if x[i] != y[i] { return false; }
    }
    assert x[..|x|] == x && y[..|y|] == y;
    same := true;
  }

  // ----- the presets -----

  function ConnectionSafe(): seq<string> {
    ["ping", "echo", "hello", "quit"]
  }

  function CacheStrings(): seq<string> {
    ["get", "set", "mget", "mset", "del", "unlink", "exists", "expire", "pexpire", "expireat", "pexpireat",
     "ttl", "pttl", "persist", "type", "strlen", "getrange", "setrange", "append", "incr", "incrby", "decr",
     "decrby", "getdel", "getex", "setex", "psetex", "setnx", "scan"]
  }

  function CacheHashesAndSets(): seq<string> {
    ["hget", "hset", "hmget", "hgetall", "hdel", "hexists", "hkeys", "hvals", "hlen", "hincrby",
     "hincrbyfloat", "hsetnx", "hscan", "hrandfield", "sadd", "srem", "sismember", "smembers", "scard",
     "sscan", "spop", "srandmember", "smove"]
  }

  function CacheLists(): seq<string> {
    ["lpush", "rpush", "lpop", "rpop", "lrange", "llen", "lindex", "lset", "ltrim", "linsert", "lpos", "lmove"]
  }

  function CacheSortedSets(): seq<string> {
    ["zadd", "zrem", "zrange", "zrevrange", "zrangebyscore", "zcard", "zscore", "zrank", "zrevrank", "zcount",
     "zincrby", "zscan", "zpopmin", "zpopmax", "zmscore", "getbit", "setbit", "bitcount", "bitpos"]
  }

  function CacheCollections(): seq<string> { CacheHashesAndSets() + CacheLists() + CacheSortedSets() }

  function CacheReadWrite(): seq<string> { ConnectionSafe() + CacheStrings() + CacheCollections() }

  function ReadStringsAndHashes(): seq<string> {
    ["get", "mget", "exists", "ttl", "pttl", "type", "strlen", "getrange", "scan", "hget", "hmget", "hgetall",
     "hexists", "hkeys", "hvals", "hlen", "hscan", "hrandfield"]
  }

  function ReadCollections(): seq<string> {
    ["sismember", "smembers", "scard", "sscan", "srandmember", "lrange", "llen", "lindex", "lpos", "zrange",
     "zrevrange", "zrangebyscore", "zcard", "zscore", "zrank", "zrevrank", "zcount", "zscan", "zmscore",
     "getbit", "bitcount", "bitpos"]
  }

  function ReadOnly(): seq<string> { ConnectionSafe() + ReadStringsAndHashes() + ReadCollections() }

  function ListCommands(): seq<string> {
    ["lpush", "rpush", "lpop", "rpop", "blpop", "brpop", "llen", "lrange", "lindex", "ltrim", "lmove",
     "blmove", "lpos", "linsert", "rpoplpush", "brpoplpush", "lmpop", "blmpop"]
  }

  function QueueLists(): seq<string> { ConnectionSafe() + ListCommands() }

  function StreamCommands(): seq<string> {
    ["xadd", "xread", "xreadgroup", "xgroup", "xack", "xpending", "xclaim", "xautoclaim", "xlen", "xrange",
     "xrevrange", "xdel", "xtrim", "xinfo", "xsetid"]
  }

  function QueueStreams(): seq<string> { ConnectionSafe() + StreamCommands() }

  function SortedSetCommands(): seq<string> {
    ["zadd", "zrem", "zrange", "zrevrange", "zpopmin", "zpopmax", "bzpopmin", "bzpopmax", "zcard", "zscore",
     "zrank", "zcount", "zincrby", "zmscore", "zrangebyscore", "zremrangebyrank", "zremrangebyscore", "zscan",
     "bzmpop", "zmpop"]
  }

  function QueueSortedSets(): seq<string> { ConnectionSafe() + SortedSetCommands() }

  datatype Preset = Named(preset: string, queueKind: string) | Custom

  const CACHE := Named("cache-read-write", "")
  const READ_ONLY := Named("read-only", "")
  const LISTS := Named("queue-worker", "lists")
  const STREAMS := Named("queue-worker", "streams")
  const SORTED_SETS := Named("queue-worker", "sorted-sets")

  /** inferPreset. */
  function InferPreset(commands: seq<string>): Preset {
    var s := NormSet(commands);
    if s == NormSet(CacheReadWrite()) then CACHE
    else if s == NormSet(ReadOnly()) then READ_ONLY
    else if s == NormSet(QueueLists()) then LISTS
    else if s == NormSet(QueueStreams()) then STREAMS
    else if s == NormSet(QueueSortedSets()) then SORTED_SETS
    else Custom
  }

  /** The commands of a named preset: the lists are sorted once, when the program starts. */
  function PresetCommands(p: Preset): seq<string>
    requires p in {CACHE, READ_ONLY, LISTS, STREAMS, SORTED_SETS}
  {
    if p == CACHE then UniqueSorted(CacheReadWrite())
    else if p == READ_ONLY then UniqueSorted(ReadOnly())
    else if p == LISTS then UniqueSorted(QueueLists())
    else if p == STREAMS then UniqueSorted(QueueStreams())
    else UniqueSorted(QueueSortedSets())
  }

  lemma SortedHasTheSameSet(names: seq<string>)
    ensures NormSet(UniqueSorted(names)) == NormSet(names)
  {
    UniqueSortedTwice(names);
    EqualSetIsSetEquality(UniqueSorted(names), names);
  }

  /** A lower-case name without blanks is its own normal form. */
  predicate Normal(s: string) { forall i :: 0 <= i < |s| ==> 'a' <= s[i] <= 'z' }

  lemma NormalIsNorm(s: string)
    requires Normal(s)
    ensures Norm(s) == s
  {
    assert TrimSpace(s) == s;
  }

  lemma InNormSet(names: seq<string>, i: nat)
    requires i < |names| && names[i] != "" && Normal(names[i])
    ensures names[i] in NormSet(names)
  {
    NormalIsNorm(names[i]);
    assert names[i] in names;
  }

  /** Normal names, s not among them. */
  predicate Lacks(names: seq<string>, s: string) {
    forall i :: 0 <= i < |names| ==> Normal(names[i]) && names[i] != s
  }

  lemma LacksJoins(a: seq<string>, b: seq<string>, s: string)
    requires Lacks(a, s) && Lacks(b, s)
    ensures Lacks(a + b, s)
  {
    hide Normal;
  }

  lemma LacksInNormSet(names: seq<string>, s: string)
    requires Lacks(names, s)
    ensures s !in NormSet(names)
  {
    forall v | v in names ensures Norm(v) == v && v != s {
      NormalIsNorm(v);
    }
    hide Norm, Normal;
  }

  lemma ConnectionSafeLacks()
    ensures Lacks(ConnectionSafe(), "append")
    ensures Lacks(ConnectionSafe(), "get")
    ensures Lacks(ConnectionSafe(), "rpop")
    ensures Lacks(ConnectionSafe(), "xadd")
  {
  }

  lemma ReadStringsLack()
    ensures Lacks(ReadStringsAndHashes(), "append")
  {
  }

  lemma ReadCollectionsLack()
    ensures Lacks(ReadCollections(), "append")
  {
  }

  lemma ListsLack()
    ensures Lacks(ListCommands(), "append")
    ensures Lacks(ListCommands(), "get")
  {
  }

  lemma StreamsLack()
    ensures Lacks(StreamCommands(), "append")
    ensures Lacks(StreamCommands(), "get")
    ensures Lacks(StreamCommands(), "rpop")
  {
  }

  lemma SortedSetsLack()
    ensures Lacks(SortedSetCommands(), "append")
    ensures Lacks(SortedSetCommands(), "get")
    ensures Lacks(SortedSetCommands(), "rpop")
    ensures Lacks(SortedSetCommands(), "xadd")
  {
  }

  /** A name of a preset that stands at a place of its second part. */
  lemma HasName(part: seq<string>, rest: seq<string>, i: nat, s: string)
    requires i < |part| && part[i] == s && s != "" && Normal(s)
    ensures s in NormSet(ConnectionSafe() + part + rest)
  {
    hide ConnectionSafe, NormSet, Normal;
    var all := ConnectionSafe() + part + rest;
    assert all[|ConnectionSafe()| + i] == s;
    InNormSet(all, |ConnectionSafe()| + i);
  }

  lemma QueueLacks(part: seq<string>, s: string)
    requires Lacks(ConnectionSafe(), s) && Lacks(part, s)
    ensures s !in NormSet(ConnectionSafe() + part)
  {
    hide ConnectionSafe, Lacks, NormSet;
    LacksJoins(ConnectionSafe(), part, s);
    LacksInNormSet(ConnectionSafe() + part, s);
  }

  /** append is a cache command only. */
  lemma AppendTells()
    ensures "append" in NormSet(CacheReadWrite())
    ensures "append" !in NormSet(ReadOnly()) && "append" !in NormSet(QueueLists())
    ensures "append" !in NormSet(QueueStreams()) && "append" !in NormSet(QueueSortedSets())
  {
    assert CacheStrings()[18] == "append";
    ConnectionSafeLacks();
    ReadStringsLack();
    ReadCollectionsLack();
    ListsLack();
    StreamsLack();
    SortedSetsLack();
    hide ConnectionSafe, CacheStrings, CacheCollections, ReadStringsAndHashes, ReadCollections, ListCommands, StreamCommands,
      SortedSetCommands, NormSet, Lacks;
    HasName(CacheStrings(), CacheCollections(), 18, "append");
    LacksJoins(ConnectionSafe(), ReadStringsAndHashes(), "append");
    LacksJoins(ConnectionSafe() + ReadStringsAndHashes(), ReadCollections(), "append");
    LacksInNormSet(ReadOnly(), "append");
    QueueLacks(ListCommands(), "append");
    QueueLacks(StreamCommands(), "append");
    QueueLacks(SortedSetCommands(), "append");
  }

  /** get tells read-only from the queue presets. */
  lemma GetTells()
    ensures "get" in NormSet(ReadOnly()) && "get" !in NormSet(QueueLists())
    ensures "get" !in NormSet(QueueStreams()) && "get" !in NormSet(QueueSortedSets())
  {
    assert ReadStringsAndHashes()[0] == "get";
    ConnectionSafeLacks();
    ListsLack();
    StreamsLack();
    SortedSetsLack();
    hide ConnectionSafe, ReadStringsAndHashes, ReadCollections, ListCommands, StreamCommands, SortedSetCommands, NormSet, Lacks;
    HasName(ReadStringsAndHashes(), ReadCollections(), 0, "get");
    QueueLacks(ListCommands(), "get");
    QueueLacks(StreamCommands(), "get");
    QueueLacks(SortedSetCommands(), "get");
  }

  /** rpop tells lists from the other queue presets, xadd streams from sorted sets. */
  lemma QueuesDiffer()
    ensures "rpop" in NormSet(QueueLists()) && "rpop" !in NormSet(QueueStreams()) && "rpop" !in NormSet(QueueSortedSets())
    ensures "xadd" in NormSet(QueueStreams()) && "xadd" !in NormSet(QueueSortedSets())
  {
    assert ListCommands()[3] == "rpop" && StreamCommands()[0] == "xadd";
    ConnectionSafeLacks();
    StreamsLack();
    SortedSetsLack();
    hide ConnectionSafe, ListCommands, StreamCommands, SortedSetCommands, NormSet, Lacks;
    HasName(ListCommands(), [], 3, "rpop");
    HasName(StreamCommands(), [], 0, "xadd");
    assert QueueLists() + [] == QueueLists() && QueueStreams() + [] == QueueStreams();
    QueueLacks(StreamCommands(), "rpop");
    QueueLacks(SortedSetCommands(), "rpop");
    QueueLacks(SortedSetCommands(), "xadd");
  }

  /** The five presets have different command sets, so each is inferred back from its own. */
  lemma PresetIsInferred(p: Preset)
    requires p in {CACHE, READ_ONLY, LISTS, STREAMS, SORTED_SETS}
    ensures InferPreset(PresetCommands(p)) == p
  {
    hide UniqueSorted, NormSet, CacheReadWrite, ReadOnly, QueueLists, QueueStreams, QueueSortedSets;
    SortedHasTheSameSet(CacheReadWrite());
    SortedHasTheSameSet(ReadOnly());
    SortedHasTheSameSet(QueueLists());
    SortedHasTheSameSet(QueueStreams());
    SortedHasTheSameSet(QueueSortedSets());
    AppendTells();
    GetTells();
    QueuesDiffer();
  }

  // ----- names in a preset are plain words -----

  lemma CacheStringsLack() ensures Lacks(CacheStrings(), "") {}
  lemma CacheHashesLack() ensures Lacks(CacheHashesAndSets(), "") {}
  lemma CacheListsLack() ensures Lacks(CacheLists(), "") {}
  lemma CacheSortedSetsLack() ensures Lacks(CacheSortedSets(), "") {}
  lemma SafeLacksNothing() ensures Lacks(ConnectionSafe(), "") {}
  lemma ReadStringsLackNothing() ensures Lacks(ReadStringsAndHashes(), "") {}
  lemma ReadCollectionsLackNothing() ensures Lacks(ReadCollections(), "") {}
  lemma ListsLackNothing() ensures Lacks(ListCommands(), "") {}
  lemma StreamsLackNothing() ensures Lacks(StreamCommands(), "") {}
  lemma SortedSetsLackNothing() ensures Lacks(SortedSetCommands(), "") {}

  lemma CacheIsPlain()
    ensures Lacks(CacheReadWrite(), "") && |CacheReadWrite()| <= MAX_COMMANDS
  {
    SafeLacksNothing();
    CacheStringsLack();
    CacheHashesLack();
    CacheListsLack();
    CacheSortedSetsLack();
    assert |ConnectionSafe()| + |CacheStrings()| + |CacheHashesAndSets()| + |CacheLists()| + |CacheSortedSets()| <= MAX_COMMANDS;
    hide ConnectionSafe, CacheStrings, CacheHashesAndSets, CacheLists, CacheSortedSets, Lacks;
    LacksJoins(CacheHashesAndSets(), CacheLists(), "");
    LacksJoins(CacheHashesAndSets() + CacheLists(), CacheSortedSets(), "");
    LacksJoins(ConnectionSafe(), CacheStrings(), "");
    LacksJoins(ConnectionSafe() + CacheStrings(), CacheCollections(), "");
  }

  lemma ReadOnlyIsPlain()
    ensures Lacks(ReadOnly(), "") && |ReadOnly()| <= MAX_COMMANDS
  {
    SafeLacksNothing();
    ReadStringsLackNothing();
    ReadCollectionsLackNothing();
    assert |ConnectionSafe()| + |ReadStringsAndHashes()| + |ReadCollections()| <= MAX_COMMANDS;
    hide ConnectionSafe, ReadStringsAndHashes, ReadCollections, Lacks;
    LacksJoins(ConnectionSafe(), ReadStringsAndHashes(), "");
    LacksJoins(ConnectionSafe() + ReadStringsAndHashes(), ReadCollections(), "");
  }

  lemma QueuesArePlain()
    ensures Lacks(QueueLists(), "") && |QueueLists()| <= MAX_COMMANDS
    ensures Lacks(QueueStreams(), "") && |QueueStreams()| <= MAX_COMMANDS
    ensures Lacks(QueueSortedSets(), "") && |QueueSortedSets()| <= MAX_COMMANDS
  {
    SafeLacksNothing();
    ListsLackNothing();
    StreamsLackNothing();
    SortedSetsLackNothing();
    assert |ConnectionSafe()| + |ListCommands()| <= MAX_COMMANDS && |ConnectionSafe()| + |StreamCommands()| <= MAX_COMMANDS;
    assert |ConnectionSafe()| + |SortedSetCommands()| <= MAX_COMMANDS;
    hide ConnectionSafe, ListCommands, StreamCommands, SortedSetCommands, Lacks;
    LacksJoins(ConnectionSafe(), ListCommands(), "");
    LacksJoins(ConnectionSafe(), StreamCommands(), "");
    LacksJoins(ConnectionSafe(), SortedSetCommands(), "");
  }

  lemma {:induction false} NormSetIsSmall(names: seq<string>)
    ensures |NormSet(names)| <= |names|
  {
    if names == [] {
      assert NormSet(names) == {};
    } else {
      var n := |names| - 1;
      NormSetIsSmall(names[..n]);
      assert names == names[..n] + [names[n]];
      var last := if Norm(names[n]) != "" then {Norm(names[n])} else {};
      assert NormSet(names) == NormSet(names[..n]) + last;
      assert |NormSet(names[..n]) + last| <= |NormSet(names[..n])| + |last|;
    }
  }

  /** Sorting plain names gives plain names, no more than there were. */
  lemma PlainNamesSorted(names: seq<string>)
    requires Lacks(names, "")
    ensures |UniqueSorted(names)| <= |names|
    ensures forall i :: 0 <= i < |UniqueSorted(names)| ==> UniqueSorted(names)[i] != "" && Normal(UniqueSorted(names)[i])
  {
    NormSetIsSmall(names);
    hide Normal, Norm;
    forall i | 0 <= i < |UniqueSorted(names)| ensures UniqueSorted(names)[i] != "" && Normal(UniqueSorted(names)[i]) {
      assert UniqueSorted(names)[i] in UniqueSorted(names);
      var v :| v in names && Norm(v) == UniqueSorted(names)[i];
      NormalIsNorm(v);
    }
  }
}
