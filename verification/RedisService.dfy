/** The Redis service calls that change a user (redisadmin/service.go), over the in-memory
    client: what was asked for, what was written, and what is read back. */
module RedisService {
  import opened Prelude
  import opened Base64
  import opened Texts
  import opened RedisPresets
  import opened RedisAcl

  datatype Result<T> = Ok(value: T) | Err(error: RedisError)

  const PASSWORD_BYTES := 24
  const RAW_URL := Encoding(UrlSafe, false)

  // ----- what a request asks for -----

  predicate AlphaNum(c: char) { 'a' <= c <= 'z' || '0' <= c <= '9' }

  /** prefixRe. */
  predicate PrefixShape(s: string) {
    2 <= |s| <= 80 && AlphaNum(s[0]) && AlphaNum(s[|s| - 1]) &&
    forall i :: 0 <= i < |s| ==> AlphaNum(s[i]) || s[i] in {'_', ':', '-'}
  }

  function TrimSuffix(s: string, suffix: string): string {
    if |suffix| <= |s| && s[|s| - |suffix|..] == suffix then s[..|s| - |suffix|] else s
  }

  function NormalizePrefix(input: string): Option<string> {
    var trimmed := TrimSpace(input);
    var prefix := TrimSuffix(TrimSuffix(trimmed, ":*"), ":");
    if (exists i :: 0 <= i < |trimmed| && IsSpace(trimmed[i])) || !PrefixShape(prefix) then None
    else Some(prefix + ":*")
  }

  lemma NormalizedPrefixIsWord(input: string)
    requires NormalizePrefix(input).Some?
    ensures IsWord(NormalizePrefix(input).value)
  {
    var p := NormalizePrefix(input).value;
    forall i | 0 <= i < |p| ensures !IsSpace(p[i]) {
      if i < |p| - 2 { PlainChar(p[i]); }
    }
  }

  /** What follows the prefix in an input: nothing, or one of the endings that are taken off. */
  predicate Ending(tail: string) { tail in {"", ":", ":*", "::*"} }

  /** The prefix that an input asks for. */
  ghost predicate AsksFor(input: string, p: string) {
    exists tail :: Ending(tail) && Trimmed(input, p + tail)
  }

  /** A pattern asked for is a prefix of 2 to 80 letters, digits, `_`, `:` and `-`, with a
      letter or digit at both ends, followed by ":*". */
  ghost predicate PatternFor(input: string, pattern: string) {
    exists p :: PrefixShape(p) && AsksFor(input, p) && pattern == p + ":*"
  }

  lemma PrefixHasNoSpace(p: string, tail: string)
    requires PrefixShape(p) && Ending(tail)
    ensures forall i :: 0 <= i < |p + tail| ==> !IsSpace((p + tail)[i])
  {
    forall i | 0 <= i < |p + tail| ensures !IsSpace((p + tail)[i]) {
      if i < |p| { PlainChar(p[i]); }
    }
  }

  lemma EndingIsCut(p: string, tail: string)
    requires PrefixShape(p) && Ending(tail)
    ensures TrimSuffix(TrimSuffix(p + tail, ":*"), ":") == p
  {
    var s := p + tail;
    assert AlphaNum(p[|p| - 1]);
    if tail == "::*" {
      assert s == (p + ":") + ":*" && s[|s| - 2..] == ":*" && s[..|s| - 2] == p + ":";
    } else if tail == ":*" {
      assert s[|s| - 2..] == ":*" && s[..|s| - 2] == p;
      assert p[|p| - 1..] != ":";
    } else if tail == ":" {
      assert s[|s| - 2..][1] == ':' && s[|s| - 2..] != ":*";
      assert s[|s| - 1..] == ":" && s[..|s| - 1] == p;
    } else {
      assert s == p && s[|s| - 2..][1] == p[|p| - 1] && s[|s| - 2..] != ":*";
      assert p[|p| - 1..][0] == p[|p| - 1] && p[|p| - 1..] != ":";
    }
  }

  lemma SuffixIsCut(s: string, suffix: string)
    requires suffix != ""
    ensures s == TrimSuffix(s, suffix) || s == TrimSuffix(s, suffix) + suffix
  {
  }

  lemma CutHasEnding(s: string) returns (tail: string)
    ensures Ending(tail) && s == TrimSuffix(TrimSuffix(s, ":*"), ":") + tail
  {
    SuffixIsCut(s, ":*");
    SuffixIsCut(TrimSuffix(s, ":*"), ":");
    hide TrimSuffix;
    var once := TrimSuffix(s, ":*");
    var p := TrimSuffix(once, ":");
    tail := (if once == p then "" else ":") + (if s == once then "" else ":*");
    assert ":" + ":*" == "::*" && "" + ":*" == ":*" && ":" + "" == ":" && "" + "" == "";
    assert p + "" == p && once + "" == once && (p + ":") + ":*" == p + (":" + ":*");
  }

  /** NormalizePrefix answers exactly the pattern that is asked for, and refuses every other
      input: blanks inside, other characters, and prefixes of a wrong length or end. */
  lemma NormalizePrefixIff(input: string, pattern: string)
    ensures NormalizePrefix(input) == Some(pattern) <==> PatternFor(input, pattern)
  {
    var s := TrimSpace(input);
    TrimSpaceIff(input, s);
    hide TrimSpace, Trimmed, PrefixShape;
    if NormalizePrefix(input) == Some(pattern) {
      var tail := CutHasEnding(s);
      assert Ending(tail) && Trimmed(input, TrimSuffix(TrimSuffix(s, ":*"), ":") + tail);
    }
    if PatternFor(input, pattern) {
      var p :| PrefixShape(p) && AsksFor(input, p) && pattern == p + ":*";
      var tail :| Ending(tail) && Trimmed(input, p + tail);
      TrimSpaceIff(input, p + tail);
      PrefixHasNoSpace(p, tail);
      EndingIsCut(p, tail);
    }
  }

  /** No pattern is asked for. */
  ghost predicate NoPattern(input: string) { forall p :: !PatternFor(input, p) }

  lemma PatternAnswer(input: string)
    ensures if NormalizePrefix(input).None? then NoPattern(input)
            else !NoPattern(input) && PatternFor(input, NormalizePrefix(input).value)
  {
    hide NormalizePrefix, PatternFor;
    forall p ensures NormalizePrefix(input) == Some(p) <==> PatternFor(input, p) { NormalizePrefixIff(input, p); }
  }

  lemma PlainChar(c: char)
    ensures AlphaNum(c) || c in {'_', ':', '-'} ==> !IsSpace(c)
  {
  }

  /** allowedCommandNameRe. */
  predicate CommandShape(s: string) {
    s != "" && 'a' <= s[0] <= 'z' && forall i :: 0 <= i < |s| ==> AlphaNum(s[i]) || s[i] == '-'
  }

  function AllowedCommands(): set<string> {
    NormSet(PresetCommands(CACHE)) + NormSet(PresetCommands(READ_ONLY)) + NormSet(PresetCommands(LISTS)) +
    NormSet(PresetCommands(STREAMS)) + NormSet(PresetCommands(SORTED_SETS))
  }

  function ResolveCustom(commands: seq<string>): Result<seq<string>> {
    var names := UniqueSorted(commands);
    if |commands| > MAX_COMMANDS || |names| < 1 || |names| > MAX_COMMANDS then Err(InvalidCommands)
    else if exists i :: 0 <= i < |names| && (!CommandShape(names[i]) || names[i] !in AllowedCommands()) then Err(InvalidCommands)
    else Ok(names)
  }

  function ResolveNamed(preset: string, queueKind: string): Result<Preset> {
    if preset == "" then (if queueKind != "" then Err(InvalidQueueKind) else Ok(CACHE))
    else if preset == CACHE.preset then (if queueKind != "" then Err(InvalidQueueKind) else Ok(CACHE))
    else if preset == READ_ONLY.preset then (if queueKind != "" then Err(InvalidQueueKind) else Ok(READ_ONLY))
    else if preset == LISTS.preset then
      if queueKind == LISTS.queueKind then Ok(LISTS)
      else if queueKind == STREAMS.queueKind then Ok(STREAMS)
      else if queueKind == SORTED_SETS.queueKind then Ok(SORTED_SETS)
      else Err(InvalidQueueKind)
    else Err(InvalidPreset)
  }

  function ResolveUpdate(preset: string, queueKind: string, commands: seq<string>): Result<seq<string>> {
    if preset == "" then Err(InvalidPreset)
    else if preset == "custom" then (if queueKind != "" then Err(InvalidQueueKind) else ResolveCustom(commands))
    else if UniqueSorted(commands) != [] then Err(InvalidCommands)
    else
      var named := ResolveNamed(preset, queueKind);
      if named.Err? then Err(named.error) else Ok(PresetCommands(named.value))
  }

  /** A command list that an update may write. */
  predicate Grantable(cmds: seq<string>) {
    UniqueSorted(cmds) == cmds && |cmds| <= MAX_COMMANDS && forall i :: 0 <= i < |cmds| ==> CommandName(cmds[i])
  }

  lemma ShapeIsName(c: string)
    requires CommandShape(c) || (c != "" && Normal(c))
    ensures CommandName(c)
  {
    forall i | 0 <= i < |c| ensures !IsSpace(c[i]) && LowerChar(c[i]) == c[i] {
      PlainChar(c[i]);
    }
    assert TrimSpace(c) == c;
    assert Lower(c) == c;
  }

  lemma NamedIsGrantable(p: Preset)
    requires p in {CACHE, READ_ONLY, LISTS, STREAMS, SORTED_SETS}
    ensures Grantable(PresetCommands(p))
  {
    CacheIsPlain();
    ReadOnlyIsPlain();
    QueuesArePlain();
    hide CacheReadWrite, ReadOnly, QueueLists, QueueStreams, QueueSortedSets, Lacks, UniqueSorted, CommandName;
    var raw := if p == CACHE then CacheReadWrite() else if p == READ_ONLY then ReadOnly()
               else if p == LISTS then QueueLists() else if p == STREAMS then QueueStreams() else QueueSortedSets();
    assert PresetCommands(p) == UniqueSorted(raw);
    PlainNamesSorted(raw);
    UniqueSortedTwice(raw);
    forall i | 0 <= i < |PresetCommands(p)| ensures CommandName(PresetCommands(p)[i]) {
      ShapeIsName(PresetCommands(p)[i]);
    }
  }

  lemma ResolvedIsGrantable(preset: string, queueKind: string, commands: seq<string>)
    requires ResolveUpdate(preset, queueKind, commands).Ok?
    ensures Grantable(ResolveUpdate(preset, queueKind, commands).value)
  {
    hide UniqueSorted, ResolveCustom, PresetCommands, Grantable, ResolveNamed;
    if preset == "custom" {
      CustomIsGrantable(commands);
    } else {
      NamedPresets(preset, queueKind);
      NamedIsGrantable(ResolveNamed(preset, queueKind).value);
    }
  }

  lemma NamedPresets(preset: string, queueKind: string)
    requires ResolveNamed(preset, queueKind).Ok?
    ensures ResolveNamed(preset, queueKind).value in {CACHE, READ_ONLY, LISTS, STREAMS, SORTED_SETS}
  {
  }

  lemma CustomIsGrantable(commands: seq<string>)
    requires ResolveCustom(commands).Ok?
    ensures Grantable(ResolveCustom(commands).value)
  {
    hide UniqueSorted, CommandName, AllowedCommands, CommandShape;
    var cmds := ResolveCustom(commands).value;
    UniqueSortedTwice(commands);
    forall i | 0 <= i < |cmds| ensures CommandName(cmds[i]) {
      ShapeIsName(cmds[i]);
    }
  }

  // ----- protected users -----

  /** The same character, or one letter in its two cases. */
  predicate SameLetter(a: char, b: char) {
    a == b || ('A' <= a <= 'Z' && b as int == a as int + 32) || ('A' <= b <= 'Z' && a as int == b as int + 32)
  }

  predicate SameLetters(a: string, b: string) {
    |a| == |b| && forall i :: 0 <= i < |a| ==> SameLetter(a[i], b[i])
  }

  predicate NoUpper(s: string) { forall i :: 0 <= i < |s| ==> !('A' <= s[i] <= 'Z') }

  lemma LowerIff(s: string, t: string)
    ensures Lower(s) == t <==> SameLetters(s, t) && NoUpper(t)
  {
  }

  /** The three built-in names and the configured admin, however they are capitalised. */
  predicate IsProtected(name: string, admin: string) {
    SameLetters(name, "default") || SameLetters(name, "admin") || SameLetters(name, "redact_admin") ||
    (admin != "" && SameLetters(name, admin))
  }

  lemma SameLowerChar(a: char, b: char)
    ensures SameLetter(a, b) <==> LowerChar(a) == LowerChar(b)
  {
  }

  lemma SameLettersIsSameLower(a: string, b: string)
    ensures SameLetters(a, b) <==> Lower(a) == Lower(b)
  {
    hide SameLetter, LowerChar;
    if |a| == |b| {
      forall i | 0 <= i < |a| ensures SameLetter(a[i], b[i]) <==> Lower(a)[i] == Lower(b)[i] { SameLowerChar(a[i], b[i]); }
    }
  }

  lemma ProtectedIff(name: string, admin: string)
    ensures Protected(name, admin) <==> IsProtected(name, admin)
  {
    SameLettersIsSameLower(name, "default");
    SameLettersIsSameLower(name, "admin");
    SameLettersIsSameLower(name, "redact_admin");
    SameLettersIsSameLower(name, admin);
    assert Lower("default") == "default" && Lower("admin") == "admin" && Lower("redact_admin") == "redact_admin";
    hide SameLetters, Lower;
  }

  // ----- which requests name which commands -----

  /** The commands of a named preset, in no particular order. */
  function NamedCommands(preset: string, queueKind: string): Option<seq<string>> {
    if preset == "cache-read-write" && queueKind == "" then Some(CacheReadWrite())
    else if preset == "read-only" && queueKind == "" then Some(ReadOnly())
    else if preset == "queue-worker" && queueKind == "lists" then Some(QueueLists())
    else if preset == "queue-worker" && queueKind == "streams" then Some(QueueStreams())
    else if preset == "queue-worker" && queueKind == "sorted-sets" then Some(QueueSortedSets())
    else None
  }

  /** A command of one of the presets. */
  predicate Offered(c: string) {
    c in CacheReadWrite() || c in ReadOnly() || c in QueueLists() || c in QueueStreams() || c in QueueSortedSets()
  }

  /** The names that a request writes, blanks and upper case aside. */
  ghost predicate Wanted(commands: seq<string>, c: string) {
    c != "" && NoUpper(c) && exists v :: v in commands && Writes(v, c)
  }

  /** With blanks around it, in whatever case. */
  ghost predicate Writes(v: string, c: string) {
    exists name :: Trimmed(v, name) && SameLetters(name, c)
  }

  lemma WritesIff(v: string, c: string)
    ensures Norm(v) == c <==> Writes(v, c) && NoUpper(c)
  {
    hide TrimSpace, Trimmed, SameLetters, NoUpper, Lower;
    TrimSpaceIff(v, TrimSpace(v));
    LowerIff(TrimSpace(v), c);
    if Writes(v, c) {
      var name :| Trimmed(v, name) && SameLetters(name, c);
      TrimSpaceIff(v, name);
    }
  }

  /** The requests that name the commands cmds. */
  ghost predicate Requests(preset: string, queueKind: string, commands: seq<string>, cmds: seq<string>) {
    Ascends(cmds) && preset != "" &&
    if preset == "custom" then
      queueKind == "" && 1 <= |cmds| && |commands| <= 256 && |cmds| <= 256 &&
      (forall c :: c in cmds <==> Wanted(commands, c)) && forall c :: c in cmds ==> Offered(c) && CommandShape(c)
    else
      (forall c :: !Wanted(commands, c)) && NamedCommands(preset, queueKind).Some? &&
      forall c :: c in cmds <==> c in NamedCommands(preset, queueKind).value
  }

  lemma WantedIsNormSet(commands: seq<string>)
    ensures forall c :: c in NormSet(commands) <==> Wanted(commands, c)
    ensures forall c :: c in UniqueSorted(commands) <==> Wanted(commands, c)
    ensures UniqueSorted(commands) == [] <==> forall c :: !Wanted(commands, c)
  {
    hide Norm, Writes, NoUpper;
    forall c ensures c in NormSet(commands) <==> Wanted(commands, c) {
      if c in NormSet(commands) {
        var v :| v in commands && Norm(v) == c && c != "";
        WritesIff(v, c);
      }
      if Wanted(commands, c) {
        var v :| v in commands && Writes(v, c);
        WritesIff(v, c);
      }
    }
    if UniqueSorted(commands) != [] { assert UniqueSorted(commands)[0] in UniqueSorted(commands); }
  }

  /** A preset's commands are the names of its list. */
  lemma PresetNames(raw: seq<string>)
    requires Lacks(raw, "")
    ensures forall c :: c in UniqueSorted(raw) <==> c in raw
    ensures forall c :: c in NormSet(UniqueSorted(raw)) <==> c in raw
  {
    hide Normal, Norm;
    forall v | v in raw ensures Norm(v) == v && v != "" { NormalIsNorm(v); }
    SortedHasTheSameSet(raw);
    forall c ensures c in NormSet(raw) <==> c in raw {
      if c in NormSet(raw) { var v :| v in raw && Norm(v) == c; }
    }
    assert forall c :: c in UniqueSorted(raw) <==> c in NormSet(raw);
  }

  lemma EveryPresetsNames()
    ensures forall c :: c in PresetCommands(CACHE) <==> c in CacheReadWrite()
    ensures forall c :: c in PresetCommands(READ_ONLY) <==> c in ReadOnly()
    ensures forall c :: c in PresetCommands(LISTS) <==> c in QueueLists()
    ensures forall c :: c in PresetCommands(STREAMS) <==> c in QueueStreams()
    ensures forall c :: c in PresetCommands(SORTED_SETS) <==> c in QueueSortedSets()
    ensures forall c :: c in AllowedCommands() <==> Offered(c)
  {
    hide UniqueSorted, NormSet, CacheReadWrite, ReadOnly, QueueLists, QueueStreams, QueueSortedSets, Lacks;
    CacheIsPlain();
    ReadOnlyIsPlain();
    QueuesArePlain();
    PresetNames(CacheReadWrite());
    PresetNames(ReadOnly());
    PresetNames(QueueLists());
    PresetNames(QueueStreams());
    PresetNames(QueueSortedSets());
  }

  /** The list of commands that ResolveUpdate answers is the one that is requested, and every
      request without one is refused. */
  lemma ResolveUpdateIff(preset: string, queueKind: string, commands: seq<string>, cmds: seq<string>)
    ensures ResolveUpdate(preset, queueKind, commands) == Ok(cmds) <==> Requests(preset, queueKind, commands, cmds)
  {
    hide ResolveCustom, ResolveNamed, NormSet, PresetCommands, NamedCommands, Offered, Ascends;
    if preset == "custom" {
      if queueKind == "" { CustomIff(commands, cmds); }
    } else if preset != "" {
      NamedIff(preset, queueKind, cmds);
      WantedIsNormSet(commands);
    }
    hide UniqueSorted, Wanted, CommandShape;
  }

  /** A list in ascending order is the sorted list of the names it holds. */
  lemma AscendingNames(commands: seq<string>, cmds: seq<string>)
    ensures cmds == UniqueSorted(commands) <==> Ascends(cmds) && forall c :: c in cmds <==> Wanted(commands, c)
  {
    WantedIsNormSet(commands);
    hide Wanted;
    if Ascends(cmds) && forall c :: c in cmds <==> Wanted(commands, c) {
      AscendingIsUnique(cmds, UniqueSorted(commands));
    }
  }

  lemma CustomIff(commands: seq<string>, cmds: seq<string>)
    ensures ResolveCustom(commands) == Ok(cmds) <==> Requests("custom", "", commands, cmds)
  {
    hide Offered, AllowedCommands, Wanted, CommandShape, UniqueSorted, Ascends, NamedCommands;
    AscendingNames(commands, cmds);
    EveryPresetsNames();
    var names := UniqueSorted(commands);
    assert (forall c :: c in names ==> Offered(c) && CommandShape(c)) <==>
           !exists i :: 0 <= i < |names| && (!CommandShape(names[i]) || names[i] !in AllowedCommands()) by {
      if exists i :: 0 <= i < |names| && (!CommandShape(names[i]) || names[i] !in AllowedCommands()) {
        var i :| 0 <= i < |names| && (!CommandShape(names[i]) || names[i] !in AllowedCommands());
        assert names[i] in names;
      }
    }
  }

  /** The preset that a name and a queue kind stand for. */
  lemma ResolvedNamed(preset: string, queueKind: string)
    requires preset != ""
    ensures var r, raw := ResolveNamed(preset, queueKind), NamedCommands(preset, queueKind);
            (r.Ok? <==> raw.Some?) &&
            (r.Ok? ==> r.value in {CACHE, READ_ONLY, LISTS, STREAMS, SORTED_SETS} &&
                       forall c :: c in PresetCommands(r.value) <==> c in raw.value)
  {
    EveryPresetsNames();
    hide PresetCommands, CacheReadWrite, ReadOnly, QueueLists, QueueStreams, QueueSortedSets, Offered, AllowedCommands;
  }

  lemma PresetsAscend(p: Preset)
    requires p in {CACHE, READ_ONLY, LISTS, STREAMS, SORTED_SETS}
    ensures Ascends(PresetCommands(p))
  {
    hide CacheReadWrite, ReadOnly, QueueLists, QueueStreams, QueueSortedSets, Ascends, NormSet;
  }

  lemma NamedIff(preset: string, queueKind: string, cmds: seq<string>)
    requires preset != "" && preset != "custom"
    ensures var r := ResolveNamed(preset, queueKind);
            (r.Ok? ==> r.value in {CACHE, READ_ONLY, LISTS, STREAMS, SORTED_SETS}) &&
            ((r.Ok? && cmds == PresetCommands(r.value)) <==>
             (Ascends(cmds) && NamedCommands(preset, queueKind).Some? &&
              forall c :: c in cmds <==> c in NamedCommands(preset, queueKind).value))
  {
    hide ResolveNamed, NamedCommands, PresetCommands, Ascends;
    ResolvedNamed(preset, queueKind);
    var r := ResolveNamed(preset, queueKind);
    if r.Ok? {
      PresetsAscend(r.value);
      if Ascends(cmds) && forall c :: c in cmds <==> c in NamedCommands(preset, queueKind).value {
        AscendingIsUnique(cmds, PresetCommands(r.value));
      }
    }
  }

  lemma NamesOfList(raw: seq<string>)
    requires Lacks(raw, "")
    ensures forall c :: c in NormSet(raw) <==> c in raw
  {
    PresetNames(raw);
    SortedHasTheSameSet(raw);
    hide NormSet, UniqueSorted;
  }

  /** The preset that is read back is the named one exactly when the commands are its own. */
  lemma InferPresetIff(cmds: seq<string>, preset: string, queueKind: string)
    requires NamedCommands(preset, queueKind).Some?
    ensures InferPreset(cmds) == Named(preset, queueKind) <==>
            forall c :: Wanted(cmds, c) <==> c in NamedCommands(preset, queueKind).value
  {
    hide NormSet, UniqueSorted, CacheReadWrite, ReadOnly, QueueLists, QueueStreams, QueueSortedSets, Lacks, Wanted;
    CacheIsPlain();
    ReadOnlyIsPlain();
    QueuesArePlain();
    NamesOfList(CacheReadWrite());
    NamesOfList(ReadOnly());
    NamesOfList(QueueLists());
    NamesOfList(QueueStreams());
    NamesOfList(QueueSortedSets());
    WantedIsNormSet(cmds);
    var p := Named(preset, queueKind);
    var raw := NamedCommands(preset, queueKind).value;
    SortedHasTheSameSet(raw);
    PresetIsInferred(p);
    hide NamedCommands;
    if forall c :: Wanted(cmds, c) <==> c in raw {
      assert NormSet(cmds) == NormSet(raw);
    }
  }

  /** The error of a request without commands. */
  lemma ResolveUpdateError(preset: string, queueKind: string, commands: seq<string>)
    ensures var r := ResolveUpdate(preset, queueKind, commands);
            r.Err? ==>
              r.error == (if preset == "" then InvalidPreset
                          else if preset == "custom" then (if queueKind != "" then InvalidQueueKind else InvalidCommands)
                          else if exists c :: Wanted(commands, c) then InvalidCommands
                          else if preset in {"cache-read-write", "read-only", "queue-worker"} then InvalidQueueKind
                          else InvalidPreset)
  {
    WantedIsNormSet(commands);
    hide UniqueSorted, Wanted, PresetCommands, AllowedCommands;
  }

  // ----- reading users back -----

  /** GetUser over lines in which no two belong to one user. */
  function UserIn(lines: seq<string>, name: string, admin: string): Option<User> {
    var k := FirstFrom(lines, name, 0);
    if k < |lines| then Parse(lines[k], admin) else None
  }

  lemma ParsedName(line: string, name: string, admin: string)
    ensures Names(line, name) <==> Parse(line, admin).Some? && Parse(line, admin).value.username == name
  {
    hide Words, ReadAll, UniqueSorted, InferPreset, Protected;
  }

  /** The users of all lines, in the order of the lines. */
  function Parsed(lines: seq<string>, admin: string): seq<User> {
    if lines == [] then []
    else
      var u := Parse(lines[|lines| - 1], admin);
      Parsed(lines[..|lines| - 1], admin) + if u.Some? then [u.value] else []
  }

  function FindUser(users: seq<User>, name: string): Option<User> {
    if users == [] then None
    else
      var before, last := FindUser(users[..|users| - 1], name), users[|users| - 1];
      if before.Some? then before else if last.username == name then Some(last) else None
  }

  lemma FirstOfFront(lines: seq<string>, name: string)
    requires lines != []
    ensures var front := lines[..|lines| - 1];
            FirstFrom(lines, name, 0) ==
            if FirstFrom(front, name, 0) < |front| then FirstFrom(front, name, 0)
            else if Names(lines[|lines| - 1], name) then |front| else |lines|
  {
    hide Names;
    var front := lines[..|lines| - 1];
    assert forall i :: 0 <= i < |front| ==> front[i] == lines[i];
    var k := FirstFrom(lines, name, 0);
    var m := FirstFrom(front, name, 0);
    if m < |front| { assert Names(lines[m], name); }
    if k < |front| { assert Names(front[k], name); }
  }

  /** The first parsed user of a name is that of the name's first line. */
  lemma {:induction false} FindParsed(lines: seq<string>, name: string, admin: string)
    ensures FindUser(Parsed(lines, admin), name) == UserIn(lines, name, admin)
  {
    hide Parse, Names, FirstFrom;
    if lines != [] {
      var front, last := lines[..|lines| - 1], lines[|lines| - 1];
      FindParsed(front, name, admin);
      FirstOfFront(lines, name);
      ParsedName(last, name, admin);
      var users := Parsed(front, admin);
      if Parse(last, admin).Some? {
        assert (users + [Parse(last, admin).value])[..|users|] == users;
        ParsedNameOfFirst(front, name, admin);
      } else {
        assert Parsed(lines, admin) == users;
        ParsedNameOfFirst(front, name, admin);
      }
    }
  }

  lemma {:induction false} FoundStays(users: seq<User>, name: string, n: nat)
    requires n <= |users| && FindUser(users[..n], name).Some?
    ensures FindUser(users, name) == FindUser(users[..n], name)
    decreases |users| - n
  {
    if n < |users| {
      assert users[..n + 1][..n] == users[..n];
      FoundStays(users, name, n + 1);
    } else {
      assert users[..n] == users;
    }
  }

  lemma ParsedNameOfFirst(lines: seq<string>, name: string, admin: string)
    ensures UserIn(lines, name, admin).Some? <==> FirstFrom(lines, name, 0) < |lines|
  {
    hide Parse, Names;
    var k := FirstFrom(lines, name, 0);
    if k < |lines| { ParsedName(lines[k], name, admin); }
  }

  /** The fields behind the name in the user's first line. */
  function FieldsOf(lines: seq<string>, name: string): seq<string> {
    var k := FirstFrom(lines, name, 0);
    if k < |lines| then Words(lines[k])[2..] else []
  }

  class Service {
    const client: MemoryClient
    const admin: string

    constructor (client: MemoryClient, admin: string)
      ensures this.client == client && this.admin == admin
    {
      this.client, this.admin := client, admin;
    }

    /** loadUsers, without its sort by name. */
    method LoadUsers() returns (r: Result<seq<User>>)
      ensures r == if client.listError.Some? then Err(client.listError.value) else Ok(Parsed(client.lines, admin))
    {
      hide Parse;
      if client.listError.Some? { return Err(client.listError.value); }
      var users: seq<User> := [];
      for i := 0 to |client.lines|
        invariant users == Parsed(client.lines[..i], admin)
      {
        assert client.lines[..i + 1][..i] == client.lines[..i];
        var u := ParseLine(client.lines[i], admin);
        if u.Some? { users := users + [u.value]; }
      }
      assert client.lines[..|client.lines|] == client.lines;
      return Ok(users);
    }

    method GetUser(name: string) returns (r: Result<User>)
      ensures client.listError.Some? ==> r == Err(client.listError.value)
      ensures client.listError.None? ==>
                r == match UserIn(client.lines, name, admin) case Some(u) => Ok(u) case None => Err(NotFound)
    {
      hide Parse, FirstFrom, Names, UserIn;
      var users := LoadUsers();
      if users.Err? { return Err(users.error); }
      FindParsed(client.lines, name, admin);
      for i := 0 to |users.value|
        invariant FindUser(users.value[..i], name).None?
      {
        assert users.value[..i + 1][..i] == users.value[..i];
        if users.value[i].username == name {
          FoundStays(users.value, name, i + 1);
          return Ok(users.value[i]);
        }
      }
      assert users.value[..|users.value|] == users.value;
      return Err(NotFound);
    }

    /** On success the user read back has exactly the pattern and the commands that were
        asked for, under the flag and with the passwords the line had. */
    method UpdatePermissions(name: string, keyPattern: string, preset: string, queueKind: string, commands: seq<string>)
      returns (r: Result<User>)
      modifies client`lines
      ensures var asked := ResolveUpdate(preset, queueKind, commands);
              var user := UserIn(old(client.lines), name, admin);
              if asked.Err? then r == Err(asked.error) && client.lines == old(client.lines)
              else if IsProtected(name, admin) then r == Err(ProtectedUser) && client.lines == old(client.lines)
              else if client.listError.Some? then r == Err(client.listError.value) && client.lines == old(client.lines)
              else if user.None? then r == Err(NotFound) && client.lines == old(client.lines)
              else if NoPattern(keyPattern) then r == Err(InvalidPrefix) && client.lines == old(client.lines)
              else if client.setError.Some? then r == Err(client.setError.value) && client.lines == old(client.lines)
              else
                OnlyChanges(old(client.lines), client.lines, name) && r.Ok? &&
                PatternFor(keyPattern, r.value.keyPattern) && Requests(preset, queueKind, commands, r.value.commands) &&
                r.value == User(name, FirstOn(FieldsOf(old(client.lines), name)), r.value.keyPattern,
                                InferPreset(r.value.commands), false, r.value.commands, [], false) &&
                Where(FieldsOf(client.lines, name), Password) == Where(FieldsOf(old(client.lines), name), Password)
    {
      hide Where, FieldsOf, IsProtected, ResolveUpdate, Parse, FirstFrom, NormalizePrefix, InferPreset, Protected, FirstOn, Words, IsWord, SetUser, PatternFor, Requests, NoPattern, OnlyChanges, Grantable, BuildRules;
      ProtectedIff(name, admin);
      PatternAnswer(keyPattern);
      var cmds := ResolveUpdate(preset, queueKind, commands);
      if cmds.Err? { return Err(cmds.error); }
      ResolveUpdateIff(preset, queueKind, commands, cmds.value);
      if Protected(name, admin) { return Err(ProtectedUser); }
      var before := GetUser(name);
      if before.Err? { return before; }
      var pattern := NormalizePrefix(keyPattern);
      if pattern.None? { return Err(InvalidPrefix); }
      ResolvedIsGrantable(preset, queueKind, commands);
      NormalizedPrefixIsWord(keyPattern);
      ghost var lines := client.lines;
      var err := client.ACLSetUser(name, BuildRules(pattern.value, cmds.value));
      if err.Some? { return Err(err.value); }
      UpdatedLines(lines, name, admin, pattern.value, cmds.value);
      r := GetUser(name);
    }

    /** On success only the enabled bit of the user has changed, and of its line only flags. */
    method SetEnabled(name: string, enabled: bool) returns (r: Result<User>)
      modifies client`lines
      ensures var user := UserIn(old(client.lines), name, admin);
              if IsProtected(name, admin) then r == Err(ProtectedUser) && client.lines == old(client.lines)
              else if client.listError.Some? then r == Err(client.listError.value) && client.lines == old(client.lines)
              else if user.None? then r == Err(NotFound) && client.lines == old(client.lines)
              else if client.setError.Some? then r == Err(client.setError.value) && client.lines == old(client.lines)
              else
                OnlyChanges(old(client.lines), client.lines, name) && r == Ok(user.value.(enabled := enabled)) &&
                Where(FieldsOf(client.lines, name), NoFlag) == Where(FieldsOf(old(client.lines), name), NoFlag)
    {
      hide Where, FieldsOf, IsProtected, Parse, FirstFrom, Protected, Words, SetUser;
      ProtectedIff(name, admin);
      if Protected(name, admin) { return Err(ProtectedUser); }
      var before := GetUser(name);
      if before.Err? { return before; }
      ghost var lines := client.lines;
      var flag := if enabled then "on" else "off";
      var err := client.ACLSetUser(name, [flag]);
      if err.Some? { return Err(err.value); }
      FlaggedLines(lines, name, admin, flag);
      r := GetUser(name);
    }

    /** On success the parsed user is the same as before, and the new password is the only one
        in its line. */
    method RotateUser(name: string, random: Option<seq<byte>>) returns (r: Result<(User, string)>)
      requires random.Some? ==> |random.value| == PASSWORD_BYTES
      modifies client`lines
      ensures var user := UserIn(old(client.lines), name, admin);
              if IsProtected(name, admin) then r == Err(ProtectedUser) && client.lines == old(client.lines)
              else if client.listError.Some? then r == Err(client.listError.value) && client.lines == old(client.lines)
              else if user.None? then r == Err(NotFound) && client.lines == old(client.lines)
              else if random.None? then r == Err(Unavailable) && client.lines == old(client.lines)
              else if client.setError.Some? then r == Err(client.setError.value) && client.lines == old(client.lines)
              else
                OnlyChanges(old(client.lines), client.lines, name) && r == Ok((user.value, Encode(RAW_URL, random.value))) &&
                Where(FieldsOf(client.lines, name), NoPassword) == Where(FieldsOf(old(client.lines), name), NoPassword) &&
                Where(FieldsOf(client.lines, name), Password) == [">" + r.value.1]
    {
      hide Where, FieldsOf, IsProtected, Parse, FirstFrom, Protected, Words, SetUser, Encode;
      ProtectedIff(name, admin);
      if Protected(name, admin) { return Err(ProtectedUser); }
      var before := GetUser(name);
      if before.Err? { return Err(before.error); }
      if random.None? { return Err(Unavailable); }
      ghost var lines := client.lines;
      var password := Encode(RAW_URL, random.value);
      var err := client.ACLSetUser(name, ["resetpass", ">" + password]);
      if err.Some? { return Err(err.value); }
      PasswordLines(lines, name, admin, random.value);
      var after := GetUser(name);
      r := match after case Ok(user) => Ok((user, password)) case Err(e) => Err(e);
    }
  }

  // ----- the written lines -----

  /** The line of one user is replaced, and every other line stays where it is. */
  predicate OnlyChanges(before: seq<string>, after: seq<string>, name: string) {
    var k := FirstFrom(before, name, 0);
    |after| == |before| && forall i :: 0 <= i < |before| && i != k ==> after[i] == before[i]
  }

  /** Other users read as before. */
  lemma OthersReadAsBefore(before: seq<string>, after: seq<string>, name: string, other: string, admin: string)
    requires OnlyChanges(before, after, name) && other != name
    requires FirstFrom(before, name, 0) < |before| ==> Names(after[FirstFrom(before, name, 0)], name)
    ensures UserIn(after, other, admin) == UserIn(before, other, admin)
  {
    hide Parse, Words;
    SameFirst(before, after, other, 0);
  }

  lemma {:induction false} SameFirst(before: seq<string>, after: seq<string>, name: string, i: nat)
    requires |after| == |before| && i <= |before|
    requires forall j :: 0 <= j < |before| ==> (Names(after[j], name) <==> Names(before[j], name))
    ensures FirstFrom(after, name, i) == FirstFrom(before, name, i)
    decreases |before| - i
  {
    hide Names;
    if i < |before| && !Names(before[i], name) { SameFirst(before, after, name, i + 1); }
  }

  /** The line of the user at its place, after a line for the user was put there. */
  lemma ReplacedLine(before: seq<string>, after: seq<string>, name: string, k: nat, line: string)
    requires k == FirstFrom(before, name, 0) < |before| && after == before[k := line] && Names(line, name)
    ensures FirstFrom(after, name, 0) == k && OnlyChanges(before, after, name)
  {
    hide Names;
    forall i | 0 <= i < k ensures !Names(after[i], name) {
      assert after[i] == before[i];
    }
    assert Names(after[k], name);
  }

  lemma WrittenLineNames(name: string, fields: seq<string>)
    requires IsWord(name) && forall i :: 0 <= i < |fields| ==> IsWord(fields[i])
    ensures Names(LineOf(name, fields), name)
  {
    WrittenLineIsRead(name, fields);
    hide Words, LineOf;
    assert (["user", name] + fields)[0] == "user" && (["user", name] + fields)[1] == name;
  }

  lemma WrittenFields(before: seq<string>, name: string, fields: seq<string>)
    requires FirstFrom(before, name, 0) < |before| && IsWord(name) && forall i :: 0 <= i < |fields| ==> IsWord(fields[i])
    ensures FieldsOf(before[FirstFrom(before, name, 0) := LineOf(name, fields)], name) == fields
  {
    var k := FirstFrom(before, name, 0);
    WrittenLineIsRead(name, fields);
    WrittenLineNames(name, fields);
    ReplacedLine(before, before[k := LineOf(name, fields)], name, k, LineOf(name, fields));
    hide Words, LineOf, FirstFrom;
    assert (["user", name] + fields)[2..] == fields;
  }

  lemma UpdatedLines(lines: seq<string>, name: string, admin: string, pattern: string, cmds: seq<string>)
    requires FirstFrom(lines, name, 0) < |lines| && IsWord(pattern) && Grantable(cmds)
    ensures var k := FirstFrom(lines, name, 0);
            var after := SetUser(lines, name, BuildRules(pattern, cmds));
            OnlyChanges(lines, after, name) &&
            UserIn(after, name, admin) ==
              Some(User(name, FirstOn(FieldsOf(lines, name)), pattern, InferPreset(cmds), false, cmds, [], Protected(name, admin))) &&
            Where(FieldsOf(after, name), Password) == Where(FieldsOf(lines, name), Password)
  {
    hide Parse, FirstFrom, Words, LineOf, IsWord, CommandName, UniqueSorted, InferPreset, Protected, FirstOn, UpdateOf,
      BuildRules, GrantFields, Adding, Where;
    var k := FirstFrom(lines, name, 0);
    var rest := Words(lines[k])[2..];
    PatternIsNotEmpty(pattern);
    UpdateIsRecognized(pattern, cmds);
    UpdateGivesWhatWasAsked(lines[k], name, admin, pattern, cmds);
    NamedWords(lines[k], name);
    GrantFieldsAreWords(rest, pattern, cmds);
    var line := LineOf(name, GrantFields(rest, "~" + pattern, Adding(cmds)));
    WrittenLineNames(name, GrantFields(rest, "~" + pattern, Adding(cmds)));
    WrittenFields(lines, name, GrantFields(rest, "~" + pattern, Adding(cmds)));
    GrantEdit(rest, pattern, cmds);
    ReplacedLine(lines, lines[k := line], name, k, line);
  }

  lemma PatternIsNotEmpty(pattern: string)
    requires IsWord(pattern)
    ensures pattern != ""
  {
  }

  lemma FlagFieldsAreWords(rest: seq<string>, flag: string)
    requires Flag(flag) && forall i :: 0 <= i < |rest| ==> IsWord(rest[i])
    ensures forall i :: 0 <= i < |FlagFields(rest, flag)| ==> IsWord(FlagFields(rest, flag)[i])
  {
    FlagIsWord(flag);
    FlaggedAreWords(rest, flag);
    hide Flag, IsWord, WithFlag, AnyFlag;
  }

  lemma FlaggedLines(lines: seq<string>, name: string, admin: string, flag: string)
    requires FirstFrom(lines, name, 0) < |lines| && Flag(flag)
    ensures var after := SetUser(lines, name, [flag]);
            OnlyChanges(lines, after, name) && UserIn(lines, name, admin).Some? &&
            UserIn(after, name, admin) == Some(UserIn(lines, name, admin).value.(enabled := flag == "on")) &&
            Where(FieldsOf(after, name), NoFlag) == Where(FieldsOf(lines, name), NoFlag)
  {
    assert UpdateOf([flag]) == SetFlag(flag);
    assert flag == "on" || flag == "off";
    hide Parse, FirstFrom, Words, LineOf, IsWord, UpdateOf, Flag, FlagFields, OnlyChanges, Where;
    var k := FirstFrom(lines, name, 0);
    var rest := Words(lines[k])[2..];
    SetEnabledChangesOnlyEnabled(lines[k], name, admin, flag);
    NamedWords(lines[k], name);
    FlagFieldsAreWords(rest, flag);
    var line := LineOf(name, FlagFields(rest, flag));
    WrittenLineNames(name, FlagFields(rest, flag));
    WrittenFields(lines, name, FlagFields(rest, flag));
    FlagEdit(rest, flag);
    ReplacedLine(lines, lines[k := line], name, k, line);
  }

  lemma PasswordIsWord(random: seq<byte>)
    requires |random| == PASSWORD_BYTES
    ensures var p := ">" + Encode(RAW_URL, random); IsWord(p) && |p| > 1 && Starts(p, '>')
  {
    EncodedText(RAW_URL, random);
    hide Encode;
    var p := ">" + Encode(RAW_URL, random);
    forall i | 0 <= i < |p| ensures !IsSpace(p[i]) {
      if i > 0 {
        assert Written(RAW_URL, Encode(RAW_URL, random)[i - 1]);
        DigitIsNoSpace(p[i]);
      }
    }
  }

  lemma DigitIsNoSpace(c: char)
    ensures Value(UrlSafe, c).Some? ==> !IsSpace(c)
  {
  }

  lemma PasswordFieldsAreWords(rest: seq<string>, password: string)
    requires IsWord(password) && forall i :: 0 <= i < |rest| ==> IsWord(rest[i])
    ensures forall i :: 0 <= i < |PasswordFields(rest, password)| ==> IsWord(PasswordFields(rest, password)[i])
  {
    hide IsWord, WithoutSecrets, Read, ReadAll;
    SecretsAreNotRead(rest);
    var out := PasswordFields(rest, password);
    forall i | 0 <= i < |out| ensures IsWord(out[i]) {
      if i < |out| - 1 { assert WithoutSecrets(rest)[i] in rest; }
    }
  }

  lemma PasswordIsTaken(p: string)
    requires Starts(p, '>') && |p| > 1
    ensures UpdateOf(["resetpass", p]) == SetPassword(p) && Password(p)
  {
  }

  /** The user's line with its new password. */
  lemma PasswordLine(lines: seq<string>, name: string, admin: string, p: string)
    requires FirstFrom(lines, name, 0) < |lines| && IsWord(p) && Starts(p, '>') && Password(p)
    ensures var k := FirstFrom(lines, name, 0);
            var after := lines[k := LineOf(name, PasswordFields(FieldsOf(lines, name), p))];
            OnlyChanges(lines, after, name) && UserIn(after, name, admin) == UserIn(lines, name, admin) &&
            Where(FieldsOf(after, name), NoPassword) == Where(FieldsOf(lines, name), NoPassword) &&
            Where(FieldsOf(after, name), Password) == [p]
  {
    hide Parse, FirstFrom, Words, LineOf, IsWord, WithoutSecrets, Starts, Where, Password, PasswordFields, OnlyChanges;
    var k := FirstFrom(lines, name, 0);
    var rest := Words(lines[k])[2..];
    RotateChangesNothing(lines[k], name, admin, p);
    NamedWords(lines[k], name);
    var out := PasswordFields(rest, p);
    PasswordFieldsAreWords(rest, p);
    WrittenLineNames(name, out);
    WrittenFields(lines, name, out);
    PasswordEdit(rest, p);
    ReplacedLine(lines, lines[k := LineOf(name, out)], name, k, LineOf(name, out));
  }

  lemma PasswordLines(lines: seq<string>, name: string, admin: string, random: seq<byte>)
    requires FirstFrom(lines, name, 0) < |lines| && |random| == PASSWORD_BYTES
    ensures var after := SetUser(lines, name, ["resetpass", ">" + Encode(RAW_URL, random)]);
            OnlyChanges(lines, after, name) && UserIn(after, name, admin) == UserIn(lines, name, admin) &&
            Where(FieldsOf(after, name), NoPassword) == Where(FieldsOf(lines, name), NoPassword) &&
            Where(FieldsOf(after, name), Password) == [">" + Encode(RAW_URL, random)]
  {
    hide Encode, UpdateOf, FirstFrom, Words, LineOf, PasswordFields, Where, OnlyChanges, UserIn, IsWord;
    PasswordIsWord(random);
    var p := ">" + Encode(RAW_URL, random);
    PasswordIsTaken(p);
    PasswordLine(lines, name, admin, p);
  }

  /** A named preset that was asked for is the preset that is read back. */
  lemma AskedPresetIsReadBack(preset: string, queueKind: string, commands: seq<string>)
    requires preset != "custom" && ResolveUpdate(preset, queueKind, commands).Ok?
    ensures InferPreset(ResolveUpdate(preset, queueKind, commands).value) == Named(preset, queueKind)
  {
    hide PresetCommands, InferPreset, UniqueSorted;
    PresetIsInferred(ResolveNamed(preset, queueKind).value);
  }
}
