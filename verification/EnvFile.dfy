/** The rewriters of the server's env file (config/persist_bootstrap.go,
    config/persist_tool_urls.go). Both run the same loop over the lines, each with its own
    settings. */
module EnvFile {
  import opened Prelude
  import opened Texts

  datatype Setting = Setting(key: string, value: string)

  function LineFor(s: Setting): string { s.key + "=" + s.value }

  function BootstrapClosed(origin: string): seq<Setting> {
    [Setting("REDGRES_BOOTSTRAP_ADDRESS", ""), Setting("REDGRES_COOKIE_SECURE", "true"), Setting("REDGRES_BASE_URL", origin)]
  }

  function ToolUrls(pgAdmin: string, redisInsight: string): seq<Setting> {
    [Setting("REDGRES_PGADMIN_URL", pgAdmin), Setting("REDGRES_REDISINSIGHT_URL", redisInsight)]
  }

  // ----- lines -----

  /** Both ReplaceAll calls: every \r\n and every other \r becomes \n. */
  function Normalized(s: string): string {
    if s == "" then ""
    else if s[0] == '\r' then "\n" + Normalized(if |s| > 1 && s[1] == '\n' then s[2..] else s[1..])
    else [s[0]] + Normalized(s[1..])
  }

  function LinesOf(src: string): seq<string> {
    var lines := Split(Normalized(src), '\n');
    if lines[|lines| - 1] == "" then lines[..|lines| - 1] else lines
  }

  function IndexOf(s: string, c: char): Option<nat> {
    if s == "" then None
    else if s[0] == c then Some(0)
    else var rest := IndexOf(s[1..], c); if rest.None? then None else Some(rest.value + 1)
  }

  /** envAssignmentKey. */
  function KeyOf(line: string): Option<string> {
    var trimmed := TrimSpace(line);
    if trimmed == "" || trimmed[0] == '#' then None
    else
      var eq := IndexOf(trimmed, '=');
      if eq.None? || eq.value < 1 || eq.value > |trimmed| then None else Some(trimmed[..eq.value])
  }

  /** A key of the settings, as the rewriters have them. */
  predicate PlainKey(k: string) {
    k != "" && '=' !in k && k[0] != '#' && !IsSpace(k[0]) && '\n' !in k && '\r' !in k
  }

  predicate PlainValue(v: string) { '\n' !in v && '\r' !in v }

  predicate Distinct(settings: seq<Setting>) {
    forall i, j :: 0 <= i < j < |settings| ==> settings[i].key != settings[j].key
  }

  /** Values without line breaks, under the distinct keys of one rewriter. */
  predicate Proper(settings: seq<Setting>) {
    settings != [] && Distinct(settings) &&
    forall i :: 0 <= i < |settings| ==> PlainKey(settings[i].key) && PlainValue(settings[i].value)
  }

  function Keys(settings: seq<Setting>): set<string> { set s | s in settings :: s.key }

  function Find(settings: seq<Setting>, key: string): (s: Setting)
    requires key in Keys(settings)
    ensures s in settings && s.key == key
  {
    if settings[0].key == key then settings[0] else Find(settings[1..], key)
  }

  /** The lines that assign a key. */
  function Assigning(lines: seq<string>, key: string): seq<string> {
    if lines == [] then []
    else
      Assigning(lines[..|lines| - 1], key) +
      if KeyOf(lines[|lines| - 1]) == Some(key) then [lines[|lines| - 1]] else []
  }

  /** The lines that assign no key of the set: comments, blanks and other settings. */
  function Others(lines: seq<string>, keys: set<string>): seq<string> {
    if lines == [] then []
    else
      var line := lines[|lines| - 1];
      Others(lines[..|lines| - 1], keys) + if KeyOf(line).Some? && KeyOf(line).value in keys then [] else [line]
  }

  // ----- the rewriting -----

  function SeenIn(lines: seq<string>, settings: seq<Setting>): set<string> {
    set k | k in Keys(settings) && Assigning(lines, k) != []
  }

  /** What the loop makes of a line after it has seen the keys in seen. */
  function Rewritten(line: string, settings: seq<Setting>, seen: set<string>): seq<string> {
    var key := KeyOf(line);
    if key.None? || key.value !in Keys(settings) then [line]
    else if key.value in seen then []
    else [LineFor(Find(settings, key.value))]
  }

  function Body(lines: seq<string>, settings: seq<Setting>): seq<string> {
    if lines == [] then []
    else
      var front := lines[..|lines| - 1];
      Body(front, settings) + Rewritten(lines[|lines| - 1], settings, SeenIn(front, settings))
  }

  /** The settings appended at the end. */
  function Missing(settings: seq<Setting>, seen: set<string>): seq<string> {
    if settings == [] then []
    else
      var s := settings[|settings| - 1];
      Missing(settings[..|settings| - 1], seen) + if s.key in seen then [] else [LineFor(s)]
  }

  function RewriteLines(lines: seq<string>, settings: seq<Setting>): seq<string> {
    Body(lines, settings) + Missing(settings, SeenIn(lines, settings))
  }

  function Rendered(lines: seq<string>): string
    requires lines != []
  {
    Join(lines, '\n') + "\n"
  }

  function Rewrite(src: string, settings: seq<Setting>): string
    requires Proper(settings)
  {
    SomeLineIsWritten(LinesOf(src), settings);
    Rendered(RewriteLines(LinesOf(src), settings))
  }

  /** The loop of both rewriters. */
  method RewriteEnv(src: string, settings: seq<Setting>) returns (text: string)
    requires Proper(settings)
    ensures text == Rewrite(src, settings)
  {
    hide KeyOf, Proper, Distinct, SeenIn, LinesOf, Find, LineFor, Keys;
    NothingSeen(settings);
    var lines := LinesOf(src);
    var seen: set<string> := {};
    var out: seq<string> := [];
    for i := 0 to |lines|
      invariant out == Body(lines[..i], settings) && seen == SeenIn(lines[..i], settings)
    {
      var line := lines[i];
      SeenStep(lines, settings, i);
      var key := KeyOf(line);
      if key.None? || key.value !in Keys(settings) {
        out := out + [line];
        continue;
      }
      if key.value in seen { continue; }
      seen := seen + {key.value};
      out := out + [LineFor(Find(settings, key.value))];
    }
    assert lines[..|lines|] == lines;
    for i := 0 to |settings|
      invariant out == Body(lines, settings) + Missing(settings[..i], seen)
    {
      assert settings[..i + 1][..i] == settings[..i];
      if settings[i].key !in seen { out := out + [LineFor(settings[i])]; }
    }
    assert settings[..|settings|] == settings;
    SomeLineIsWritten(lines, settings);
    text := Join(out, '\n') + "\n";
  }

  lemma NothingSeen(settings: seq<Setting>)
    ensures SeenIn([], settings) == {}
  {
  }

  lemma SeenStep(lines: seq<string>, settings: seq<Setting>, i: nat)
    requires i < |lines|
    ensures lines[..i + 1][..i] == lines[..i]
    ensures Body(lines[..i + 1], settings) == Body(lines[..i], settings) + Rewritten(lines[i], settings, SeenIn(lines[..i], settings))
    ensures SeenIn(lines[..i + 1], settings) ==
            SeenIn(lines[..i], settings) +
            (if KeyOf(lines[i]).Some? && KeyOf(lines[i]).value in Keys(settings) then {KeyOf(lines[i]).value} else {})
  {
    hide KeyOf, Rewritten, Keys;
    assert lines[..i + 1][..i] == lines[..i];
  }

  // ----- how a file is read -----

  predicate LineEnd(e: string) { e == "\n" || e == "\r\n" || e == "\r" }

  predicate NoBreak(line: string) { '\n' !in line && '\r' !in line }

  /** Lines, each with its end, and what follows the last end. */
  function Written(lines: seq<string>, ends: seq<string>, last: string): string
    requires |lines| == |ends|
  {
    if lines == [] then last else lines[0] + ends[0] + Written(lines[1..], ends[1..], last)
  }

  /** No text is written in two ways: a \r before an empty line is not followed by its \n. */
  predicate Unambiguous(lines: seq<string>, ends: seq<string>)
    requires |lines| == |ends|
  {
    (forall i :: 0 <= i < |ends| ==> LineEnd(ends[i]) && NoBreak(lines[i])) &&
    forall i :: 0 <= i < |ends| - 1 && ends[i] == "\r" && lines[i + 1] == "" ==> ends[i + 1] != "\n"
  }

  lemma {:induction false} NormalizedLine(line: string, rest: string)
    requires NoBreak(line)
    ensures Normalized(line + rest) == line + Normalized(rest)
  {
    if line == "" {
      assert line + rest == rest;
    } else {
      assert (line + rest)[0] == line[0] && (line + rest)[1..] == line[1..] + rest;
      NormalizedLine(line[1..], rest);
      assert line == [line[0]] + line[1..];
    }
  }

  lemma NormalizedEnd(e: string, rest: string)
    requires LineEnd(e) && (e == "\r" && rest != "" ==> rest[0] != '\n')
    ensures Normalized(e + rest) == "\n" + Normalized(rest)
  {
    var s := e + rest;
    if e == "\r\n" {
      assert s[0] == '\r' && s[1] == '\n' && s[2..] == rest;
    } else if e == "\r" {
      assert s[0] == '\r' && s[1..] == rest;
    } else {
      assert s[0] == '\n' && s[1..] == rest;
    }
  }

  lemma WrittenStart(lines: seq<string>, ends: seq<string>, last: string)
    requires lines != [] && |lines| == |ends| && Unambiguous(lines, ends) && NoBreak(last)
    ensures Unambiguous(lines[1..], ends[1..])
    ensures var rest := Written(lines[1..], ends[1..], last); ends[0] == "\r" && rest != "" ==> rest[0] != '\n'
  {
    var l, e := lines[1..], ends[1..];
    assert forall i :: 0 <= i < |l| ==> l[i] == lines[i + 1] && e[i] == ends[i + 1];
    if ends[0] == "\r" {
      if l == [] {
      } else if l[0] == "" {
        assert LineEnd(e[0]) && e[0][0] == '\r';
        assert Written(l, e, last)[0] == e[0][0];
      } else {
        assert l[0][0] in l[0] && Written(l, e, last)[0] == l[0][0];
      }
    }
  }

  lemma FirstLine(line: string, e: string, rest: string)
    requires NoBreak(line) && LineEnd(e) && (e == "\r" && rest != "" ==> rest[0] != '\n')
    ensures Split(Normalized(line + e + rest), '\n') == [line] + Split(Normalized(rest), '\n')
  {
    hide Normalized, Split;
    assert line + e + rest == line + (e + rest);
    NormalizedLine(line, e + rest);
    NormalizedEnd(e, rest);
    assert line + ("\n" + Normalized(rest)) == line + ['\n'] + Normalized(rest);
    SplitField(line, '\n', Normalized(rest));
  }

  lemma {:induction false} SplitWritten(lines: seq<string>, ends: seq<string>, last: string)
    requires |lines| == |ends| && Unambiguous(lines, ends) && NoBreak(last)
    ensures Split(Normalized(Written(lines, ends, last)), '\n') == lines + [last]
  {
    hide Normalized, Split;
    if lines == [] {
      NormalizedLine(last, "");
      assert last + "" == last && Normalized("") == "" by { NothingNormalized(); }
      SplitField(last, '\n', "");
    } else {
      WrittenStart(lines, ends, last);
      SplitWritten(lines[1..], ends[1..], last);
      FirstLine(lines[0], ends[0], Written(lines[1..], ends[1..], last));
      assert lines == [lines[0]] + lines[1..];
      assert [lines[0]] + (lines[1..] + [last]) == lines + [last];
    }
  }

  lemma NothingNormalized()
    ensures Normalized("") == ""
  {
  }

  /** A file is read as its lines, whether they end in \n, in \r\n or in \r and in whatever
      mixture, and with or without an end behind the last one. */
  lemma FileIsItsLines(lines: seq<string>, ends: seq<string>, last: string)
    requires |lines| == |ends| && Unambiguous(lines, ends) && NoBreak(last)
    ensures LinesOf(Written(lines, ends, last)) == if last == "" then lines else lines + [last]
  {
    SplitWritten(lines, ends, last);
    assert (lines + [last])[..|lines|] == lines;
  }

  /** Every text is such a file. */
  lemma {:induction false} EveryTextIsLines(text: string) returns (lines: seq<string>, ends: seq<string>, last: string)
    ensures |lines| == |ends| && Unambiguous(lines, ends) && NoBreak(last) && Written(lines, ends, last) == text
    decreases |text|
  {
    if text == "" {
      lines, ends, last := [], [], "";
    } else if text[0] == '\n' || text[0] == '\r' {
      var e := if text[0] == '\r' && |text| > 1 && text[1] == '\n' then "\r\n" else [text[0]];
      assert text == e + text[|e|..];
      var l, es;
      l, es, last := EveryTextIsLines(text[|e|..]);
      lines, ends := [""] + l, [e] + es;
      assert lines[1..] == l && ends[1..] == es;
      assert "" + e + Written(l, es, last) == text;
      if l != [] && e == "\r" && l[0] == "" { assert text[1] == es[0][0]; }
    } else {
      lines, ends, last := EveryTextIsLines(text[1..]);
      assert text == [text[0]] + text[1..];
      if lines == [] {
        last := [text[0]] + last;
      } else {
        var first := [text[0]] + lines[0];
        assert first + ends[0] + Written(lines[1..], ends[1..], last) == text;
        lines := [first] + lines[1..];
      }
    }
  }

  /** The key that a line assigns: what stands before the first "=" of its trimmed text,
      unless that is empty or a comment. */
  lemma KeyOfIff(line: string, key: string)
    ensures KeyOf(line) == Some(key) <==>
            key != "" && key[0] != '#' && '=' !in key && exists value :: Trimmed(line, key + "=" + value)
  {
    var trimmed := TrimSpace(line);
    TrimSpaceIff(line, trimmed);
    hide TrimSpace, Trimmed;
    if KeyOf(line) == Some(key) {
      IndexOfFirst(trimmed, '=');
      assert trimmed == key + "=" + trimmed[|key| + 1..];
    }
    if key != "" && key[0] != '#' && '=' !in key && exists value :: Trimmed(line, key + "=" + value) {
      var value :| Trimmed(line, key + "=" + value);
      TrimSpaceIff(line, key + "=" + value);
      IndexOfHead(key, '=', value);
      assert (key + "=" + value)[..|key|] == key && (key + "=" + value)[0] == key[0];
    }
  }

  lemma {:induction false} IndexOfFirst(s: string, c: char)
    ensures var i := IndexOf(s, c); i.Some? ==> i.value < |s| && s[i.value] == c && c !in s[..i.value]
  {
    if s != "" && s[0] != c {
      IndexOfFirst(s[1..], c);
      var i := IndexOf(s[1..], c);
      if i.Some? { assert s[..i.value + 1] == [s[0]] + s[1..][..i.value]; }
    }
  }

  // ----- what a rewritten file says -----

  lemma {:induction false} AssigningJoins(a: seq<string>, b: seq<string>, key: string)
    ensures Assigning(a + b, key) == Assigning(a, key) + Assigning(b, key)
  {
    hide KeyOf;
    if b == [] {
      assert a + b == a;
    } else {
      AssigningJoins(a, b[..|b| - 1], key);
      assert (a + b)[..|a + b| - 1] == a + b[..|b| - 1];
    }
  }

  lemma {:induction false} OthersJoin(a: seq<string>, b: seq<string>, keys: set<string>)
    ensures Others(a + b, keys) == Others(a, keys) + Others(b, keys)
  {
    hide KeyOf;
    if b == [] {
      assert a + b == a;
    } else {
      OthersJoin(a, b[..|b| - 1], keys);
      assert (a + b)[..|a + b| - 1] == a + b[..|b| - 1];
    }
  }

  lemma {:induction false} IndexOfHead(head: string, c: char, tail: string)
    requires c !in head
    ensures IndexOf(head + [c] + tail, c) == Some(|head|)
  {
    if head == "" {
      assert head + [c] + tail == [c] + tail;
    } else {
      assert (head + [c] + tail)[1..] == head[1..] + [c] + tail;
      IndexOfHead(head[1..], c, tail);
    }
  }

  /** A written line assigns its key. */
  lemma LineHasItsKey(s: Setting)
    requires PlainKey(s.key)
    ensures KeyOf(LineFor(s)) == Some(s.key)
  {
    var head := s.key + "=";
    assert LineFor(s) == head + s.value;
    TrimKeepsHead(head, s.value);
    var trimmed := TrimSpace(LineFor(s));
    assert trimmed == head + trimmed[|head|..];
    IndexOfHead(s.key, '=', trimmed[|head|..]);
    assert trimmed[0] == s.key[0];
    assert trimmed[..|s.key|] == s.key;
  }

  lemma SingleLine(s: Setting, key: string, keys: set<string>)
    requires PlainKey(s.key)
    ensures Assigning([LineFor(s)], key) == if key == s.key then [LineFor(s)] else []
    ensures s.key in keys ==> Others([LineFor(s)], keys) == []
  {
    LineHasItsKey(s);
    hide KeyOf;
    assert [LineFor(s)][..0] == [];
  }

  lemma {:induction false} FindUnique(settings: seq<Setting>, i: nat)
    requires i < |settings| && Distinct(settings)
    ensures settings[i].key in Keys(settings) && Find(settings, settings[i].key) == settings[i]
  {
    assert settings[i] in settings;
    if i > 0 {
      assert settings[1..][i - 1] == settings[i];
      FindUnique(settings[1..], i - 1);
    }
  }

  lemma {:induction false} BodyAssigns(lines: seq<string>, settings: seq<Setting>, key: string)
    requires Proper(settings)
    ensures key in Keys(settings) ==>
              Assigning(Body(lines, settings), key) == if key in SeenIn(lines, settings) then [LineFor(Find(settings, key))] else []
    ensures key !in Keys(settings) ==> Assigning(Body(lines, settings), key) == Assigning(lines, key)
  {
    hide KeyOf, Proper, Find, Rewritten;
    if lines != [] {
      var n := |lines| - 1;
      var line := lines[n];
      BodyAssigns(lines[..n], settings, key);
      AssigningJoins(Body(lines[..n], settings), Rewritten(line, settings, SeenIn(lines[..n], settings)), key);
      LineAssigns(line, settings, key);
      assert lines[..n + 1] == lines;
      SeenStep(lines, settings, n);
      assert [line][..0] == [] && Assigning([], key) == [];
      assert Assigning([line], key) == if KeyOf(line) == Some(key) then [line] else [];
    }
  }

  /** What a rewritten line assigns. */
  lemma LineAssigns(line: string, settings: seq<Setting>, key: string)
    requires Proper(settings)
    ensures forall seen :: key !in Keys(settings) ==> Assigning(Rewritten(line, settings, seen), key) == Assigning([line], key)
    ensures forall seen :: key in Keys(settings) ==>
              Assigning(Rewritten(line, settings, seen), key) ==
              if KeyOf(line) == Some(key) && key !in seen then [LineFor(Find(settings, key))] else []
  {
    assert [line][..0] == [];
    if KeyOf(line).Some? && KeyOf(line).value in Keys(settings) {
      var s := Find(settings, KeyOf(line).value);
      var i :| 0 <= i < |settings| && settings[i] == s;
      SingleLine(s, key, {});
    }
    hide KeyOf, Proper;
  }

  lemma {:induction false} MissingAssigns(settings: seq<Setting>, n: nat, seen: set<string>, key: string)
    requires Proper(settings) && n <= |settings|
    ensures Assigning(Missing(settings[..n], seen), key) ==
            if key in Keys(settings[..n]) && key !in seen then [LineFor(Find(settings, key))] else []
  {
    if n > 0 {
      var front, s := settings[..n - 1], settings[n - 1];
      assert settings[..n][..n - 1] == front;
      MissingAssigns(settings, n - 1, seen, key);
      AssigningJoins(Missing(front, seen), if s.key in seen then [] else [LineFor(s)], key);
      SingleLine(s, key, {});
      FindUnique(settings, n - 1);
      assert Keys(settings[..n]) == Keys(front) + {s.key};
      assert s.key !in Keys(front);
      hide KeyOf, Find;
    }
  }

  /** After a rewrite each of its keys is assigned by exactly one line, with the new value,
      and every other key by the lines that assigned it before. */
  lemma AssignedOnce(lines: seq<string>, settings: seq<Setting>, key: string)
    requires Proper(settings)
    ensures Assigning(RewriteLines(lines, settings), key) ==
            if key in Keys(settings) then [key + "=" + Find(settings, key).value] else Assigning(lines, key)
  {
    BodyAssigns(lines, settings, key);
    MissingAssigns(settings, |settings|, SeenIn(lines, settings), key);
    AssigningJoins(Body(lines, settings), Missing(settings, SeenIn(lines, settings)), key);
    assert settings[..|settings|] == settings;
    hide KeyOf, Find, Proper;
  }

  lemma SomeLineIsWritten(lines: seq<string>, settings: seq<Setting>)
    requires Proper(settings)
    ensures RewriteLines(lines, settings) != []
  {
    AssignedOnce(lines, settings, settings[0].key);
    FindUnique(settings, 0);
  }

  // ----- the other lines stay, in order -----

  lemma {:induction false} MissingIsOurs(settings: seq<Setting>, n: nat, seen: set<string>)
    requires Proper(settings) && n <= |settings|
    ensures Others(Missing(settings[..n], seen), Keys(settings)) == []
  {
    if n > 0 {
      var front, s := settings[..n - 1], settings[n - 1];
      assert settings[..n][..n - 1] == front;
      MissingIsOurs(settings, n - 1, seen);
      OthersJoin(Missing(front, seen), if s.key in seen then [] else [LineFor(s)], Keys(settings));
      FindUnique(settings, n - 1);
      SingleLine(s, s.key, Keys(settings));
      hide KeyOf, Find;
    }
  }

  lemma {:induction false} BodyKeepsOthers(lines: seq<string>, settings: seq<Setting>)
    requires Proper(settings)
    ensures Others(Body(lines, settings), Keys(settings)) == Others(lines, Keys(settings))
  {
    if lines != [] {
      var n := |lines| - 1;
      var line := lines[n];
      BodyKeepsOthers(lines[..n], settings);
      OthersJoin(Body(lines[..n], settings), Rewritten(line, settings, SeenIn(lines[..n], settings)), Keys(settings));
      assert [line][..0] == [];
      if KeyOf(line).Some? && KeyOf(line).value in Keys(settings) {
        var s := Find(settings, KeyOf(line).value);
        var i :| 0 <= i < |settings| && settings[i] == s;
        SingleLine(s, s.key, Keys(settings));
      }
      hide KeyOf, Find, Proper;
    }
  }

  /** Comments, blank lines and the settings of others stay as they are, in order. */
  lemma OthersAreKept(lines: seq<string>, settings: seq<Setting>)
    requires Proper(settings)
    ensures Others(RewriteLines(lines, settings), Keys(settings)) == Others(lines, Keys(settings))
  {
    BodyKeepsOthers(lines, settings);
    MissingIsOurs(settings, |settings|, SeenIn(lines, settings));
    assert settings[..|settings|] == settings;
    OthersJoin(Body(lines, settings), Missing(settings, SeenIn(lines, settings)), Keys(settings));
    hide KeyOf, Find, Proper;
  }

  // ----- rewriting again -----

  /** Lines that assign each key at most once, and as the settings say, are not touched. */
  lemma {:induction false} SettledBodyStays(lines: seq<string>, settings: seq<Setting>)
    requires Proper(settings)
    requires forall k :: k in Keys(settings) ==> Assigning(lines, k) <= [LineFor(Find(settings, k))]
    ensures Body(lines, settings) == lines
  {
    if lines != [] {
      hide KeyOf, Proper, Find;
      var n := |lines| - 1;
      var front, line := lines[..n], lines[n];
      assert lines == front + [line];
      SettledBodyStays(front, settings);
    }
  }

  lemma {:induction false} NothingMissing(settings: seq<Setting>, seen: set<string>)
    requires Keys(settings) <= seen
    ensures Missing(settings, seen) == []
  {
    if settings != [] {
      assert settings[|settings| - 1].key in Keys(settings);
      NothingMissing(settings[..|settings| - 1], seen);
    }
  }

  lemma RewriteLinesTwice(lines: seq<string>, settings: seq<Setting>)
    requires Proper(settings)
    ensures RewriteLines(RewriteLines(lines, settings), settings) == RewriteLines(lines, settings)
  {
    hide KeyOf, Proper, Find, RewriteLines;
    var out := RewriteLines(lines, settings);
    forall k | k in Keys(settings) ensures Assigning(out, k) == [LineFor(Find(settings, k))] {
      AssignedOnce(lines, settings, k);
    }
    SettledBodyStays(out, settings);
    NothingMissing(settings, SeenIn(out, settings));
    assert RewriteLines(out, settings) == Body(out, settings) + Missing(settings, SeenIn(out, settings)) by {
      RewriteParts(out, settings);
    }
  }

  lemma RewriteParts(lines: seq<string>, settings: seq<Setting>)
    ensures RewriteLines(lines, settings) == Body(lines, settings) + Missing(settings, SeenIn(lines, settings))
  {
  }

  // ----- texts -----

  predicate Clean(lines: seq<string>) {
    forall i :: 0 <= i < |lines| ==> '\n' !in lines[i] && '\r' !in lines[i]
  }

  lemma {:induction false} NormalizedHasNoReturn(s: string)
    ensures '\r' !in Normalized(s)
    decreases |s|
  {
    if s != "" {
      NormalizedHasNoReturn(if s[0] == '\r' && |s| > 1 && s[1] == '\n' then s[2..] else s[1..]);
    }
  }

  lemma {:induction false} AlreadyNormalized(s: string)
    requires '\r' !in s
    ensures Normalized(s) == s
  {
    if s != "" {
      AlreadyNormalized(s[1..]);
    }
  }

  lemma LinesAreClean(src: string)
    ensures Clean(LinesOf(src))
  {
    NormalizedHasNoReturn(src);
    SplitFields(Normalized(src), '\n', '\n');
    SplitFields(Normalized(src), '\n', '\r');
  }

  lemma {:induction false} RewrittenIsClean(lines: seq<string>, settings: seq<Setting>)
    requires Clean(lines) && Proper(settings)
    ensures Clean(Body(lines, settings))
  {
    if lines != [] {
      hide KeyOf, Find;
      RewrittenIsClean(lines[..|lines| - 1], settings);
    }
  }

  lemma {:induction false} MissingIsClean(settings: seq<Setting>, n: nat, seen: set<string>)
    requires Proper(settings) && n <= |settings|
    ensures Clean(Missing(settings[..n], seen))
  {
    if n > 0 {
      assert settings[..n][..n - 1] == settings[..n - 1];
      MissingIsClean(settings, n - 1, seen);
    }
  }

  lemma {:induction false} JoinHasNoReturn(lines: seq<string>)
    requires lines != [] && Clean(lines)
    ensures '\r' !in Join(lines, '\n')
  {
    if |lines| > 1 { JoinHasNoReturn(lines[1..]); }
  }

  lemma {:induction false} JoinEndsWithBreak(lines: seq<string>)
    requires lines != []
    ensures Join(lines + [""], '\n') == Join(lines, '\n') + "\n"
  {
    if |lines| > 1 {
      assert (lines + [""])[1..] == lines[1..] + [""];
      JoinEndsWithBreak(lines[1..]);
    } else {
      assert (lines + [""])[1..] == [""];
    }
  }

  /** Written lines are read back. */
  lemma RenderedIsRead(lines: seq<string>)
    requires lines != [] && Clean(lines)
    ensures LinesOf(Rendered(lines)) == lines
  {
    JoinHasNoReturn(lines);
    AlreadyNormalized(Rendered(lines));
    JoinEndsWithBreak(lines);
    SplitUndoesJoin(lines + [""], '\n');
  }

  lemma RewriteIsRead(src: string, settings: seq<Setting>)
    requires Proper(settings)
    ensures LinesOf(Rewrite(src, settings)) == RewriteLines(LinesOf(src), settings)
  {
    LinesAreClean(src);
    RewrittenIsClean(LinesOf(src), settings);
    MissingIsClean(settings, |settings|, SeenIn(LinesOf(src), settings));
    assert settings[..|settings|] == settings;
    SomeLineIsWritten(LinesOf(src), settings);
    RenderedIsRead(RewriteLines(LinesOf(src), settings));
  }

  /** Rewriting a file again with the same settings changes nothing. */
  lemma RewriteIsIdempotent(src: string, settings: seq<Setting>)
    requires Proper(settings)
    ensures Rewrite(Rewrite(src, settings), settings) == Rewrite(src, settings)
  {
    RewriteIsRead(src, settings);
    RewriteLinesTwice(LinesOf(src), settings);
    hide LinesOf, RewriteLines;
  }

  /** What the file assigns to a key after both rewriters does not depend on their order. */
  lemma OrderOfRewritersIsImmaterial(src: string, a: seq<Setting>, b: seq<Setting>, key: string)
    requires Proper(a) && Proper(b) && Keys(a) !! Keys(b)
    ensures Assigning(LinesOf(Rewrite(Rewrite(src, a), b)), key) == Assigning(LinesOf(Rewrite(Rewrite(src, b), a)), key)
    ensures key in Keys(a) ==> Assigning(LinesOf(Rewrite(Rewrite(src, a), b)), key) == [LineFor(Find(a, key))]
    ensures key in Keys(b) ==> Assigning(LinesOf(Rewrite(Rewrite(src, a), b)), key) == [LineFor(Find(b, key))]
  {
    hide LinesOf, RewriteLines, Rewrite, Proper, Find;
    RewriteIsRead(src, a);
    RewriteIsRead(src, b);
    RewriteIsRead(Rewrite(src, a), b);
    RewriteIsRead(Rewrite(src, b), a);
    AssignedOnce(LinesOf(src), a, key);
    AssignedOnce(LinesOf(src), b, key);
    AssignedOnce(LinesOf(Rewrite(src, a)), b, key);
    AssignedOnce(LinesOf(Rewrite(src, b)), a, key);
  }

  predicate UpperKey(k: string) {
    k != "" && 'A' <= k[0] <= 'Z' && forall i :: 0 <= i < |k| ==> 'A' <= k[i] <= 'Z' || k[i] == '_'
  }

  lemma UpperKeyIsPlain(k: string)
    requires UpperKey(k)
    ensures PlainKey(k)
  {
  }

  lemma BootstrapKeysAreUpper(origin: string)
    ensures forall i :: 0 <= i < 3 ==> UpperKey(BootstrapClosed(origin)[i].key)
  {
    assert UpperKey("REDGRES_BOOTSTRAP_ADDRESS");
    assert UpperKey("REDGRES_COOKIE_SECURE");
    assert UpperKey("REDGRES_BASE_URL");
    hide UpperKey;
  }

  lemma BootstrapIsProper(origin: string)
    requires PlainValue(origin)
    ensures Proper(BootstrapClosed(origin))
  {
    hide PlainKey, UpperKey;
    var s := BootstrapClosed(origin);
    BootstrapKeysAreUpper(origin);
    UpperKeyIsPlain(s[0].key);
    UpperKeyIsPlain(s[1].key);
    UpperKeyIsPlain(s[2].key);
    assert PlainValue("") && PlainValue("true");
    assert |s[0].key| == 25 && |s[1].key| == 21 && |s[2].key| == 16;
  }

  lemma SettingIsSaid(src: string, settings: seq<Setting>, i: nat)
    requires Proper(settings) && i < |settings|
    ensures Assigning(LinesOf(Rewrite(src, settings)), settings[i].key) == [settings[i].key + "=" + settings[i].value]
  {
    RewriteIsRead(src, settings);
    AssignedOnce(LinesOf(src), settings, settings[i].key);
    FindUnique(settings, i);
    hide Assigning, LinesOf, RewriteLines, Find, Keys;
  }

  /** What the file says after bootstrap was closed. */
  lemma BootstrapSays(src: string, origin: string)
    requires PlainValue(origin)
    ensures Proper(BootstrapClosed(origin))
    ensures var lines := LinesOf(Rewrite(src, BootstrapClosed(origin)));
            Assigning(lines, "REDGRES_BOOTSTRAP_ADDRESS") == ["REDGRES_BOOTSTRAP_ADDRESS="] &&
            Assigning(lines, "REDGRES_COOKIE_SECURE") == ["REDGRES_COOKIE_SECURE=true"] &&
            Assigning(lines, "REDGRES_BASE_URL") == ["REDGRES_BASE_URL=" + origin]
  {
    hide Assigning, LinesOf, RewriteLines, Find, Proper, Distinct, Rewrite, KeyOf;
    var s := BootstrapClosed(origin);
    BootstrapIsProper(origin);
    SettingIsSaid(src, s, 0);
    SettingIsSaid(src, s, 1);
    SettingIsSaid(src, s, 2);
    assert "REDGRES_BOOTSTRAP_ADDRESS" + "=" + "" == "REDGRES_BOOTSTRAP_ADDRESS=";
    assert "REDGRES_COOKIE_SECURE" + "=" + "true" == "REDGRES_COOKIE_SECURE=true";
    assert "REDGRES_BASE_URL" + "=" == "REDGRES_BASE_URL=";
  }

  lemma ToolKeysAreUpper(pgAdmin: string, redisInsight: string)
    ensures UpperKey(ToolUrls(pgAdmin, redisInsight)[0].key) && UpperKey(ToolUrls(pgAdmin, redisInsight)[1].key)
  {
    assert UpperKey("REDGRES_PGADMIN_URL");
    assert UpperKey("REDGRES_REDISINSIGHT_URL");
    hide UpperKey;
  }

  lemma ToolsAreProper(pgAdmin: string, redisInsight: string)
    requires PlainValue(pgAdmin) && PlainValue(redisInsight)
    ensures Proper(ToolUrls(pgAdmin, redisInsight))
  {
    hide PlainKey, UpperKey, PlainValue;
    var s := ToolUrls(pgAdmin, redisInsight);
    ToolKeysAreUpper(pgAdmin, redisInsight);
    UpperKeyIsPlain(s[0].key);
    UpperKeyIsPlain(s[1].key);
    assert |s[0].key| == 19 && |s[1].key| == 24;
  }

  /** What the file says after the tool URLs were stored. */
  lemma ToolsSay(src: string, pgAdmin: string, redisInsight: string)
    requires PlainValue(pgAdmin) && PlainValue(redisInsight)
    ensures Proper(ToolUrls(pgAdmin, redisInsight))
    ensures var lines := LinesOf(Rewrite(src, ToolUrls(pgAdmin, redisInsight)));
            Assigning(lines, "REDGRES_PGADMIN_URL") == ["REDGRES_PGADMIN_URL=" + pgAdmin] &&
            Assigning(lines, "REDGRES_REDISINSIGHT_URL") == ["REDGRES_REDISINSIGHT_URL=" + redisInsight]
  {
    hide Assigning, LinesOf, RewriteLines, Find, Proper, Distinct, Rewrite, KeyOf;
    var s := ToolUrls(pgAdmin, redisInsight);
    ToolsAreProper(pgAdmin, redisInsight);
    SettingIsSaid(src, s, 0);
    SettingIsSaid(src, s, 1);
    assert "REDGRES_PGADMIN_URL" + "=" == "REDGRES_PGADMIN_URL=" && "REDGRES_REDISINSIGHT_URL" + "=" == "REDGRES_REDISINSIGHT_URL=";
  }

  /** The two rewriters manage different keys. */
  lemma KeysAreDisjoint(origin: string, pgAdmin: string, redisInsight: string)
    ensures Keys(BootstrapClosed(origin)) !! Keys(ToolUrls(pgAdmin, redisInsight))
  {
    var a, b := BootstrapClosed(origin), ToolUrls(pgAdmin, redisInsight);
    forall k ensures !(k in Keys(a) && k in Keys(b)) {
      assert k in Keys(a) ==> |k| > 8 && (k[8] == 'B' || k[8] == 'C');
      assert k in Keys(b) ==> |k| > 8 && (k[8] == 'P' || k[8] == 'R');
    }
  }

  /** Closing bootstrap and storing the tool URLs commute, for values without line breaks. */
  lemma RewritersCommute(src: string, origin: string, pgAdmin: string, redisInsight: string, key: string)
    requires PlainValue(origin) && PlainValue(pgAdmin) && PlainValue(redisInsight)
    ensures var a, b := BootstrapClosed(origin), ToolUrls(pgAdmin, redisInsight);
            Proper(a) && Proper(b) &&
            Assigning(LinesOf(Rewrite(Rewrite(src, a), b)), key) == Assigning(LinesOf(Rewrite(Rewrite(src, b), a)), key)
  {
    var a, b := BootstrapClosed(origin), ToolUrls(pgAdmin, redisInsight);
    BootstrapIsProper(origin);
    ToolsAreProper(pgAdmin, redisInsight);
    KeysAreDisjoint(origin, pgAdmin, redisInsight);
    hide BootstrapClosed, ToolUrls, Proper, Keys, Rewrite, LinesOf;
    OrderOfRewritersIsImmaterial(src, a, b, key);
  }
}
