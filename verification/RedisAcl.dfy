/** Redis ACL lines: reading them (redisadmin/acl.go), changing them the way ACL SETUSER
    does for the three kinds of update (memory.go), and the service calls that do one and
    then the other (service.go). */
module RedisAcl {
  import opened Prelude
  import opened Texts
  import opened RedisPresets

  datatype User = User(
    username: string, enabled: bool, keyPattern: string, preset: Preset, limited: bool,
    commands: seq<string>, categories: seq<string>, protected: bool)

  /** IsProtectedUsername. */
  predicate Protected(username: string, admin: string) {
    Lower(username) in {"default", "admin", "redact_admin"} || (admin != "" && Lower(username) == Lower(admin))
  }

  // ----- reading a line -----

  /** What the loop over the fields knows. */
  datatype Scan = Scan(enabled: bool, pattern: Option<string>, limited: bool, minusAll: bool, cmds: seq<string>, cats: seq<string>)

  const EMPTY: Scan := Scan(false, None, false, false, [], [])

  predicate Flag(f: string) { f == "on" || f == "off" }

  predicate Starts(f: string, c: char) { f != "" && f[0] == c }

  predicate Category(f: string) { |f| >= 2 && f[1] == '@' }

  predicate Secret(f: string) { f == "nopass" || Starts(f, '#') || Starts(f, '>') || Starts(f, '!') }

  predicate Silent(f: string) { f in {"sanitize-payload", "resetchannels", "resetkeys", "nocommands"} }

  /** The cases of the loop, in its order. */
  datatype Kind = FlagField | Ignored | AllKeys | KeyPattern | Command | AddCategory | MinusAll | DropCategory | Unreadable

  function KindOf(f: string): Kind {
    if Flag(f) then FlagField
    else if Silent(f) || Secret(f) then Ignored
    else if f == "allkeys" then AllKeys
    else if Starts(f, '~') then KeyPattern
    else if Starts(f, '+') then (if Category(f) then AddCategory else Command)
    else if f == "-@all" then MinusAll
    else if Starts(f, '-') && Category(f) then DropCategory
    else Unreadable
  }

  function Take(st: Scan, pattern: string): Scan {
    if st.pattern.Some? then st.(limited := true) else st.(pattern := Some(pattern))
  }

  function Tail(f: string): string { if f == "" then "" else f[1..] }

  function Read(st: Scan, f: string): Scan {
    match KindOf(f)
    case FlagField => st.(enabled := f == "on")
    case Ignored => st
    case AllKeys => Take(st, "*")
    case KeyPattern => Take(st, Tail(f))
    case Command => st.(cmds := st.cmds + [Lower(Tail(f))])
    case AddCategory => st.(limited := true, cats := st.cats + [Lower(Tail(f))])
    case MinusAll => st.(limited := st.limited || st.minusAll, minusAll := true)
    case DropCategory => st.(limited := true, cats := st.cats + [Lower(Tail(f))])
    case Unreadable => st.(limited := true)
  }

  function ReadAll(fields: seq<string>): Scan {
    if fields == [] then EMPTY else Read(ReadAll(fields[..|fields| - 1]), fields[|fields| - 1])
  }

  function UserOf(name: string, st: Scan, admin: string): User {
    var all := UniqueSorted(st.cmds);
    var over := |all| > MAX_COMMANDS;
    var cmds := if over then all[..MAX_COMMANDS] else all;
    var cats := UniqueSorted(st.cats);
    var limited := st.limited || over || cats != [];
    User(name, st.enabled, if st.pattern.Some? then st.pattern.value else "",
         if limited then Custom else InferPreset(cmds), limited, cmds, cats, Protected(name, admin))
  }

  predicate IsUserLine(fields: seq<string>) { |fields| >= 2 && fields[0] == "user" }

  /** parseACLLine, with the protection that loadUsers adds. */
  function Parse(line: string, admin: string): Option<User> {
    var fields := Words(line);
    if IsUserLine(fields) then Some(UserOf(fields[1], ReadAll(fields[2..]), admin)) else None
  }

  method ParseLine(line: string, admin: string) returns (r: Option<User>)
    ensures r == Parse(line, admin)
  {
    hide Lower, UniqueSorted, InferPreset, Protected;
    var fields := Words(line);
    if |fields| < 2 || fields[0] != "user" { return None; }
    var rest := fields[2..];
    var st := EMPTY;
    for i := 0 to |rest|
      invariant st == ReadAll(rest[..i])
    {
      assert rest[..i + 1][..i] == rest[..i];
      st := Read(st, rest[i]);
    }
    assert rest[..|rest|] == rest;
    var cmds := UniqueSorted(st.cmds);
    var limited := st.limited;
    if |cmds| > MAX_COMMANDS {
      cmds, limited := cmds[..MAX_COMMANDS], true;
    }
    var cats := UniqueSorted(st.cats);
    var pattern := if st.pattern.Some? then st.pattern.value else "";
    if limited || |cats| > 0 {
      return Some(User(fields[1], st.enabled, pattern, Custom, true, cmds, cats, Protected(fields[1], admin)));
    }
    return Some(User(fields[1], st.enabled, pattern, InferPreset(cmds), false, cmds, cats, Protected(fields[1], admin)));
  }

  // ----- the updates of a line -----

  function WithFlag(fields: seq<string>, flag: string): seq<string> {
    if fields == [] then []
    else WithFlag(fields[..|fields| - 1], flag) + [if Flag(fields[|fields| - 1]) then flag else fields[|fields| - 1]]
  }

  predicate AnyFlag(fields: seq<string>) { exists i :: 0 <= i < |fields| && Flag(fields[i]) }

  /** mergeOnOffOnly: every flag is replaced; a line without one gets it in front. */
  function FlagFields(fields: seq<string>, flag: string): seq<string> {
    if AnyFlag(fields) then WithFlag(fields, flag) else [flag] + fields
  }

  function WithoutSecrets(fields: seq<string>): seq<string> {
    if fields == [] then []
    else WithoutSecrets(fields[..|fields| - 1]) + if Secret(fields[|fields| - 1]) then [] else [fields[|fields| - 1]]
  }

  function Secrets(fields: seq<string>): seq<string> {
    if fields == [] then []
    else Secrets(fields[..|fields| - 1]) + if Secret(fields[|fields| - 1]) then [fields[|fields| - 1]] else []
  }

  /** mergePasswordReset. */
  function PasswordFields(fields: seq<string>, password: string): seq<string> {
    WithoutSecrets(fields) + [password]
  }

  function FirstFlag(fields: seq<string>): seq<string> {
    if fields == [] then []
    else
      var front := FirstFlag(fields[..|fields| - 1]);
      if front != [] then front
      else if Flag(fields[|fields| - 1]) then [fields[|fields| - 1]] else []
  }

  /** mergePermissionsUpdate. */
  function GrantFields(fields: seq<string>, pattern: string, cmds: seq<string>): seq<string> {
    FirstFlag(fields) + Secrets(fields) + [pattern, "-@all"] + cmds
  }

  datatype Grants = Grants(pattern: string, channels: bool, noCommands: bool, minusAll: bool, cmds: seq<string>)

  /** The loop of permissionsUpdateGrants; None once it has met a rule it refuses. */
  function GrantsIn(rules: seq<string>): Option<Grants> {
    if rules == [] then Some(Grants("", false, false, false, []))
    else
      var before, rule := GrantsIn(rules[..|rules| - 1]), rules[|rules| - 1];
      if before.None? || rule in {"reset", "resetpass", "on", "off"} || (Starts(rule, '>') && |rule| > 1) then None
      else if Starts(rule, '~') then Some(before.value.(pattern := rule))
      else if rule == "resetchannels" then Some(before.value.(channels := true))
      else if rule == "nocommands" then Some(before.value.(noCommands := true))
      else if rule == "-@all" then Some(before.value.(minusAll := true))
      else if Starts(rule, '+') && !Category(rule) then Some(before.value.(cmds := before.value.cmds + [rule]))
      else before
  }

  datatype Update = SetFlag(flag: string) | SetPassword(password: string) | SetGrants(pattern: string, cmds: seq<string>) | Whole

  /** Which of the merges takes the rules. */
  function UpdateOf(rules: seq<string>): Update {
    if |rules| == 1 && Flag(rules[0]) then SetFlag(rules[0])
    else if |rules| == 2 && rules[0] == "resetpass" && Starts(rules[1], '>') && |rules[1]| > 1 then SetPassword(rules[1])
    else if |rules| < 5 || rules[0] != "resetkeys" then Whole
    else
      var g := GrantsIn(rules);
      if g.None? || g.value.pattern == "" || !g.value.channels || !g.value.noCommands || !g.value.minusAll then Whole
      else SetGrants(g.value.pattern, g.value.cmds)
  }

  function UpdatedFields(fields: seq<string>, u: Update, rules: seq<string>): seq<string> {
    match u
    case SetFlag(flag) => FlagFields(fields, flag)
    case SetPassword(p) => PasswordFields(fields, p)
    case SetGrants(pattern, cmds) => GrantFields(fields, pattern, cmds)
    case Whole => rules
  }

  function LineOf(name: string, fields: seq<string>): string { Join(["user", name] + fields, ' ') }

  predicate Names(line: string, name: string) {
    IsUserLine(Words(line)) && Words(line)[1] == name
  }

  /** The first line of a user from an index on; the number of lines if there is none. */
  function FirstFrom(lines: seq<string>, name: string, i: nat): (k: nat)
    requires i <= |lines|
    ensures i <= k <= |lines| && (k < |lines| ==> Names(lines[k], name))
    ensures forall j :: i <= j < k ==> !Names(lines[j], name)
    decreases |lines| - i
  {
    if i == |lines| || Names(lines[i], name) then i else FirstFrom(lines, name, i + 1)
  }

  /** ACL SETUSER as the in-memory client does it. */
  function SetUser(lines: seq<string>, name: string, rules: seq<string>): seq<string> {
    var k := FirstFrom(lines, name, 0);
    if k < |lines| then lines[k := LineOf(name, UpdatedFields(Words(lines[k])[2..], UpdateOf(rules), rules))]
    else lines + [LineOf(name, rules)]
  }

  // ----- the in-memory client -----

  datatype RedisError = NotConfigured | AuthFailed | PermissionDenied | Unavailable | NotFound | ProtectedUser
    | InvalidPreset | InvalidQueueKind | InvalidCommands | InvalidPrefix

  class MemoryClient {
    var lines: seq<string>
    var listError: Option<RedisError>
    var setError: Option<RedisError>

    /** The loops over the lines of the merge functions stop at the first line of the user. */
    method FindLine(name: string) returns (k: nat)
      ensures k == FirstFrom(lines, name, 0)
    {
      k := 0;
      while k < |lines|
        invariant k <= |lines| && FirstFrom(lines, name, 0) == FirstFrom(lines, name, k)
      {
        var fields := Words(lines[k]);
        if |fields| >= 2 && fields[0] == "user" && fields[1] == name { return; }
        k := k + 1;
      }
    }

    method MergeFlag(name: string, rules: seq<string>) returns (ok: bool)
      modifies `lines
      ensures ok <==> UpdateOf(rules).SetFlag? && FirstFrom(old(lines), name, 0) < |old(lines)|
      ensures lines == if ok then SetUser(old(lines), name, rules) else old(lines)
    {
      hide FirstFrom, Flag, GrantsIn;
      if |rules| != 1 || !Flag(rules[0]) { return false; }
      var k := FindLine(name);
      if k == |lines| { return false; }
      var rest := Words(lines[k])[2..];
      var replaced := false;
      var out: seq<string> := [];
      for j := 0 to |rest|
        invariant lines == old(lines)
        invariant out == WithFlag(rest[..j], rules[0]) && (replaced <==> AnyFlag(rest[..j]))
      {
        assert rest[..j + 1][..j] == rest[..j];
        out := out + [if Flag(rest[j]) then rules[0] else rest[j]];
        if Flag(rest[j]) { replaced := true; }
      }
      assert rest[..|rest|] == rest;
      if !replaced { out := [rules[0]] + rest; }
      lines := lines[k := LineOf(name, out)];
      ok := true;
    }

    method MergePassword(name: string, rules: seq<string>) returns (ok: bool)
      modifies `lines
      ensures ok <==> UpdateOf(rules).SetPassword? && FirstFrom(old(lines), name, 0) < |old(lines)|
      ensures lines == if ok then SetUser(old(lines), name, rules) else old(lines)
    {
      hide FirstFrom, Flag, GrantsIn, Secret;
      if |rules| != 2 || rules[0] != "resetpass" || !Starts(rules[1], '>') || |rules[1]| == 1 { return false; }
      var k := FindLine(name);
      if k == |lines| { return false; }
      var rest := Words(lines[k])[2..];
      var kept: seq<string> := [];
      for j := 0 to |rest|
        invariant lines == old(lines) && kept == WithoutSecrets(rest[..j])
      {
        assert rest[..j + 1][..j] == rest[..j];
        if Secret(rest[j]) { continue; }
        kept := kept + [rest[j]];
      }
      assert rest[..|rest|] == rest;
      lines := lines[k := LineOf(name, kept + [rules[1]])];
      ok := true;
    }

    method MergeGrants(name: string, rules: seq<string>) returns (ok: bool)
      requires !UpdateOf(rules).SetFlag? && !UpdateOf(rules).SetPassword?
      modifies `lines
      ensures ok <==> UpdateOf(rules).SetGrants? && FirstFrom(old(lines), name, 0) < |old(lines)|
      ensures lines == if ok then SetUser(old(lines), name, rules) else old(lines)
    {
      hide FirstFrom, Secret, Flag, UpdateOf;
      var u := UpdateOf(rules);
      if !u.SetGrants? { return false; }
      var k := FindLine(name);
      if k == |lines| { return false; }
      var rest := Words(lines[k])[2..];
      var flag: seq<string> := [];
      var passwords: seq<string> := [];
      for j := 0 to |rest|
        invariant lines == old(lines) && flag == FirstFlag(rest[..j]) && passwords == Secrets(rest[..j])
      {
        assert rest[..j + 1][..j] == rest[..j];
        FlagIsNoSecret(rest[j]);
        if Flag(rest[j]) {
          if flag == [] { flag := [rest[j]]; }
        } else if Secret(rest[j]) {
          passwords := passwords + [rest[j]];
        }
      }
      assert rest[..|rest|] == rest;
      lines := lines[k := LineOf(name, flag + passwords + [u.pattern, "-@all"] + u.cmds)];
      ok := true;
    }

    method ACLSetUser(name: string, rules: seq<string>) returns (err: Option<RedisError>)
      modifies `lines
      ensures err == setError
      ensures lines == if err.None? then SetUser(old(lines), name, rules) else old(lines)
    {
      if setError.Some? { return setError; }
      hide UpdateOf;
      err := None;
      var done := MergeFlag(name, rules);
      if done { return; }
      done := MergePassword(name, rules);
      if done { return; }
      var k := FindLine(name);
      if !UpdateOf(rules).SetFlag? && !UpdateOf(rules).SetPassword? {
        done := MergeGrants(name, rules);
        if done { return; }
      }
      if k < |lines| {
        lines := lines[k := LineOf(name, rules)];
      } else {
        lines := lines + [LineOf(name, rules)];
      }
    }
  }

  lemma FlagIsNoSecret(f: string)
    ensures !(Flag(f) && Secret(f))
  {
  }

  // ----- what the updates do to a parsed user -----

  /** Words of a line that was written. */
  lemma WrittenLineIsRead(name: string, fields: seq<string>)
    requires IsWord(name) && forall i :: 0 <= i < |fields| ==> IsWord(fields[i])
    ensures Words(LineOf(name, fields)) == ["user", name] + fields
  {
    assert IsWord("user");
    WordsOfJoin(["user", name] + fields);
  }

  lemma ParseWritten(name: string, fields: seq<string>, admin: string)
    requires IsWord(name) && forall i :: 0 <= i < |fields| ==> IsWord(fields[i])
    ensures Parse(LineOf(name, fields), admin) == Some(UserOf(name, ReadAll(fields), admin))
  {
    hide UserOf, ReadAll, Words, LineOf, IsWord;
    WrittenLineIsRead(name, fields);
    var ws := ["user", name] + fields;
    assert ws[0] == "user" && ws[1] == name && ws[2..] == fields;
  }

  lemma {:induction false} FlagIsReplaced(fields: seq<string>, flag: string)
    requires Flag(flag)
    ensures ReadAll(WithFlag(fields, flag)) == ReadAll(fields).(enabled := AnyFlag(fields) && flag == "on")
  {
    hide Flag, Read;
    if fields != [] {
      var n := |fields| - 1;
      var front, f := fields[..n], fields[n];
      FlagIsReplaced(front, flag);
      assert AnyFlag(fields) <==> AnyFlag(front) || Flag(f);
      var out := WithFlag(front, flag);
      assert WithFlag(fields, flag)[..|out|] == out;
      assert ReadAll(WithFlag(fields, flag)) == Read(ReadAll(out), if Flag(f) then flag else f);
      ReadAnything(ReadAll(front), f, ReadAll(out).enabled);
      ReadFlag(ReadAll(out), flag);
      if Flag(f) { ReadFlag(ReadAll(front), f); }
      hide ReadAll, WithFlag, AnyFlag;
    }
  }

  lemma {:induction false} FlaggedAreWords(fields: seq<string>, flag: string)
    requires Flag(flag) && forall i :: 0 <= i < |fields| ==> IsWord(fields[i])
    ensures forall i :: 0 <= i < |WithFlag(fields, flag)| ==> IsWord(WithFlag(fields, flag)[i])
  {
    FlagIsWord(flag);
    hide IsWord, Flag;
    if fields != [] {
      FlaggedAreWords(fields[..|fields| - 1], flag);
    }
  }

  lemma FlagIsWord(flag: string)
    requires Flag(flag)
    ensures IsWord(flag)
  {
  }

  /** A field other than a flag does not look at the enabled bit. */
  lemma ReadAnything(st: Scan, f: string, b: bool)
    ensures !Flag(f) ==> Read(st.(enabled := b), f) == Read(st, f).(enabled := b) && Read(st, f).enabled == st.enabled
  {
    KindOfFlag(f);
    TakeAnything(st, "*", b);
    TakeAnything(st, Tail(f), b);
    hide KindOf, Lower, Flag, Take, Tail;
    match KindOf(f)
    case FlagField =>
    case Ignored =>
    case AllKeys =>
    case KeyPattern =>
    case _ =>
  }

  lemma TakeAnything(st: Scan, pattern: string, b: bool)
    ensures Take(st.(enabled := b), pattern) == Take(st, pattern).(enabled := b) && Take(st, pattern).enabled == st.enabled
  {
  }

  lemma ReadFlag(st: Scan, f: string)
    requires Flag(f)
    ensures Read(st, f) == st.(enabled := f == "on")
  {
    KindOfFlag(f);
    hide KindOf, Lower, Flag;
  }

  lemma KindOfFlag(f: string)
    ensures KindOf(f).FlagField? <==> Flag(f)
  {
    hide Flag, Silent, Secret;
  }

  lemma {:induction false} FlagInFront(fields: seq<string>, flag: string)
    requires Flag(flag) && !AnyFlag(fields)
    ensures ReadAll([flag] + fields) == ReadAll(fields).(enabled := flag == "on")
  {
    hide Flag, Read;
    if fields == [] {
      assert [flag] + fields == [flag] && [flag][..0] == [];
      ReadFlag(EMPTY, flag);
    } else {
      var n := |fields| - 1;
      assert !Flag(fields[n]) && !AnyFlag(fields[..n]);
      FlagInFront(fields[..n], flag);
      assert ([flag] + fields)[..|fields|] == [flag] + fields[..n];
      ReadAnything(ReadAll(fields[..n]), fields[n], flag == "on");
      hide AnyFlag;
    }
  }

  /** SetEnabled changes only whether the user is enabled, on every line of a user. */
  lemma SetEnabledChangesOnlyEnabled(line: string, name: string, admin: string, flag: string)
    requires Names(line, name) && Flag(flag)
    ensures Parse(line, admin).Some?
    ensures Parse(LineOf(name, FlagFields(Words(line)[2..], flag)), admin) ==
            Some(Parse(line, admin).value.(enabled := flag == "on"))
  {
    hide UniqueSorted, InferPreset, Protected, ReadAll, WithFlag, Words, LineOf, Flag, IsWord;
    var rest := Words(line)[2..];
    FlagIsWord(flag);
    FlagIsReplaced(rest, flag);
    FlaggedAreWords(rest, flag);
    if !AnyFlag(rest) {
      FlagInFront(rest, flag);
    }
    ParseWritten(name, FlagFields(rest, flag), admin);
  }

  lemma SecretIsNotRead(st: Scan, f: string)
    requires Secret(f)
    ensures Read(st, f) == st
  {
    FlagIsNoSecret(f);
    hide Flag, Silent, Secret;
    assert KindOf(f) == Ignored;
  }

  lemma {:induction false} SecretsAreNotRead(fields: seq<string>)
    ensures ReadAll(WithoutSecrets(fields)) == ReadAll(fields)
    ensures forall i :: 0 <= i < |WithoutSecrets(fields)| ==> WithoutSecrets(fields)[i] in fields
  {
    hide Read, Secret;
    if fields != [] {
      var n := |fields| - 1;
      var kept := WithoutSecrets(fields[..n]);
      SecretsAreNotRead(fields[..n]);
      if Secret(fields[n]) {
        SecretIsNotRead(ReadAll(fields[..n]), fields[n]);
        assert WithoutSecrets(fields) == kept;
      } else {
        assert (kept + [fields[n]])[..|kept|] == kept;
      }
    }
  }

  lemma SecretLast(fields: seq<string>, password: string)
    requires Starts(password, '>')
    ensures ReadAll(PasswordFields(fields, password)) == ReadAll(fields)
  {
    SecretsAreNotRead(fields);
    SecretIsNotRead(ReadAll(fields), password);
    hide Read, Secret, WithoutSecrets;
    var out := PasswordFields(fields, password);
    assert out[..|out| - 1] == WithoutSecrets(fields);
  }

  /** RotateUser changes nothing in the parsed user, whatever the new password. */
  lemma RotateChangesNothing(line: string, name: string, admin: string, password: string)
    requires Names(line, name) && IsWord(password) && Starts(password, '>')
    ensures Parse(line, admin).Some?
    ensures Parse(LineOf(name, PasswordFields(Words(line)[2..], password)), admin) == Parse(line, admin)
  {
    hide UserOf, ReadAll, Words, LineOf, Read, Secret, IsWord, WithoutSecrets;
    var rest := Words(line)[2..];
    SecretsAreNotRead(rest);
    SecretLast(rest, password);
    var out := PasswordFields(rest, password);
    forall i | 0 <= i < |out| ensures IsWord(out[i]) {
      if i < |out| - 1 { assert out[i] == WithoutSecrets(rest)[i] && out[i] in rest; }
    }
    ParseWritten(name, out, admin);
  }

  // ----- updated permissions -----

  /** buildUpdateACLRules. */
  function BuildRules(pattern: string, cmds: seq<string>): seq<string> {
    ["resetkeys", "~" + pattern, "resetchannels", "nocommands", "-@all"] + Adding(cmds)
  }

  function Adding(cmds: seq<string>): seq<string> {
    seq(|cmds|, i requires 0 <= i < |cmds| => "+" + Upper(cmds[i]))
  }

  /** A rule that adds a command, and the like of it. */
  predicate AddsCommand(rule: string) { Starts(rule, '+') && !Category(rule) }

  /** Command names as uniqueSorted leaves them, and fit to stand in a line. */
  predicate CommandName(c: string) { IsWord(c) && Norm(c) == c && c[0] != '@' }

  lemma AddingIsAdding(c: string)
    requires CommandName(c)
    ensures AddsCommand("+" + Upper(c)) && IsWord("+" + Upper(c)) && Lower(Tail("+" + Upper(c))) == c
  {
    LowerOfUpper(c);
    var r := "+" + Upper(c);
    assert r[1..] == Upper(c);
    NormalIsLower(c);
    forall i | 0 <= i < |r| ensures !IsSpace(r[i]) {
      if i > 0 { UpperIsNoSpace(c[i - 1]); }
    }
  }

  lemma UpperIsNoSpace(c: char)
    requires !IsSpace(c)
    ensures !IsSpace(UpperChar(c))
  {
  }

  /** A word is its own trimmed text. */
  lemma NormalIsLower(c: string)
    requires IsWord(c) && Norm(c) == c
    ensures Lower(c) == c
  {
    assert TrimLeft(c) == c && TrimRight(c) == c;
  }

  lemma CommandRead(st: Scan, rule: string)
    requires AddsCommand(rule)
    ensures Read(st, rule) == st.(cmds := st.cmds + [Lower(Tail(rule))])
  {
    hide Lower;
  }

  lemma {:induction false} CommandsAreRead(front: seq<string>, cmds: seq<string>, n: nat)
    requires n <= |cmds| && forall i :: 0 <= i < |cmds| ==> CommandName(cmds[i])
    ensures ReadAll(front + Adding(cmds)[..n]) == ReadAll(front).(cmds := ReadAll(front).cmds + cmds[..n])
  {
    hide CommandName, Read, ReadAll, AddsCommand, Upper, Lower;
    var rules := Adding(cmds);
    if n == 0 {
      assert front + rules[..0] == front && ReadAll(front).cmds + cmds[..0] == ReadAll(front).cmds;
    } else {
      CommandsAreRead(front, cmds, n - 1);
      ReadNext(front, rules, n - 1);
      AddingIsAdding(cmds[n - 1]);
      CommandRead(ReadAll(front + rules[..n - 1]), rules[n - 1]);
      assert ReadAll(front).cmds + cmds[..n] == ReadAll(front).cmds + cmds[..n - 1] + [cmds[n - 1]];
    }
  }

  lemma ReadNext(front: seq<string>, fields: seq<string>, i: nat)
    requires i < |fields|
    ensures ReadAll(front + fields[..i + 1]) == Read(ReadAll(front + fields[..i]), fields[i])
  {
    hide Read;
    var all := front + fields[..i + 1];
    assert all[..|all| - 1] == front + fields[..i];
  }

  /** What the loop of permissionsUpdateGrants collects from the rules of an update. */
  lemma {:induction false} BuiltGrants(pattern: string, cmds: seq<string>, n: nat)
    requires n <= |cmds| && forall i :: 0 <= i < |cmds| ==> CommandName(cmds[i])
    ensures GrantsIn(BuildRules(pattern, cmds)[..5 + n]) == Some(Grants("~" + pattern, true, true, true, Adding(cmds)[..n]))
  {
    hide CommandName, GrantsIn, AddsCommand, Upper;
    var rules := BuildRules(pattern, cmds);
    if n == 0 {
      FiveRules(pattern);
      assert rules[..5] == ["resetkeys", "~" + pattern, "resetchannels", "nocommands", "-@all"];
    } else {
      hide BuildRules, Adding;
      BuiltGrants(pattern, cmds, n - 1);
      assert rules[..5 + n][..5 + n - 1] == rules[..5 + (n - 1)];
      RuleAt(pattern, cmds, n - 1);
      AddingIsAdding(cmds[n - 1]);
      AddingIsCollected(rules[..5 + n]);
      assert Adding(cmds)[..n] == Adding(cmds)[..n - 1] + [Adding(cmds)[n - 1]];
    }
  }

  lemma RuleAt(pattern: string, cmds: seq<string>, i: nat)
    requires i < |cmds|
    ensures |BuildRules(pattern, cmds)| == 5 + |cmds| && |Adding(cmds)| == |cmds|
    ensures BuildRules(pattern, cmds)[5 + i] == Adding(cmds)[i] == "+" + Upper(cmds[i])
  {
  }

  lemma FiveRules(pattern: string)
    ensures GrantsIn(["resetkeys", "~" + pattern, "resetchannels", "nocommands", "-@all"]) ==
            Some(Grants("~" + pattern, true, true, true, []))
  {
    var r := ["resetkeys", "~" + pattern, "resetchannels", "nocommands", "-@all"];
    assert r[..1][..0] == [] && r[..5] == r;
    assert r[0][0] == 'r' && r[1][0] == '~' && r[2][0] == 'r' && r[3][0] == 'n' && r[4][0] == '-';
    assert "reset"[0] == 'r' && "resetpass"[0] == 'r' && "on"[0] == 'o' && "off"[0] == 'o';
    Shorter(r, 1);
    Shorter(r, 2);
    Shorter(r, 3);
    Shorter(r, 4);
    assert GrantsIn(r[..1]) == Some(Grants("", false, false, false, []));
    assert GrantsIn(r[..2]) == Some(Grants("~" + pattern, false, false, false, []));
    assert GrantsIn(r[..3]) == Some(Grants("~" + pattern, true, false, false, []));
    assert GrantsIn(r[..4]) == Some(Grants("~" + pattern, true, true, false, []));
  }

  lemma Shorter(r: seq<string>, n: nat)
    requires n < |r|
    ensures r[..n + 1][..n] == r[..n]
  {
  }

  lemma AddingIsCollected(rules: seq<string>)
    requires rules != [] && AddsCommand(rules[|rules| - 1])
    ensures var before := GrantsIn(rules[..|rules| - 1]);
            before.Some? ==> GrantsIn(rules) == Some(before.value.(cmds := before.value.cmds + [rules[|rules| - 1]]))
  {
  }

  lemma UpdateIsRecognized(pattern: string, cmds: seq<string>)
    requires pattern != "" && forall i :: 0 <= i < |cmds| ==> CommandName(cmds[i])
    ensures UpdateOf(BuildRules(pattern, cmds)) == SetGrants("~" + pattern, Adding(cmds))
  {
    BuiltGrants(pattern, cmds, |cmds|);
    hide CommandName, GrantsIn;
    var rules := BuildRules(pattern, cmds);
    assert rules[..5 + |cmds|] == rules && Adding(cmds)[..|cmds|] == Adding(cmds);
    assert rules[0] == "resetkeys";
  }

  lemma {:induction false} SecretsAreSilent(front: seq<string>, fields: seq<string>)
    ensures ReadAll(front + Secrets(fields)) == ReadAll(front)
    ensures forall i :: 0 <= i < |Secrets(fields)| ==> Secrets(fields)[i] in fields
  {
    hide Read, ReadAll, Secret;
    if fields == [] {
      assert front + [] == front;
    } else {
      var n := |fields| - 1;
      SecretsAreSilent(front, fields[..n]);
      var kept := Secrets(fields[..n]);
      if Secret(fields[n]) {
        ReadOneMore(front, kept, fields[n]);
        SecretIsNotRead(ReadAll(front), fields[n]);
      } else {
        assert Secrets(fields) == kept;
      }
    }
  }

  lemma ReadOneMore(front: seq<string>, fields: seq<string>, f: string)
    ensures ReadAll(front + (fields + [f])) == Read(ReadAll(front + fields), f)
  {
    hide Read;
    var all := front + (fields + [f]);
    assert all[..|all| - 1] == front + fields;
  }

  lemma {:induction false} FirstFlagIsOne(fields: seq<string>)
    ensures |FirstFlag(fields)| <= 1 && (FirstFlag(fields) != [] <==> AnyFlag(fields))
    ensures forall i :: 0 <= i < |FirstFlag(fields)| ==> Flag(FirstFlag(fields)[i]) && FirstFlag(fields)[i] in fields
  {
    hide Flag;
    if fields != [] {
      FirstFlagIsOne(fields[..|fields| - 1]);
      assert AnyFlag(fields) <==> AnyFlag(fields[..|fields| - 1]) || Flag(fields[|fields| - 1]);
    }
  }

  /** Whether the first flag of the line is on. */
  predicate FirstOn(fields: seq<string>) { FirstFlag(fields) == ["on"] }

  lemma FlagsRead(fields: seq<string>)
    ensures ReadAll(FirstFlag(fields)) == EMPTY.(enabled := FirstOn(fields))
  {
    FirstFlagIsOne(fields);
    var f := FirstFlag(fields);
    if f != [] {
      assert f == [f[0]] && f[..0] == [];
      ReadFlag(EMPTY, f[0]);
    }
    hide Read, FirstFlag;
  }

  lemma PatternRead(st: Scan, pattern: string)
    requires st.pattern.None?
    ensures Read(st, "~" + pattern) == st.(pattern := Some(pattern))
  {
    var f := "~" + pattern;
    assert f[0] == '~' && f[1..] == pattern;
    assert KindOf(f) == KeyPattern;
  }

  lemma MinusAllRead(st: Scan)
    requires !st.minusAll
    ensures Read(st, "-@all") == st.(minusAll := true)
  {
    assert KindOf("-@all") == MinusAll;
  }

  /** The fields of an updated line, read. */
  lemma GrantsAreRead(fields: seq<string>, pattern: string, cmds: seq<string>)
    requires forall i :: 0 <= i < |cmds| ==> CommandName(cmds[i])
    ensures ReadAll(GrantFields(fields, "~" + pattern, Adding(cmds))) == Scan(FirstOn(fields), Some(pattern), false, true, cmds, [])
  {
    hide Read, CommandName, FirstOn, FirstFlag, Secrets;
    FlagsRead(fields);
    SecretsAreSilent(FirstFlag(fields), fields);
    var a := FirstFlag(fields) + Secrets(fields);
    var b := a + ["~" + pattern];
    assert b[..|a|] == a;
    PatternRead(ReadAll(a), pattern);
    var c := b + ["-@all"];
    assert c[..|b|] == b;
    MinusAllRead(ReadAll(b));
    CommandsAreRead(c, cmds, |cmds|);
    assert Adding(cmds)[..|cmds|] == Adding(cmds) && cmds[..|cmds|] == cmds;
    assert GrantFields(fields, "~" + pattern, Adding(cmds)) == c + Adding(cmds);
  }

  /** After an update the parsed user has exactly the requested pattern and commands, the
      preset they amount to, and exact rules; its enabled bit is the line's first flag. */
  lemma UpdateGivesWhatWasAsked(line: string, name: string, admin: string, pattern: string, cmds: seq<string>)
    requires Names(line, name) && IsWord(pattern) && UniqueSorted(cmds) == cmds && |cmds| <= MAX_COMMANDS
    requires forall i :: 0 <= i < |cmds| ==> CommandName(cmds[i])
    ensures Parse(LineOf(name, GrantFields(Words(line)[2..], "~" + pattern, Adding(cmds))), admin) ==
            Some(User(name, FirstOn(Words(line)[2..]), pattern, InferPreset(cmds), false, cmds, [], Protected(name, admin)))
  {
    hide InferPreset, Protected, ReadAll, Words, LineOf, IsWord, CommandName, FirstOn, UniqueSorted, GrantFields, Adding;
    NoNames();
    var rest := Words(line)[2..];
    NamedWords(line, name);
    GrantsAreRead(rest, pattern, cmds);
    GrantFieldsAreWords(rest, pattern, cmds);
    ParseWritten(name, GrantFields(rest, "~" + pattern, Adding(cmds)), admin);
  }

  lemma NamedWords(line: string, name: string)
    requires Names(line, name)
    ensures IsWord(name) && forall i :: 0 <= i < |Words(line)[2..]| ==> IsWord(Words(line)[2..][i])
  {
    hide IsWord, Words;
    assert IsWord(Words(line)[1]);
  }

  lemma NoNames()
    ensures UniqueSorted([]) == []
  {
    assert NormSet([]) == {};
  }

  lemma GrantFieldsAreWords(rest: seq<string>, pattern: string, cmds: seq<string>)
    requires IsWord(pattern) && forall i :: 0 <= i < |rest| ==> IsWord(rest[i])
    requires forall i :: 0 <= i < |cmds| ==> CommandName(cmds[i])
    ensures var fs := GrantFields(rest, "~" + pattern, Adding(cmds));
            forall i :: 0 <= i < |fs| ==> IsWord(fs[i])
  {
    FirstFlagIsOne(rest);
    SecretsAreSilent([], rest);
    PatternIsWord(pattern);
    forall i | 0 <= i < |cmds| ensures IsWord(Adding(cmds)[i]) {
      AddingIsAdding(cmds[i]);
    }
    assert IsWord("-@all");
    hide IsWord, CommandName, FirstFlag, Secrets, Adding;
  }

  lemma PatternIsWord(pattern: string)
    requires IsWord(pattern)
    ensures IsWord("~" + pattern)
  {
  }

  /** The last flag of a line decides whether its user is enabled. */
  function LastFlag(fields: seq<string>): seq<string> {
    if fields == [] then []
    else if Flag(fields[|fields| - 1]) then [fields[|fields| - 1]]
    else LastFlag(fields[..|fields| - 1])
  }

  lemma {:induction false} EnabledIsTheLastFlag(fields: seq<string>)
    ensures ReadAll(fields).enabled <==> LastFlag(fields) == ["on"]
  {
    hide Read, Flag;
    if fields != [] {
      var n := |fields| - 1;
      EnabledIsTheLastFlag(fields[..n]);
      ReadAnything(ReadAll(fields[..n]), fields[n], true);
      if Flag(fields[n]) { ReadFlag(ReadAll(fields[..n]), fields[n]); }
    }
  }

  /** The update keeps the enabled bit exactly when the first and the last flag of the line
      agree; "on ... off" is a line on which it does not. */
  lemma UpdateKeepsEnabledIff(line: string, name: string, admin: string, pattern: string, cmds: seq<string>)
    requires Names(line, name) && IsWord(pattern) && UniqueSorted(cmds) == cmds && |cmds| <= MAX_COMMANDS
    requires forall i :: 0 <= i < |cmds| ==> CommandName(cmds[i])
    ensures var rest := Words(line)[2..];
            var after := Parse(LineOf(name, GrantFields(rest, "~" + pattern, Adding(cmds))), admin);
            Parse(line, admin).Some? && after.Some? &&
            (after.value.enabled == Parse(line, admin).value.enabled <==>
             (FirstFlag(rest) == ["on"] <==> LastFlag(rest) == ["on"]))
  {
    UpdateGivesWhatWasAsked(line, name, admin, pattern, cmds);
    EnabledIsTheLastFlag(Words(line)[2..]);
    hide ReadAll, GrantFields, LineOf, UniqueSorted, InferPreset, Protected;
  }

  /** Such a line: the user of "user u on off" is disabled, and any update enables it. */
  lemma UpdateMayFlipEnabled(admin: string, pattern: string, cmds: seq<string>)
    requires IsWord(pattern) && UniqueSorted(cmds) == cmds && |cmds| <= MAX_COMMANDS
    requires forall i :: 0 <= i < |cmds| ==> CommandName(cmds[i])
    ensures var line := "user u on off";
            var after := SetUser([line], "u", BuildRules(pattern, cmds));
            Parse(line, admin).Some? && !Parse(line, admin).value.enabled &&
            |after| == 1 && Parse(after[0], admin).Some? && Parse(after[0], admin).value.enabled
  {
    hide UniqueSorted, CommandName, InferPreset, Protected, ReadAll, LineOf, UpdateOf, BuildRules, GrantFields, Adding, Words;
    var line := "user u on off";
    OnOffLine();
    assert Words(line)[2..] == ["on", "off"];
    UpdateKeepsEnabledIff(line, "u", admin, pattern, cmds);
    UpdateGivesWhatWasAsked(line, "u", admin, pattern, cmds);
    EnabledIsTheLastFlag(["on", "off"]);
    UpdateIsRecognized(pattern, cmds);
    assert FirstFrom([line], "u", 0) == 0;
    assert ["on", "off"][..1] == ["on"] && ["on"][..0] == [];
  }

  lemma OnOffLine()
    ensures Words("user u on off") == ["user", "u", "on", "off"]
  {
    var fields := ["on", "off"];
    assert IsWord("u") && IsWord("on") && IsWord("off");
    WrittenLineIsRead("u", fields);
    var ws := ["user", "u"] + fields;
    assert ws == ["user", "u", "on", "off"];
    assert ws[1..] == ["u", "on", "off"] && ws[1..][1..] == fields && fields[1..] == ["off"];
    assert Join(["off"], ' ') == "off";
    assert Join(fields, ' ') == "on" + [' '] + "off";
    assert Join(ws[1..], ' ') == "u" + [' '] + Join(fields, ' ');
    assert Join(ws, ' ') == "user" + [' '] + Join(ws[1..], ' ');
    assert "user" + [' '] + ("u" + [' '] + ("on" + [' '] + "off")) == "user u on off";
  }

  // ----- what the updates do to the fields of a line -----

  /** The fields of a kind, in order. */
  function Where(fields: seq<string>, keep: string -> bool): seq<string> {
    if fields == [] then []
    else Where(fields[..|fields| - 1], keep) + if keep(fields[|fields| - 1]) then [fields[|fields| - 1]] else []
  }

  predicate NoFlag(f: string) { f != "on" && f != "off" }

  predicate Password(f: string) { f == "nopass" || (f != "" && f[0] in {'#', '>', '!'}) }

  predicate NoPassword(f: string) { !Password(f) }

  lemma {:induction false} WhereJoins(a: seq<string>, b: seq<string>, keep: string -> bool)
    ensures Where(a + b, keep) == Where(a, keep) + Where(b, keep)
  {
    if b == [] {
      assert a + b == a;
    } else {
      assert (a + b)[..|a + b| - 1] == a + b[..|b| - 1];
      WhereJoins(a, b[..|b| - 1], keep);
    }
  }

  lemma {:induction false} WhereAll(fields: seq<string>, keep: string -> bool, all: bool)
    requires forall i :: 0 <= i < |fields| ==> keep(fields[i]) == all
    ensures Where(fields, keep) == if all then fields else []
  {
    if fields != [] { WhereAll(fields[..|fields| - 1], keep, all); }
  }

  lemma {:induction false} WithFlagKeepsRest(fields: seq<string>, flag: string)
    requires !NoFlag(flag)
    ensures Where(WithFlag(fields, flag), NoFlag) == Where(fields, NoFlag)
    ensures |WithFlag(fields, flag)| == |fields|
    ensures forall i :: 0 <= i < |fields| ==> WithFlag(fields, flag)[i] == if NoFlag(fields[i]) then fields[i] else flag
  {
    hide Flag, NoFlag;
    if fields != [] {
      var n := |fields| - 1;
      WithFlagKeepsRest(fields[..n], flag);
      FlagsAreFlags(fields[n]);
      var out := WithFlag(fields[..n], flag);
      var last := if NoFlag(fields[n]) then fields[n] else flag;
      assert WithFlag(fields, flag) == out + [last];
      assert (out + [last])[..n] == out;
    }
  }

  lemma FlagInFrontOf(fields: seq<string>, flag: string)
    requires !NoFlag(flag) && !AnyFlag(fields)
    ensures Where([flag] + fields, NoFlag) == Where(fields, NoFlag)
    ensures forall i :: 0 <= i < |fields| ==> NoFlag(fields[i])
  {
    WhereJoins([flag], fields, NoFlag);
    assert Where([flag], NoFlag) == [] by { assert [flag][..0] == []; }
    hide Where;
    forall i | 0 <= i < |fields| ensures NoFlag(fields[i]) { assert !Flag(fields[i]); }
  }

  lemma SomeFlag(fields: seq<string>) returns (i: nat)
    requires AnyFlag(fields)
    ensures i < |fields| && !NoFlag(fields[i])
  {
    hide Flag, NoFlag;
    i :| 0 <= i < |fields| && Flag(fields[i]);
    FlagsAreFlags(fields[i]);
  }

  /** Exactly one kind of flag is left, and it is there. */
  ghost predicate OnlyFlag(fields: seq<string>, flag: string) {
    (exists j :: 0 <= j < |fields| && fields[j] == flag) &&
    forall j :: 0 <= j < |fields| && !NoFlag(fields[j]) ==> fields[j] == flag
  }

  /** Switching a user on or off: every flag becomes the asked one, there is one, and all
      other fields stay, passwords among them. */
  lemma FlagEdit(fields: seq<string>, flag: string)
    requires !NoFlag(flag)
    ensures var out := FlagFields(fields, flag); Where(out, NoFlag) == Where(fields, NoFlag) && OnlyFlag(out, flag)
  {
    hide WithFlag, Where, NoFlag, AnyFlag;
    var out := FlagFields(fields, flag);
    if AnyFlag(fields) {
      WithFlagKeepsRest(fields, flag);
      var i := SomeFlag(fields);
      assert out[i] == flag;
    } else {
      FlagInFrontOf(fields, flag);
      assert out[0] == flag;
    }
  }

  lemma FlagsAreFlags(f: string)
    ensures Flag(f) <==> !NoFlag(f)
  {
  }

  lemma {:induction false} SecretsSplit(fields: seq<string>)
    ensures WithoutSecrets(fields) == Where(fields, NoPassword) && Secrets(fields) == Where(fields, Password)
  {
    if fields != [] { SecretsSplit(fields[..|fields| - 1]); }
  }

  lemma {:induction false} WhereTwice(fields: seq<string>, keep: string -> bool, again: string -> bool)
    requires forall f :: keep(f) ==> again(f)
    ensures Where(Where(fields, keep), again) == Where(fields, keep)
  {
    if fields != [] {
      var f := fields[|fields| - 1];
      WhereTwice(fields[..|fields| - 1], keep, again);
      WhereJoins(Where(fields[..|fields| - 1], keep), if keep(f) then [f] else [], again);
      assert Where([f], again) == (if again(f) then [f] else []) by { assert [f][..0] == []; }
    }
  }

  lemma {:induction false} WhereNot(fields: seq<string>, keep: string -> bool, other: string -> bool)
    requires forall f :: keep(f) ==> !other(f)
    ensures Where(Where(fields, keep), other) == []
  {
    if fields != [] {
      var f := fields[|fields| - 1];
      WhereNot(fields[..|fields| - 1], keep, other);
      WhereJoins(Where(fields[..|fields| - 1], keep), if keep(f) then [f] else [], other);
      assert Where([f], other) == (if other(f) then [f] else []) by { assert [f][..0] == []; }
    }
  }

  /** A new password: it is the only one, and all other fields stay. */
  lemma PasswordEdit(fields: seq<string>, password: string)
    requires Password(password)
    ensures var out := PasswordFields(fields, password);
            Where(out, NoPassword) == Where(fields, NoPassword) && Where(out, Password) == [password]
  {
    SecretsSplit(fields);
    WhereTwice(fields, NoPassword, NoPassword);
    WhereNot(fields, NoPassword, Password);
    WhereJoins(WithoutSecrets(fields), [password], NoPassword);
    WhereJoins(WithoutSecrets(fields), [password], Password);
    assert [password][..0] == [];
  }

  lemma GrantsAreNoPasswords(pattern: string, cmds: seq<string>)
    ensures Where(["~" + pattern, "-@all"] + Adding(cmds), Password) == []
  {
    var rest := ["~" + pattern, "-@all"] + Adding(cmds);
    assert ("~" + pattern)[0] == '~' && "nopass"[0] == 'n' && "-@all"[0] == '-';
    forall i | 0 <= i < |rest| ensures !Password(rest[i]) {
      if i >= 2 { assert rest[i][0] == '+'; }
    }
    hide Adding, Password;
    WhereAll(rest, Password, false);
  }

  lemma FlagsAreNoPasswords(fields: seq<string>)
    ensures Where(FirstFlag(fields), Password) == []
  {
    FirstFlagIsOne(fields);
    hide FirstFlag, Where;
    WhereAll(FirstFlag(fields), Password, false);
  }

  /** An update of the permissions keeps the passwords. */
  lemma GrantEdit(fields: seq<string>, pattern: string, cmds: seq<string>)
    ensures Where(GrantFields(fields, "~" + pattern, Adding(cmds)), Password) == Where(fields, Password)
  {
    hide Secrets, FirstFlag, Adding, Where, Password;
    SecretsSplit(fields);
    GrantsAreNoPasswords(pattern, cmds);
    FlagsAreNoPasswords(fields);
    WhereTwice(fields, Password, Password);
    var flag, rest := FirstFlag(fields), ["~" + pattern, "-@all"] + Adding(cmds);
    assert GrantFields(fields, "~" + pattern, Adding(cmds)) == flag + Secrets(fields) + rest;
    WhereJoins(flag + Secrets(fields), rest, Password);
    WhereJoins(flag, Secrets(fields), Password);
  }

  // ----- what a line says of its user -----

  predicate PatternField(f: string) { f == "allkeys" || (f != "" && f[0] == '~') }

  predicate CommandField(f: string) { f != "" && f[0] == '+' && !(|f| >= 2 && f[1] == '@') }

  predicate MinusAllField(f: string) { f == "-@all" }

  /** Fields whose meaning is known; any other makes the rules inexact. */
  predicate Readable(f: string) {
    f in {"on", "off", "sanitize-payload", "resetchannels", "resetkeys", "nocommands"} || Password(f) ||
    PatternField(f) || CommandField(f) || MinusAllField(f)
  }

  function PatternOf(f: string): string { if f == "allkeys" || f == "" then "*" else f[1..] }

  /** The commands of the fields that add one, in lower case. */
  function Added(fields: seq<string>): seq<string> {
    if fields == [] then []
    else Added(fields[..|fields| - 1]) + if CommandField(fields[|fields| - 1]) then [Lower(fields[|fields| - 1][1..])] else []
  }

  /** All fields are known, and pattern and -@all each stand once at most. */
  ghost predicate Exact(fields: seq<string>) {
    (forall i :: 0 <= i < |fields| ==> Readable(fields[i])) &&
    |Where(fields, PatternField)| <= 1 && |Where(fields, MinusAllField)| <= 1
  }

  lemma KindIsReadable(f: string)
    ensures KindOf(f).AllKeys? || KindOf(f).KeyPattern? <==> PatternField(f)
    ensures KindOf(f).Command? <==> CommandField(f)
    ensures KindOf(f).MinusAll? <==> MinusAllField(f)
    ensures KindOf(f) in {AddCategory, DropCategory, Unreadable} <==> !Readable(f)
    ensures KindOf(f).AllKeys? ==> PatternOf(f) == "*"
    ensures KindOf(f).KeyPattern? ==> PatternOf(f) == Tail(f)
  {
    FirstChars();
  }

  /** The words that are read as a whole, by their first characters. */
  lemma FirstChars()
    ensures "on"[0] == 'o' && "off"[0] == 'o' && "nopass"[0] == 'n' && "allkeys"[0] == 'a' && "-@all"[0] == '-' && "-@all"[1] == '@'
    ensures "sanitize-payload"[0] == 's' && "resetchannels"[0] == 'r' && "resetkeys"[0] == 'r' && "nocommands"[0] == 'n'
  {
  }

  lemma ExactStep(fields: seq<string>)
    requires fields != []
    ensures var n, f := |fields| - 1, fields[|fields| - 1];
            Exact(fields) <==> Exact(fields[..n]) && Readable(f) && (PatternField(f) ==> Where(fields[..n], PatternField) == []) &&
                               (MinusAllField(f) ==> Where(fields[..n], MinusAllField) == [])
  {
    hide Readable, PatternField, MinusAllField;
    var n := |fields| - 1;
    assert forall i :: 0 <= i < n ==> fields[..n][i] == fields[i];
  }

  /** One field more. */
  lemma ReadMeans(st: Scan, f: string)
    ensures var n := Read(st, f);
            n.pattern == (if PatternField(f) && st.pattern.None? then Some(PatternOf(f)) else st.pattern) &&
            n.cmds == (if CommandField(f) then st.cmds + [Lower(f[1..])] else st.cmds) &&
            (n.minusAll <==> st.minusAll || MinusAllField(f)) &&
            (n.limited <==> st.limited || !Readable(f) || (PatternField(f) && st.pattern.Some?) || (MinusAllField(f) && st.minusAll)) &&
            (n.cats != st.cats ==> n.limited)
  {
    KindIsReadable(f);
    assert CommandField(f) ==> Tail(f) == f[1..];
    hide Readable, PatternField, MinusAllField, CommandField, KindOf, Lower, PatternOf, Tail;
  }

  /** What the loop over the fields knows at its end. */
  lemma {:induction false} ReadAllMeans(fields: seq<string>)
    ensures var st, patterns := ReadAll(fields), Where(fields, PatternField);
            st.pattern == (if patterns == [] then None else Some(PatternOf(patterns[0]))) &&
            st.cmds == Added(fields) && (st.minusAll <==> Where(fields, MinusAllField) != []) && (st.limited <==> !Exact(fields)) &&
            (st.cats != [] ==> st.limited)
  {
    hide Read, Readable, PatternField, MinusAllField, CommandField, PatternOf, Lower, Exact;
    if fields == [] {
      NothingIsExact();
    } else {
      var n, f := |fields| - 1, fields[|fields| - 1];
      ReadAllMeans(fields[..n]);
      ExactStep(fields);
      ReadMeans(ReadAll(fields[..n]), f);
    }
  }

  lemma NothingIsExact()
    ensures Exact([])
  {
  }

  /** What parseACLLine makes of a line: the user is enabled if the last flag is "on", has the
      first key pattern and the commands added, and its rules are exact if and only if every
      field is known, at most one gives a pattern and one is -@all, and the commands are not
      too many. */
  lemma ParseMeans(line: string, admin: string)
    requires IsUserLine(Words(line))
    ensures Parse(line, admin).Some?
    ensures var u, fields := Parse(line, admin).value, Words(line)[2..];
            var patterns, cmds := Where(fields, PatternField), UniqueSorted(Added(fields));
            u.username == Words(line)[1] && (u.enabled <==> LastFlag(fields) == ["on"]) &&
            u.keyPattern == (if patterns == [] then "" else PatternOf(patterns[0])) &&
            u.commands == (if |cmds| <= 256 then cmds else cmds[..256]) &&
            (!u.limited <==> Exact(fields) && |cmds| <= 256) &&
            u.preset == (if u.limited then Custom else InferPreset(cmds))
  {
    hide UniqueSorted, InferPreset, ReadAll, Exact, Added, Words, Protected, Where, LastFlag, PatternOf;
    var fields := Words(line)[2..];
    ReadAllMeans(fields);
    EnabledIsTheLastFlag(fields);
    NoNames();
  }
}
