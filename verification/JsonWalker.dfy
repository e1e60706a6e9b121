/** The bounded walk over a backup manifest's JSON tokens (backup/parse.go). */
module JsonWalker {
  import opened Prelude

  const MAX_DEPTH := 32
  const MAX_TOKENS := 32768
  const MAX_ARTIFACTS := 1024
  const MANIFEST := "$manifest"
  const ARTIFACTS := "artifacts"

  /** What json.Decoder.Token returns; Plain is a number, a boolean or null. */
  datatype Token = OpenObject | CloseObject | OpenArray | CloseArray | Word(text: string) | Plain(text: string)

  predicate Closer(t: Token) { t.CloseObject? || t.CloseArray? }

  function Allowed(context: string, key: string): bool {
    match context
    case "$manifest" =>
      key in {"schema_version", "backup_set_id", "completed_at", "cluster", "artifacts", "off_host", "restore", "redgres"}
    case "cluster" => key == "system_identifier"
    case "artifacts" => key in {"kind", "name", "sha256", "size_bytes", "path"}
    case "off_host" => key in {"completed", "copied_at"}
    case "restore" => key in {"isolated", "outcome", "backup_set_id", "completed_at"}
    case "redgres" => key in {"version", "compatibility_policy_revision"}
    case _ => false
  }

  const SECRETS := {"password", "token", "url", "secret", "credential"}

  function Lower(s: string): string {
    seq(|s|, i requires 0 <= i < |s| => if 'A' <= s[i] <= 'Z' then s[i] - 'A' + 'a' else s[i])
  }

  // ----- JSON trees -----

  datatype Json = Leaf(token: Token) | Array(items: Items) | Object(members: Members)
  datatype Items = NoItems | Item(head: Json, tail: Items)
  datatype Members = NoMembers | Member(key: string, value: Json, tail: Members)

  function Tokens(j: Json): seq<Token> {
    match j
    case Leaf(t) => [t]
    case Array(items) => [OpenArray] + ItemTokens(items) + [CloseArray]
    case Object(members) => [OpenObject] + MemberTokens(members) + [CloseObject]
  }

  function ItemTokens(l: Items): seq<Token> {
    match l
    case NoItems => []
    case Item(j, rest) => Tokens(j) + ItemTokens(rest)
  }

  function MemberTokens(l: Members): seq<Token> {
    match l
    case NoMembers => []
    case Member(key, j, rest) => [Word(key)] + Tokens(j) + MemberTokens(rest)
  }

  function Count(l: Items): nat {
    if l.NoItems? then 0 else 1 + Count(l.tail)
  }

  function Keys(l: Members): set<string> {
    if l.NoMembers? then {} else {l.key} + Keys(l.tail)
  }

  /** What a manifest's JSON value may look like, at a nesting depth under a field name:
      not too deep, no more artifacts than the limit, and in every object distinct keys
      that belong to the field and are not secret names. */
  predicate Fits(j: Json, depth: nat, field: string) {
    depth <= MAX_DEPTH &&
    match j
    case Leaf(t) => t.Word? || t.Plain?
    case Array(items) => (field == ARTIFACTS ==> Count(items) <= MAX_ARTIFACTS) && ItemsFit(items, depth, field)
    case Object(members) => MembersFit(members, depth, field)
  }

  predicate ItemsFit(l: Items, depth: nat, field: string) {
    match l
    case NoItems => true
    case Item(j, rest) => Fits(j, depth + 1, field) && ItemsFit(rest, depth, field)
  }

  predicate MembersFit(l: Members, depth: nat, field: string) {
    match l
    case NoMembers => true
    case Member(key, j, rest) =>
      key !in Keys(rest) && Allowed(field, key) && Lower(key) !in SECRETS &&
      Fits(j, depth + 1, key) && MembersFit(rest, depth, field)
  }

  predicate NoCapitals(s: string) { forall i :: 0 <= i < |s| ==> !('A' <= s[i] <= 'Z') }

  lemma LowerKeeps(s: string)
    requires NoCapitals(s)
    ensures Lower(s) == s
  {
  }

  const KEYS := {"schema_version", "backup_set_id", "completed_at", "cluster", "artifacts", "off_host", "restore", "redgres",
    "system_identifier", "kind", "name", "sha256", "size_bytes", "path", "completed", "copied_at",
    "isolated", "outcome", "version", "compatibility_policy_revision"}

  lemma AllowedIsAKey(context: string, key: string)
    requires Allowed(context, key)
    ensures key in KEYS
  {
  }

  lemma KeyHasNoCapitals(key: string)
    requires key in KEYS
    ensures NoCapitals(key)
  {
  }

  lemma KeyIsNotSecret(key: string)
    requires key in KEYS
    ensures key !in SECRETS
  {
  }

  /** The fields of a manifest, by the field they stand under. */
  lemma AllowedFieldsAre(context: string, key: string)
    ensures Allowed(context, key) <==>
            (context, key) in {
              ("$manifest", "schema_version"), ("$manifest", "backup_set_id"), ("$manifest", "completed_at"),
              ("$manifest", "cluster"), ("$manifest", "artifacts"), ("$manifest", "off_host"), ("$manifest", "restore"),
              ("$manifest", "redgres"), ("cluster", "system_identifier"), ("artifacts", "kind"), ("artifacts", "name"),
              ("artifacts", "sha256"), ("artifacts", "size_bytes"), ("artifacts", "path"), ("off_host", "completed"),
              ("off_host", "copied_at"), ("restore", "isolated"), ("restore", "outcome"), ("restore", "backup_set_id"),
              ("restore", "completed_at"), ("redgres", "version"), ("redgres", "compatibility_policy_revision")}
  {
    assert "$manifest"[0] == '$' && "cluster"[0] == 'c' && "artifacts"[0] == 'a' && "off_host"[0] == 'o';
    assert "restore"[0] == 'r' && "restore"[2] == 's' && "redgres"[0] == 'r' && "redgres"[2] == 'd';
  }

  /** The secret-name check never decides anything: every allowed key passes it. */
  lemma AllowedIsNotSecret(context: string, key: string)
    requires Allowed(context, key)
    ensures Lower(key) !in SECRETS
  {
    hide Allowed, Lower, NoCapitals;
    AllowedIsAKey(context, key);
    KeyHasNoCapitals(key);
    LowerKeeps(key);
    KeyIsNotSecret(key);
  }

  // ----- the walk -----

  predicate More(ts: seq<Token>, at: nat) {
    at < |ts| && !Closer(ts[at])
  }

  /** Where a walk that starts at a position ends; None is a refusal. */
  function Value(ts: seq<Token>, at: nat, left: nat, depth: nat, field: string): (end: Option<nat>)
    requires at <= |ts|
    ensures end.Some? ==> at < end.value <= |ts| && end.value - at <= left
    decreases |ts| - at, 0
  {
    if depth > MAX_DEPTH || left == 0 || at == |ts| then None
    else
      match ts[at]
      case OpenObject => Fields(ts, at + 1, left - 1, depth, field, {})
      case OpenArray => Elements(ts, at + 1, left - 1, depth, field, 0)
      case Word(_) => Some(at + 1)
      case Plain(_) => Some(at + 1)
      case _ => None
  }

  function Fields(ts: seq<Token>, at: nat, left: nat, depth: nat, field: string, seen: set<string>): (end: Option<nat>)
    requires at <= |ts|
    ensures end.Some? ==> at < end.value <= |ts| && end.value - at <= left
    decreases |ts| - at, 1
  {
    if !More(ts, at) then
      if left == 0 || at == |ts| || ts[at] != CloseObject then None else Some(at + 1)
    else if left == 0 || !ts[at].Word? || ts[at].text in seen then None
    else if !Allowed(field, ts[at].text) || Lower(ts[at].text) in SECRETS then None
    else
      var next := Value(ts, at + 1, left - 1, depth + 1, ts[at].text);
      if next.None? then None
      else Fields(ts, next.value, left - (next.value - at), depth, field, seen + {ts[at].text})
  }

  function Elements(ts: seq<Token>, at: nat, left: nat, depth: nat, field: string, count: nat): (end: Option<nat>)
    requires at <= |ts|
    ensures end.Some? ==> at < end.value <= |ts| && end.value - at <= left
    decreases |ts| - at, 1
  {
    if !More(ts, at) then
      if left == 0 || at == |ts| || ts[at] != CloseArray then None else Some(at + 1)
    else if field == ARTIFACTS && count + 1 > MAX_ARTIFACTS then None
    else
      var next := Value(ts, at, left, depth + 1, field);
      if next.None? then None
      else Elements(ts, next.value, left - (next.value - at), depth, field, count + 1)
  }

  /** json.Decoder over a text, as the tokens it yields before its end or its first error. */
  class Decoder {
    const tokens: seq<Token>
    var pos: nat

    constructor (tokens: seq<Token>)
      ensures this.tokens == tokens && pos == 0
    {
      this.tokens, pos := tokens, 0;
    }

    method Next() returns (t: Option<Token>)
      requires pos <= |tokens|
      modifies this
      ensures old(pos) == |tokens| ==> t.None? && pos == old(pos)
      ensures old(pos) < |tokens| ==> t == Some(tokens[old(pos)]) && pos == old(pos) + 1
    {
      if pos == |tokens| { return None; }
      t, pos := Some(tokens[pos]), pos + 1;
    }
  }

  class Budget {
    var tokens: nat
    constructor ()
      ensures tokens == 0
    {
      tokens := 0;
    }
  }

  method NextToken(dec: Decoder, budget: Budget) returns (t: Option<Token>)
    requires dec.pos <= |dec.tokens| && budget.tokens <= MAX_TOKENS
    modifies dec, budget
    ensures dec.pos <= |dec.tokens|
    ensures t.Some? <==> old(budget.tokens) < MAX_TOKENS && old(dec.pos) < |dec.tokens|
    ensures t.Some? ==> t.value == dec.tokens[old(dec.pos)] && dec.pos == old(dec.pos) + 1 &&
                        budget.tokens == old(budget.tokens) + 1 <= MAX_TOKENS
  {
    budget.tokens := budget.tokens + 1;
    if budget.tokens > MAX_TOKENS { return None; }
    t := dec.Next();
  }

  method Walk(dec: Decoder, budget: Budget, depth: nat, field: string) returns (ok: bool)
    requires dec.pos <= |dec.tokens| && budget.tokens <= MAX_TOKENS
    modifies dec, budget
    ensures dec.pos <= |dec.tokens|
    ensures var end := Value(dec.tokens, old(dec.pos), MAX_TOKENS - old(budget.tokens), depth, field);
            (ok <==> end.Some?) &&
            (ok ==> dec.pos == end.value && budget.tokens == old(budget.tokens) + (end.value - old(dec.pos)) <= MAX_TOKENS)
    decreases MAX_TOKENS - budget.tokens, 0
  {
    hide Fields, Elements;
    if depth > MAX_DEPTH { return false; }
    var token := NextToken(dec, budget);
    if token.None? { return false; }
    match token.value
    case OpenObject => ok := WalkFields(dec, budget, depth, field);
    case OpenArray => ok := WalkElements(dec, budget, depth, field);
    case Word(_) => ok := true;
    case Plain(_) => ok := true;
    case _ => ok := false;
  }

  /** The '{' case of walkJSONValue. */
  method WalkFields(dec: Decoder, budget: Budget, depth: nat, field: string) returns (ok: bool)
    requires dec.pos <= |dec.tokens| && budget.tokens <= MAX_TOKENS
    modifies dec, budget
    ensures dec.pos <= |dec.tokens|
    ensures var end := Fields(dec.tokens, old(dec.pos), MAX_TOKENS - old(budget.tokens), depth, field, {});
            (ok <==> end.Some?) &&
            (ok ==> dec.pos == end.value && budget.tokens == old(budget.tokens) + (end.value - old(dec.pos)) <= MAX_TOKENS)
    decreases MAX_TOKENS - budget.tokens, 1
  {
    hide Allowed, Lower, Value;
    ghost var ts, pos0, used := dec.tokens, dec.pos, budget.tokens;
    var seen: set<string> := {};
    while More(dec.tokens, dec.pos)
      invariant pos0 <= dec.pos <= |ts| && budget.tokens == used + (dec.pos - pos0) <= MAX_TOKENS
      invariant Fields(ts, dec.pos, MAX_TOKENS - budget.tokens, depth, field, seen) ==
                Fields(ts, pos0, MAX_TOKENS - used, depth, field, {})
      decreases |ts| - dec.pos
    {
      var key := NextToken(dec, budget);
      if key.None? || !key.value.Word? { return false; }
      var name := key.value.text;
      if name in seen { return false; }
      if !Allowed(field, name) { return false; }
      seen := seen + {name};
      if Lower(name) in SECRETS { return false; }
      ok := Walk(dec, budget, depth + 1, name);
      if !ok { return; }
    }
    var end := NextToken(dec, budget);
    return end == Some(CloseObject);
  }

  /** The '[' case of walkJSONValue. */
  method WalkElements(dec: Decoder, budget: Budget, depth: nat, field: string) returns (ok: bool)
    requires dec.pos <= |dec.tokens| && budget.tokens <= MAX_TOKENS
    modifies dec, budget
    ensures dec.pos <= |dec.tokens|
    ensures var end := Elements(dec.tokens, old(dec.pos), MAX_TOKENS - old(budget.tokens), depth, field, 0);
            (ok <==> end.Some?) &&
            (ok ==> dec.pos == end.value && budget.tokens == old(budget.tokens) + (end.value - old(dec.pos)) <= MAX_TOKENS)
    decreases MAX_TOKENS - budget.tokens, 1
  {
    hide Value;
    ghost var ts, pos0, used := dec.tokens, dec.pos, budget.tokens;
    var count := 0;
    while More(dec.tokens, dec.pos)
      invariant pos0 <= dec.pos <= |ts| && budget.tokens == used + (dec.pos - pos0) <= MAX_TOKENS
      invariant Elements(ts, dec.pos, MAX_TOKENS - budget.tokens, depth, field, count) ==
                Elements(ts, pos0, MAX_TOKENS - used, depth, field, 0)
      decreases |ts| - dec.pos
    {
      count := count + 1;
      if field == ARTIFACTS && count > MAX_ARTIFACTS { return false; }
      ok := Walk(dec, budget, depth + 1, field);
      if !ok { return; }
    }
    var end := NextToken(dec, budget);
    return end == Some(CloseArray);
  }

  // ----- the walk accepts exactly the trees that fit -----

  /** The tokens from a position on begin with the given ones. */
  predicate Reads(ts: seq<Token>, at: nat, s: seq<Token>) {
    at + |s| <= |ts| && ts[at..at + |s|] == s
  }

  lemma ReadsJoin(ts: seq<Token>, at: nat, a: seq<Token>, b: seq<Token>)
    ensures Reads(ts, at, a + b) <==> Reads(ts, at, a) && Reads(ts, at + |a|, b)
  {
    if Reads(ts, at, a + b) {
      var s := ts[at..at + |a + b|];
      assert ts[at..at + |a|] == s[..|a|] == a;
      assert ts[at + |a|..at + |a| + |b|] == s[|a|..] == b;
    }
    if Reads(ts, at, a) && Reads(ts, at + |a|, b) {
      assert ts[at..at + |a + b|] == ts[at..at + |a|] + ts[at + |a|..at + |a| + |b|];
    }
  }

  lemma ReadsFirst(ts: seq<Token>, at: nat, t: Token)
    ensures Reads(ts, at, [t]) <==> at < |ts| && ts[at] == t
  {
  }

  /** An accepted walk has consumed the tokens of a tree that fits. */
  lemma {:induction false} WalkedTreeFits(ts: seq<Token>, at: nat, left: nat, depth: nat, field: string) returns (j: Json)
    requires at <= |ts| && Value(ts, at, left, depth, field).Some?
    ensures Reads(ts, at, Tokens(j)) && at + |Tokens(j)| == Value(ts, at, left, depth, field).value && Fits(j, depth, field)
    decreases |ts| - at, 0
  {
    hide Reads, Allowed, Fields, Elements;
    ReadsFirst(ts, at, ts[at]);
    match ts[at]
    case OpenObject =>
      var l := WalkedMembersFit(ts, at + 1, left - 1, depth, field, {});
      j := Object(l);
      ReadsJoin(ts, at, [OpenObject], MemberTokens(l) + [CloseObject]);
      assert [OpenObject] + (MemberTokens(l) + [CloseObject]) == Tokens(j);
    case OpenArray =>
      var l := WalkedItemsFit(ts, at + 1, left - 1, depth, field, 0);
      j := Array(l);
      ReadsJoin(ts, at, [OpenArray], ItemTokens(l) + [CloseArray]);
      assert [OpenArray] + (ItemTokens(l) + [CloseArray]) == Tokens(j);
    case Word(_) => j := Leaf(ts[at]);
    case Plain(_) => j := Leaf(ts[at]);
  }

  lemma {:induction false} WalkedMembersFit(ts: seq<Token>, at: nat, left: nat, depth: nat, field: string, seen: set<string>)
    returns (l: Members)
    requires at <= |ts| && Fields(ts, at, left, depth, field, seen).Some?
    ensures Reads(ts, at, MemberTokens(l) + [CloseObject])
    ensures at + |MemberTokens(l)| + 1 == Fields(ts, at, left, depth, field, seen).value
    ensures MembersFit(l, depth, field) && Keys(l) !! seen
    decreases |ts| - at, 1
  {
    hide Reads, Allowed, Lower, Value;
    ReadsFirst(ts, at, ts[at]);
    if !More(ts, at) {
      l := NoMembers;
      assert MemberTokens(l) + [CloseObject] == [CloseObject];
    } else {
      var key := ts[at].text;
      var next := Value(ts, at + 1, left - 1, depth + 1, key).value;
      var j := WalkedTreeFits(ts, at + 1, left - 1, depth + 1, key);
      var rest := WalkedMembersFit(ts, next, left - (next - at), depth, field, seen + {key});
      l := Member(key, j, rest);
      var tail := MemberTokens(rest) + [CloseObject];
      ReadsJoin(ts, at + 1, Tokens(j), tail);
      ReadsJoin(ts, at, [Word(key)], Tokens(j) + tail);
      assert [Word(key)] + (Tokens(j) + tail) == MemberTokens(l) + [CloseObject];
    }
  }

  lemma {:induction false} WalkedItemsFit(ts: seq<Token>, at: nat, left: nat, depth: nat, field: string, count: nat)
    returns (l: Items)
    requires at <= |ts| && Elements(ts, at, left, depth, field, count).Some?
    ensures Reads(ts, at, ItemTokens(l) + [CloseArray])
    ensures at + |ItemTokens(l)| + 1 == Elements(ts, at, left, depth, field, count).value
    ensures ItemsFit(l, depth, field) && (field == ARTIFACTS && count <= MAX_ARTIFACTS ==> count + Count(l) <= MAX_ARTIFACTS)
    decreases |ts| - at, 1
  {
    hide Reads, Allowed, Value;
    ReadsFirst(ts, at, ts[at]);
    if !More(ts, at) {
      l := NoItems;
      assert ItemTokens(l) + [CloseArray] == [CloseArray];
    } else {
      var next := Value(ts, at, left, depth + 1, field).value;
      var j := WalkedTreeFits(ts, at, left, depth + 1, field);
      var rest := WalkedItemsFit(ts, next, left - (next - at), depth, field, count + 1);
      l := Item(j, rest);
      var tail := ItemTokens(rest) + [CloseArray];
      ReadsJoin(ts, at, Tokens(j), tail);
      assert Tokens(j) + tail == ItemTokens(l) + [CloseArray];
    }
  }

  /** The tokens of a tree that fits, with enough budget, are walked to their end. */
  lemma {:induction false} FittingTreeIsWalked(ts: seq<Token>, at: nat, left: nat, depth: nat, field: string, j: Json)
    requires Fits(j, depth, field) && |Tokens(j)| <= left && Reads(ts, at, Tokens(j))
    ensures Value(ts, at, left, depth, field) == Some(at + |Tokens(j)|)
    decreases j, 0
  {
    assert at + |Tokens(j)| <= |ts|;
    hide Reads, Allowed, Fields, Elements;
    match j
    case Leaf(t) => ReadsFirst(ts, at, t);
    case Array(items) =>
      assert [OpenArray] + (ItemTokens(items) + [CloseArray]) == Tokens(j);
      ReadsJoin(ts, at, [OpenArray], ItemTokens(items) + [CloseArray]);
      ReadsFirst(ts, at, OpenArray);
      FittingItemsAreWalked(ts, at + 1, left - 1, depth, field, 0, items);
    case Object(members) =>
      assert [OpenObject] + (MemberTokens(members) + [CloseObject]) == Tokens(j);
      ReadsJoin(ts, at, [OpenObject], MemberTokens(members) + [CloseObject]);
      ReadsFirst(ts, at, OpenObject);
      FittingMembersAreWalked(ts, at + 1, left - 1, depth, field, {}, members);
  }

  lemma {:induction false} FittingMembersAreWalked(ts: seq<Token>, at: nat, left: nat, depth: nat, field: string,
                                                   seen: set<string>, l: Members)
    requires at <= |ts| && MembersFit(l, depth, field) && Keys(l) !! seen && |MemberTokens(l)| + 1 <= left
    requires Reads(ts, at, MemberTokens(l) + [CloseObject])
    ensures Fields(ts, at, left, depth, field, seen) == Some(at + |MemberTokens(l)| + 1)
    decreases l, 1
  {
    hide Reads, Allowed, Lower, Value, Fits;
    match l
    case NoMembers =>
      assert MemberTokens(l) + [CloseObject] == [CloseObject];
      ReadsFirst(ts, at, CloseObject);
    case Member(key, j, rest) =>
      var tail := MemberTokens(rest) + [CloseObject];
      assert [Word(key)] + (Tokens(j) + tail) == MemberTokens(l) + [CloseObject];
      ReadsJoin(ts, at, [Word(key)], Tokens(j) + tail);
      ReadsFirst(ts, at, Word(key));
      ReadsJoin(ts, at + 1, Tokens(j), tail);
      FittingTreeIsWalked(ts, at + 1, left - 1, depth + 1, key, j);
      FittingMembersAreWalked(ts, at + 1 + |Tokens(j)|, left - 1 - |Tokens(j)|, depth, field, seen + {key}, rest);
  }

  lemma {:induction false} FittingItemsAreWalked(ts: seq<Token>, at: nat, left: nat, depth: nat, field: string,
                                                 count: nat, l: Items)
    requires at <= |ts| && ItemsFit(l, depth, field) && (field == ARTIFACTS ==> count + Count(l) <= MAX_ARTIFACTS)
    requires |ItemTokens(l)| + 1 <= left && Reads(ts, at, ItemTokens(l) + [CloseArray])
    ensures Elements(ts, at, left, depth, field, count) == Some(at + |ItemTokens(l)| + 1)
    decreases l, 1
  {
    hide Reads, Value, Fits;
    match l
    case NoItems =>
      assert ItemTokens(l) + [CloseArray] == [CloseArray];
      ReadsFirst(ts, at, CloseArray);
    case Item(j, rest) =>
      var tail := ItemTokens(rest) + [CloseArray];
      assert Tokens(j) + tail == ItemTokens(l) + [CloseArray];
      ReadsJoin(ts, at, Tokens(j), tail);
      FirstToken(ts, at, j, depth + 1, field);
      FittingTreeIsWalked(ts, at, left, depth + 1, field, j);
      FittingItemsAreWalked(ts, at + |Tokens(j)|, left - |Tokens(j)|, depth, field, count + 1, rest);
  }

  lemma FirstToken(ts: seq<Token>, at: nat, j: Json, depth: nat, field: string)
    requires Fits(j, depth, field) && Reads(ts, at, Tokens(j))
    ensures More(ts, at)
  {
    assert ts[at] == Tokens(j)[0];
  }

  /** The walk from a position accepts and ends at another exactly when the tokens between
      are those of a tree that fits and the budget covers them. */
  lemma WalkIsExact(ts: seq<Token>, at: nat, left: nat, depth: nat, field: string, end: nat)
    requires at <= |ts|
    ensures Value(ts, at, left, depth, field) == Some(end) <==>
            at <= end <= |ts| && end - at <= left && exists j :: Tokens(j) == ts[at..end] && Fits(j, depth, field)
  {
    hide Value, Fits, Tokens;
    if Value(ts, at, left, depth, field) == Some(end) {
      var j := WalkedTreeFits(ts, at, left, depth, field);
    }
    if at <= end <= |ts| && end - at <= left {
      forall j | Tokens(j) == ts[at..end] && Fits(j, depth, field) ensures Value(ts, at, left, depth, field) == Some(end) {
        FittingTreeIsWalked(ts, at, left, depth, field, j);
      }
    }
  }

  /** How many arrays and objects lie around the innermost value. */
  function Height(j: Json): nat {
    match j
    case Leaf(_) => 0
    case Array(items) => ItemsHeight(items)
    case Object(members) => MembersHeight(members)
  }

  function ItemsHeight(l: Items): nat {
    if l.NoItems? then 0
    else if 1 + Height(l.head) > ItemsHeight(l.tail) then 1 + Height(l.head) else ItemsHeight(l.tail)
  }

  function MembersHeight(l: Members): nat {
    if l.NoMembers? then 0
    else if 1 + Height(l.value) > MembersHeight(l.tail) then 1 + Height(l.value) else MembersHeight(l.tail)
  }

  /** A tree that fits is nested at most 32 deep. */
  lemma {:induction false} FitsIsShallow(j: Json, depth: nat, field: string)
    requires Fits(j, depth, field)
    ensures depth + Height(j) <= 32
    decreases j
  {
    match j
    case Leaf(_) =>
    case Array(items) => ItemsAreShallow(items, depth, field);
    case Object(members) => MembersAreShallow(members, depth, field);
  }

  lemma {:induction false} ItemsAreShallow(l: Items, depth: nat, field: string)
    requires ItemsFit(l, depth, field) && depth <= MAX_DEPTH
    ensures depth + ItemsHeight(l) <= 32
    decreases l
  {
    if l.Item? {
      FitsIsShallow(l.head, depth + 1, field);
      ItemsAreShallow(l.tail, depth, field);
    }
  }

  lemma {:induction false} MembersAreShallow(l: Members, depth: nat, field: string)
    requires MembersFit(l, depth, field) && depth <= MAX_DEPTH
    ensures depth + MembersHeight(l) <= 32
    decreases l
  {
    if l.Member? {
      FitsIsShallow(l.value, depth + 1, l.key);
      MembersAreShallow(l.tail, depth, field);
    }
  }

  /** validateJSONBounds: accepts exactly the token streams of one fitting manifest tree of
      at most MAX_TOKENS tokens. */
  method ValidateBounds(tokens: seq<Token>) returns (ok: bool)
    ensures ok <==> |tokens| <= 32768 && exists j :: Tokens(j) == tokens && Fits(j, 0, MANIFEST)
  {
    var dec := new Decoder(tokens);
    var budget := new Budget();
    assert tokens[0..|tokens|] == tokens;
    WalkIsExact(tokens, 0, MAX_TOKENS, 0, MANIFEST, |tokens|);
    ok := Walk(dec, budget, 0, MANIFEST);
    if !ok { return; }
    var trailing := dec.Next();
    ok := trailing.None?;
  }
}
