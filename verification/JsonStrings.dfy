/** The scan that lets only well-formed JSON strings pass (backup/parse.go). */
module JsonStrings {
  import opened Prelude

  const QUOTE: byte := 0x22
  const BACKSLASH: byte := 0x5C
  const LETTER_U: byte := 0x75
  /** " \ / b f n r t */
  const ESCAPES: set<byte> := {0x22, 0x5C, 0x2F, 0x62, 0x66, 0x6E, 0x72, 0x74}

  // ----- the grammar: section 7 of RFC 8259, surrogates paired -----

  predicate HexDigit(b: byte) { 0x30 <= b <= 0x39 || 0x41 <= b <= 0x46 || 0x61 <= b <= 0x66 }

  function HexValue(b: byte): nat
    requires HexDigit(b)
  {
    if b <= 0x39 then b - 0x30 else if b <= 0x46 then b - 0x41 + 10 else b - 0x61 + 10
  }

  /** The four hexadecimal digits of a \u escape. */
  datatype Unit = Unit(d0: byte, d1: byte, d2: byte, d3: byte) {
    predicate Hex() { HexDigit(d0) && HexDigit(d1) && HexDigit(d2) && HexDigit(d3) }

    function Code(): (v: nat)
      requires Hex()
      ensures v < 0x10000
    {
      ((HexValue(d0) * 16 + HexValue(d1)) * 16 + HexValue(d2)) * 16 + HexValue(d3)
    }

    predicate High() { Hex() && 0xD800 <= Code() <= 0xDBFF }

    predicate Low() { Hex() && 0xDC00 <= Code() <= 0xDFFF }

    function Bytes(): seq<byte> { [BACKSLASH, LETTER_U, d0, d1, d2, d3] }
  }

  datatype Char = Plain(b: byte) | Escape(b: byte) | Escaped(u: Unit) | Pair(high: Unit, low: Unit) {
    predicate Valid() {
      match this
      case Plain(b) => b >= 0x20 && b != QUOTE && b != BACKSLASH
      case Escape(b) => b in ESCAPES
      case Escaped(u) => u.Hex() && !u.High() && !u.Low()
      case Pair(h, l) => h.High() && l.Low()
    }

    function Bytes(): seq<byte> {
      match this
      case Plain(b) => [b]
      case Escape(b) => [BACKSLASH, b]
      case Escaped(u) => u.Bytes()
      case Pair(h, l) => h.Bytes() + l.Bytes()
    }
  }

  /** A text is bytes other than quotes, and strings in between. */
  datatype Text = End | Other(b: byte, rest: Text) | Open(body: Body)
  datatype Body = Close(rest: Text) | Next(c: Char, more: Body)

  predicate Valid(t: Text) {
    match t
    case End => true
    case Other(b, rest) => b != QUOTE && Valid(rest)
    case Open(body) => ValidBody(body)
  }

  predicate ValidBody(b: Body) {
    match b
    case Close(rest) => Valid(rest)
    case Next(c, more) => c.Valid() && ValidBody(more)
  }

  function Bytes(t: Text): seq<byte> {
    match t
    case End => []
    case Other(b, rest) => [b] + Bytes(rest)
    case Open(body) => [QUOTE] + BodyBytes(body)
  }

  function BodyBytes(b: Body): seq<byte> {
    match b
    case Close(rest) => [QUOTE] + Bytes(rest)
    case Next(c, more) => c.Bytes() + BodyBytes(more)
  }

  // ----- the scan -----

  /** jsonHexUnit. */
  method HexUnit(raw: array<byte>, start: nat) returns (value: nat, ok: bool)
    ensures ok <==> UnitAt(raw[..], start).Some?
    ensures ok ==> value == UnitAt(raw[..], start).value.Code()
  {
    value := 0;
    if start + 4 > raw.Length { return 0, false; }
    ghost var s := raw[..];
    for k := start to start + 4
      invariant forall m :: start <= m < k ==> HexDigit(s[m])
      invariant value == Prefix(s, start, k)
    {
      if !HexDigit(raw[k]) { return 0, false; }
      value := (value * 16 + HexValue(raw[k])) % 0x10000;
    }
    PrefixIsCode(s, start);
    ok := true;
  }

  /** The value of the digits read so far, in 16 bits. */
  function Prefix(s: seq<byte>, start: nat, k: nat): (v: nat)
    requires start <= k <= start + 4 <= |s| && forall m :: start <= m < k ==> HexDigit(s[m])
    ensures k <= start + 1 ==> v < 0x10
    ensures k <= start + 2 ==> v < 0x100
    ensures k <= start + 3 ==> v < 0x1000
    ensures v < 0x10000
  {
    if k == start then 0 else Prefix(s, start, k - 1) * 16 + HexValue(s[k - 1])
  }

  lemma PrefixIsCode(s: seq<byte>, start: nat)
    requires start + 4 <= |s| && forall m :: start <= m < start + 4 ==> HexDigit(s[m])
    ensures Prefix(s, start, start + 4) == Unit(s[start], s[start + 1], s[start + 2], s[start + 3]).Code()
  {
    hide HexValue;
    assert Prefix(s, start, start + 1) == HexValue(s[start]);
    assert Prefix(s, start, start + 2) == HexValue(s[start]) * 16 + HexValue(s[start + 1]);
    assert Prefix(s, start, start + 3) == Prefix(s, start, start + 2) * 16 + HexValue(s[start + 2]);
  }

  function UnitAt(s: seq<byte>, start: nat): Option<Unit> {
    if start + 4 > |s| then None
    else
      var u := Unit(s[start], s[start + 1], s[start + 2], s[start + 3]);
      if u.Hex() then Some(u) else None
  }

  /** The character of a string at a position, if there is one. */
  function CharAt(s: seq<byte>, i: nat): (c: Option<Char>)
    requires i < |s|
    ensures c.Some? ==> i + |c.value.Bytes()| <= |s|
  {
    if s[i] == QUOTE || s[i] < 0x20 then None
    else if s[i] != BACKSLASH then Some(Plain(s[i]))
    else if i + 1 == |s| then None
    else if s[i + 1] in ESCAPES then Some(Escape(s[i + 1]))
    else if s[i + 1] != LETTER_U then None
    else
      var u := UnitAt(s, i + 2);
      if u.None? then None
      else if u.value.High() then
        if i + 12 > |s| || s[i + 6] != BACKSLASH || s[i + 7] != LETTER_U then None
        else
          var l := UnitAt(s, i + 8);
          if l.Some? && l.value.Low() then Some(Pair(u.value, l.value)) else None
      else if u.value.Low() then None
      else Some(Escaped(u.value))
  }

  /** Whether the scan accepts the rest of the bytes. */
  predicate Scans(s: seq<byte>, i: nat, inString: bool)
    requires i <= |s|
    decreases |s| - i
  {
    if i == |s| then !inString
    else if !inString then Scans(s, i + 1, s[i] == QUOTE)
    else if s[i] == QUOTE then Scans(s, i + 1, false)
    else
      var c := CharAt(s, i);
      c.Some? && Scans(s, i + |c.value.Bytes()|, true)
  }

  /** The part of strictJSONStrings behind a backslash. */
  method SkipEscape(raw: array<byte>, at: nat) returns (next: nat, ok: bool)
    requires at < raw.Length && raw[at] == BACKSLASH
    ensures ok <==> CharAt(raw[..], at).Some?
    ensures ok ==> next == at + |CharAt(raw[..], at).value.Bytes()|
  {
    hide Unit.Code;
    ghost var s := raw[..];
    var i := at + 1;
    next := at;
    if i >= raw.Length { return next, false; }
    if raw[i] in ESCAPES { return i + 1, true; }
    if raw[i] != LETTER_U { return next, false; }
    var unit, found := HexUnit(raw, i + 1);
    if !found { return next, false; }
    i := i + 4;
    if 0xD800 <= unit <= 0xDBFF {
      if i + 6 >= raw.Length || raw[i + 1] != BACKSLASH || raw[i + 2] != LETTER_U { return next, false; }
      var low;
      low, found := HexUnit(raw, i + 3);
      if !found || low < 0xDC00 || low > 0xDFFF { return next, false; }
      i := i + 6;
    } else if 0xDC00 <= unit <= 0xDFFF {
      return next, false;
    }
    return i + 1, true;
  }

  /** strictJSONStrings; no index it uses is ever out of range. */
  method StrictStrings(raw: array<byte>) returns (ok: bool)
    ensures ok <==> exists t :: Valid(t) && Bytes(t) == raw[..]
  {
    hide HexDigit;
    ghost var s := raw[..];
    ScanIsExact(s);
    var inString := false;
    var i := 0;
    while i < raw.Length
      invariant i <= raw.Length
      invariant Scans(s, i, inString) <==> Scans(s, 0, false)
    {
      var current := raw[i];
      if !inString {
        if current == QUOTE { inString := true; }
        i := i + 1;
        continue;
      }
      if current == QUOTE {
        inString := false;
        i := i + 1;
        continue;
      }
      if current < 0x20 { return false; }
      if current != BACKSLASH {
        i := i + 1;
        continue;
      }
      var next, escaped := SkipEscape(raw, i);
      if !escaped { return false; }
      i := next;
    }
    ok := !inString;
  }

  // ----- the scan accepts exactly the grammar -----

  lemma CharAtIsValid(s: seq<byte>, i: nat)
    requires i < |s| && CharAt(s, i).Some?
    ensures var c := CharAt(s, i).value;
            c.Valid() && c.Bytes() != [] && s[i..i + |c.Bytes()|] == c.Bytes()
  {
    hide Unit.Code, HexDigit;
    match CharAt(s, i).value
    case Plain(_) =>
    case Escape(_) =>
    case Escaped(u) => UnitIsSpelled(s, i, u);
    case Pair(h, l) =>
      UnitIsSpelled(s, i, h);
      UnitIsSpelled(s, i + 6, l);
      assert s[i..i + 12] == s[i..i + 6] + s[i + 6..i + 12];
  }

  lemma UnitIsSpelled(s: seq<byte>, i: nat, u: Unit)
    requires i + 6 <= |s| && s[i] == BACKSLASH && s[i + 1] == LETTER_U && UnitAt(s, i + 2) == Some(u)
    ensures s[i..i + 6] == u.Bytes()
  {
  }

  lemma ValidCharIsRead(s: seq<byte>, i: nat, c: Char)
    requires c.Valid() && i + |c.Bytes()| <= |s| && s[i..i + |c.Bytes()|] == c.Bytes()
    ensures i < |s| && s[i] != QUOTE && CharAt(s, i) == Some(c)
  {
    hide Unit.Code, HexDigit;
    var r := s[i..i + |c.Bytes()|];
    assert s[i] == r[0];
    match c
    case Plain(_) =>
    case Escape(b) =>
      assert s[i + 1] == r[1];
    case Escaped(u) =>
      assert r == u.Bytes();
      UnitIsRead(s, i, u);
    case Pair(h, l) =>
      assert r[..6] == h.Bytes() && r[6..] == l.Bytes();
      assert s[i..i + 6] == r[..6] && s[i + 6..i + 12] == r[6..];
      UnitIsRead(s, i, h);
      UnitIsRead(s, i + 6, l);
      HighIsNotLow(h);
  }

  lemma UnitIsRead(s: seq<byte>, i: nat, u: Unit)
    requires i + 6 <= |s| && s[i..i + 6] == u.Bytes() && u.Hex()
    ensures s[i] == BACKSLASH && s[i + 1] == LETTER_U && UnitAt(s, i + 2) == Some(u)
  {
    var r := s[i..i + 6];
    assert s[i] == r[0] && s[i + 1] == r[1] && s[i + 2] == r[2] && s[i + 3] == r[3] && s[i + 4] == r[4] && s[i + 5] == r[5];
  }

  lemma HighIsNotLow(u: Unit)
    ensures !(u.High() && u.Low())
  {
  }

  lemma {:induction false} ScannedTextIsValid(s: seq<byte>, i: nat) returns (t: Text)
    requires i <= |s| && Scans(s, i, false)
    ensures Valid(t) && Bytes(t) == s[i..]
    decreases |s| - i
  {
    if i == |s| {
      t := End;
    } else if s[i] == QUOTE {
      var body := ScannedBodyIsValid(s, i + 1);
      t := Open(body);
      assert s[i..] == [s[i]] + s[i + 1..];
    } else {
      var rest := ScannedTextIsValid(s, i + 1);
      t := Other(s[i], rest);
      assert s[i..] == [s[i]] + s[i + 1..];
    }
  }

  lemma {:induction false} ScannedBodyIsValid(s: seq<byte>, i: nat) returns (b: Body)
    requires i <= |s| && Scans(s, i, true)
    ensures ValidBody(b) && BodyBytes(b) == s[i..]
    decreases |s| - i
  {
    hide CharAt, Char.Valid;
    if s[i] == QUOTE {
      var rest := ScannedTextIsValid(s, i + 1);
      b := Close(rest);
      assert s[i..] == [s[i]] + s[i + 1..];
    } else {
      var c := CharAt(s, i).value;
      var n := |c.Bytes()|;
      CharAtIsValid(s, i);
      var more := ScannedBodyIsValid(s, i + n);
      b := Next(c, more);
      assert s[i..] == s[i..i + n] + s[i + n..];
    }
  }

  lemma {:induction false} ValidTextIsScanned(s: seq<byte>, i: nat, t: Text)
    requires i <= |s| && Valid(t) && Bytes(t) == s[i..]
    ensures Scans(s, i, false)
    decreases t
  {
    match t
    case End =>
    case Other(b, rest) =>
      assert s[i..][1..] == s[i + 1..] && Bytes(t)[1..] == Bytes(rest);
      assert s[i] == Bytes(t)[0];
      ValidTextIsScanned(s, i + 1, rest);
    case Open(body) =>
      assert s[i..][1..] == s[i + 1..] && Bytes(t)[1..] == BodyBytes(body);
      assert s[i] == Bytes(t)[0];
      ValidBodyIsScanned(s, i + 1, body);
  }

  lemma {:induction false} ValidBodyIsScanned(s: seq<byte>, i: nat, b: Body)
    requires i <= |s| && ValidBody(b) && BodyBytes(b) == s[i..]
    ensures Scans(s, i, true)
    decreases b
  {
    match b
    case Close(rest) =>
      assert s[i..][1..] == s[i + 1..] && BodyBytes(b)[1..] == Bytes(rest);
      assert s[i] == BodyBytes(b)[0];
      ValidTextIsScanned(s, i + 1, rest);
    case Next(c, more) =>
      var n := |c.Bytes()|;
      assert s[i..i + n] == s[i..][..n] == BodyBytes(b)[..n] == c.Bytes();
      assert s[i + n..] == s[i..][n..] == BodyBytes(b)[n..] == BodyBytes(more);
      ValidCharIsRead(s, i, c);
      hide CharAt;
      ValidBodyIsScanned(s, i + n, more);
  }

  lemma ScanIsExact(s: seq<byte>)
    ensures Scans(s, 0, false) <==> exists t :: Valid(t) && Bytes(t) == s
  {
    assert s[0..] == s;
    if Scans(s, 0, false) {
      var t := ScannedTextIsValid(s, 0);
    }
    forall t | Valid(t) && Bytes(t) == s ensures Scans(s, 0, false) {
      ValidTextIsScanned(s, 0, t);
    }
  }
}
