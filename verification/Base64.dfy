/** Base64 texts as Go's encoding/base64 writes and reads them: both alphabets of section 4
    and section 5 of RFC 4648, with or without padding. Reading skips line breaks and does
    not look at the unused bits of the last digit. */
module Base64 {
  import opened Prelude

  datatype Alphabet = Standard | UrlSafe

  datatype Encoding = Encoding(alphabet: Alphabet, padded: bool)

  // ----- digits -----

  function Digit(a: Alphabet, n: nat): char
    requires n < 64
  {
    if n < 26 then 'A' + (n as char)
    else if n < 52 then 'a' + ((n - 26) as char)
    else if n < 62 then '0' + ((n - 52) as char)
    else if n == 62 then (if a.Standard? then '+' else '-')
    else (if a.Standard? then '/' else '_')
  }

  function Value(a: Alphabet, c: char): (v: Option<nat>)
    ensures v.Some? ==> v.value < 64
  {
    if 'A' <= c <= 'Z' then Some(c as nat - 'A' as nat)
    else if 'a' <= c <= 'z' then Some(c as nat - 'a' as nat + 26)
    else if '0' <= c <= '9' then Some(c as nat - '0' as nat + 52)
    else if c == (if a.Standard? then '+' else '-') then Some(62)
    else if c == (if a.Standard? then '/' else '_') then Some(63)
    else None
  }

  lemma DigitHasItsValue(a: Alphabet, n: nat)
    requires n < 64
    ensures Value(a, Digit(a, n)) == Some(n)
  {
  }

  // ----- encoding -----

  function Encode(e: Encoding, b: seq<byte>): string {
    if |b| == 0 then ""
    else if |b| == 1 then
      [Digit(e.alphabet, b[0] / 4), Digit(e.alphabet, b[0] % 4 * 16)] + if e.padded then "==" else ""
    else if |b| == 2 then
      [Digit(e.alphabet, b[0] / 4), Digit(e.alphabet, b[0] % 4 * 16 + b[1] / 16), Digit(e.alphabet, b[1] % 16 * 4)] +
      if e.padded then "=" else ""
    else
      [Digit(e.alphabet, b[0] / 4), Digit(e.alphabet, b[0] % 4 * 16 + b[1] / 16),
       Digit(e.alphabet, b[1] % 16 * 4 + b[2] / 64), Digit(e.alphabet, b[2] % 64)] + Encode(e, b[3..])
  }

  // ----- decoding -----

  predicate LineBreak(c: char) { c == '\r' || c == '\n' }

  function WithoutBreaks(s: string): string {
    if s == "" then "" else (if LineBreak(s[0]) then "" else [s[0]]) + WithoutBreaks(s[1..])
  }

  /** The three bytes of four digits. */
  function Bytes(v0: nat, v1: nat, v2: nat, v3: nat): (r: seq<byte>)
    requires v0 < 64 && v1 < 64 && v2 < 64 && v3 < 64
    ensures |r| == 3
  {
    [v0 * 4 + v1 / 16, v1 % 16 * 16 + v2 / 4, v2 % 4 * 64 + v3]
  }

  function DecodeDigits(e: Encoding, s: string): Option<seq<byte>> {
    var v := c => Value(e.alphabet, c);
    if s == "" then Some([])
    else if |s| < 2 || v(s[0]).None? || v(s[1]).None? then None
    else if |s| >= 4 && v(s[2]).Some? && v(s[3]).Some? then
      var rest := DecodeDigits(e, s[4..]);
      if rest.None? then None
      else Some(Bytes(v(s[0]).value, v(s[1]).value, v(s[2]).value, v(s[3]).value) + rest.value)
    else if e.padded && |s| != 4 then None
    else if e.padded && s[3] != '=' then None
    else if !e.padded && |s| > 3 then None
    else if (if e.padded then s[2] == '=' else |s| == 2) then
      Some(Bytes(v(s[0]).value, v(s[1]).value, 0, 0)[..1])
    else if v(s[2]).None? then None
    else Some(Bytes(v(s[0]).value, v(s[1]).value, v(s[2]).value, 0)[..2])
  }

  function Decode(e: Encoding, s: string): Option<seq<byte>> {
    DecodeDigits(e, WithoutBreaks(s))
  }

  // ----- round trip -----

  lemma EveryDigitHasItsValue(a: Alphabet)
    ensures forall n :: 0 <= n < 64 ==> Value(a, Digit(a, n)) == Some(n)
    ensures Value(a, '=').None? && Value(a, '\r').None? && Value(a, '\n').None?
  {
    forall n | 0 <= n < 64 ensures Value(a, Digit(a, n)) == Some(n) {
      DigitHasItsValue(a, n);
    }
  }

  /** What Encode writes with: digits and the padding sign. */
  predicate Written(e: Encoding, c: char) {
    Value(e.alphabet, c).Some? || (e.padded && c == '=')
  }

  lemma {:induction false} EncodedText(e: Encoding, b: seq<byte>)
    ensures forall i :: 0 <= i < |Encode(e, b)| ==> Written(e, Encode(e, b)[i])
    ensures |Encode(e, b)| == if e.padded then (|b| + 2) / 3 * 4 else (|b| * 4 + 2) / 3
    decreases |b|
  {
    EveryDigitHasItsValue(e.alphabet);
    hide Digit, Value;
    if |b| >= 3 {
      EncodedText(e, b[3..]);
    }
  }

  lemma {:induction false} PlainText(s: string)
    requires forall i :: 0 <= i < |s| ==> !LineBreak(s[i])
    ensures WithoutBreaks(s) == s
  {
    if s != "" {
      PlainText(s[1..]);
    }
  }

  lemma GroupBytes(b0: byte, b1: byte, b2: byte)
    ensures Bytes(b0 / 4, b0 % 4 * 16 + b1 / 16, b1 % 16 * 4 + b2 / 64, b2 % 64) == [b0, b1, b2]
  {
  }

  lemma {:induction false} DigitsRoundTrip(e: Encoding, b: seq<byte>)
    ensures DecodeDigits(e, Encode(e, b)) == Some(b)
    decreases |b|
  {
    EveryDigitHasItsValue(e.alphabet);
    hide Digit, Value, Bytes;
    if |b| == 1 {
      GroupBytes(b[0], 0, 0);
      assert [b[0], 0, 0][..1] == b;
    } else if |b| == 2 {
      GroupBytes(b[0], b[1], 0);
      assert [b[0], b[1], 0][..2] == b;
    } else if |b| >= 3 {
      GroupBytes(b[0], b[1], b[2]);
      DigitsRoundTrip(e, b[3..]);
      var s := Encode(e, b);
      assert s[4..] == Encode(e, b[3..]);
      assert [b[0], b[1], b[2]] + b[3..] == b;
    }
  }

  /** Whatever was encoded is decoded, in both alphabets, with or without padding. */
  lemma RoundTrip(e: Encoding, b: seq<byte>)
    ensures Decode(e, Encode(e, b)) == Some(b)
  {
    EncodedText(e, b);
    EveryDigitHasItsValue(e.alphabet);
    forall i | 0 <= i < |Encode(e, b)| ensures !LineBreak(Encode(e, b)[i]) {
      assert Written(e, Encode(e, b)[i]);
    }
    PlainText(Encode(e, b));
    DigitsRoundTrip(e, b);
  }

  // ----- the code of RFC 4648 -----

  /** Padding is all that the two ways of writing differ in. */
  lemma {:induction false} PaddingIsOnlyAdded(a: Alphabet, b: seq<byte>)
    ensures Encode(Encoding(a, true), b) ==
            Encode(Encoding(a, false), b) + (if |b| % 3 == 1 then "==" else if |b| % 3 == 2 then "=" else "")
    decreases |b|
  {
    hide Digit;
    if |b| >= 3 { PaddingIsOnlyAdded(a, b[3..]); }
  }

  /** Four digits are the 24-bit number that their three bytes are. */
  lemma {:induction false} DigitsAreTheNumber(e: Encoding, b: seq<byte>, i: nat)
    requires 3 * i + 3 <= |b|
    ensures 4 * i + 4 <= |Encode(e, b)|
    ensures var s := Encode(e, b)[4 * i..4 * i + 4];
            (forall k :: 0 <= k < 4 ==> Value(e.alphabet, s[k]).Some?) &&
            Value(e.alphabet, s[0]).value * 0x40000 + Value(e.alphabet, s[1]).value * 0x1000 +
              Value(e.alphabet, s[2]).value * 0x40 + Value(e.alphabet, s[3]).value
            == (b[3 * i] as int) * 0x10000 + (b[3 * i + 1] as int) * 0x100 + b[3 * i + 2] as int
    decreases i
  {
    FirstFour(e, b);
    RestOfText(e, b);
    hide Digit, Value, Encode;
    var rest := Encode(e, b[3..]);
    if i > 0 {
      DigitsAreTheNumber(e, b[3..], i - 1);
      assert Encode(e, b)[4 * i..4 * i + 4] == Encode(e, b)[4..][4 * (i - 1)..4 * (i - 1) + 4];
    } else {
      GroupNumber(b[0], b[1], b[2]);
    }
  }

  lemma GroupNumber(b0: byte, b1: byte, b2: byte)
    ensures b0 / 4 * 0x40000 + (b0 % 4 * 16 + b1 / 16) * 0x1000 + (b1 % 16 * 4 + b2 / 64) * 0x40 + b2 % 64
            == (b0 as int) * 0x10000 + (b1 as int) * 0x100 + b2 as int
  {
  }

  lemma RestOfText(e: Encoding, b: seq<byte>)
    requires |b| >= 3
    ensures |Encode(e, b)| >= 4 && Encode(e, b)[4..] == Encode(e, b[3..])
  {
    hide Digit;
  }

  /** Section 10 of RFC 4648, and the two digits in which the alphabets differ. */
  lemma TestVectors()
    ensures Encode(Encoding(Standard, true), [0x66]) == "Zg=="
    ensures Encode(Encoding(Standard, true), [0x66, 0x6F]) == "Zm8="
    ensures Encode(Encoding(Standard, true), [0x66, 0x6F, 0x6F]) == "Zm9v"
    ensures Encode(Encoding(Standard, true), [0x66, 0x6F, 0x6F, 0x62, 0x61, 0x72]) == "Zm9vYmFy"
    ensures Encode(Encoding(Standard, false), [0xFB, 0xFF]) == "+/8"
    ensures Encode(Encoding(UrlSafe, false), [0xFB, 0xFF]) == "-_8"
  {
    assert [0x66 as byte, 0x6F, 0x6F, 0x62, 0x61, 0x72][3..] == [0x62, 0x61, 0x72];
  }

  // ----- which texts are read -----

  /** t is the text of b, except that the spare low bits of its last digit may be anything. */
  ghost predicate Reads(e: Encoding, t: string, b: seq<byte>) {
    var s, last := Encode(e, b), |b| / 3 * 4 + |b| % 3;
    var spare := if |b| % 3 == 1 then 16 else 4;
    |t| == |s| && (forall i :: 0 <= i < |t| && (i != last || |b| % 3 == 0) ==> t[i] == s[i]) &&
    (|b| % 3 != 0 ==>
       last < |t| && Value(e.alphabet, t[last]).Some? && Value(e.alphabet, s[last]).Some? &&
       Value(e.alphabet, t[last]).value / spare == Value(e.alphabet, s[last]).value / spare)
  }

  lemma ValueHasItsDigit(a: Alphabet, c: char)
    ensures Value(a, c).Some? ==> Digit(a, Value(a, c).value) == c
  {
  }

  /** Four digits more in front of a text are three bytes more in front of its bytes. */
  lemma ReadsMore(e: Encoding, t: string, b: seq<byte>, v0: nat, v1: nat, v2: nat, v3: nat)
    requires v0 < 64 && v1 < 64 && v2 < 64 && v3 < 64
    ensures var d := [Digit(e.alphabet, v0), Digit(e.alphabet, v1), Digit(e.alphabet, v2), Digit(e.alphabet, v3)];
            Reads(e, d + t, Bytes(v0, v1, v2, v3) + b) <==> Reads(e, t, b)
  {
    var d := [Digit(e.alphabet, v0), Digit(e.alphabet, v1), Digit(e.alphabet, v2), Digit(e.alphabet, v3)];
    var x := Bytes(v0, v1, v2, v3);
    var all := x + b;
    assert all[3..] == b && all[0] == x[0] && all[1] == x[1] && all[2] == x[2];
    BytesDigits(v0, v1, v2, v3);
    var s := Encode(e, b);
    assert Encode(e, all) == d + s;
    assert |all| / 3 == |b| / 3 + 1 && |all| % 3 == |b| % 3;
    hide Encode, Digit, Value, Bytes;
    var last := |b| / 3 * 4 + |b| % 3;
    if Reads(e, d + t, all) {
      forall i | 0 <= i < |t| && (i != last || |b| % 3 == 0) ensures t[i] == s[i] {
        assert (d + t)[i + 4] == (d + s)[i + 4];
      }
      if |b| % 3 != 0 { assert (d + t)[last + 4] == t[last] && (d + s)[last + 4] == s[last]; }
    }
  }

  lemma BytesDigits(v0: nat, v1: nat, v2: nat, v3: nat)
    requires v0 < 64 && v1 < 64 && v2 < 64 && v3 < 64
    ensures var x := Bytes(v0, v1, v2, v3);
            x[0] / 4 == v0 && x[0] % 4 * 16 + x[1] / 16 == v1 && x[1] % 16 * 4 + x[2] / 64 == v2 && x[2] % 64 == v3
  {
  }

  /** The text begins with four digits. */
  predicate FourDigits(e: Encoding, t: string) {
    |t| >= 4 && forall i :: 0 <= i < 4 ==> Value(e.alphabet, t[i]).Some?
  }

  lemma FirstFour(e: Encoding, b: seq<byte>)
    requires |b| >= 3
    ensures var s, a := Encode(e, b), e.alphabet;
            |s| >= 4 && Value(a, s[0]) == Some(b[0] / 4) && Value(a, s[1]) == Some(b[0] % 4 * 16 + b[1] / 16) &&
            Value(a, s[2]) == Some(b[1] % 16 * 4 + b[2] / 64) && Value(a, s[3]) == Some(b[2] % 64)
  {
    EveryDigitHasItsValue(e.alphabet);
    hide Digit, Value;
  }

  lemma FrontOfReads(e: Encoding, t: string, b: seq<byte>)
    requires Reads(e, t, b) && |b| >= 3
    ensures |t| >= 4 && |Encode(e, b)| >= 4 && t[..4] == Encode(e, b)[..4]
  {
    EncodedText(e, b);
    hide Encode, Value;
    var s := Encode(e, b);
    assert |b| / 3 * 4 + |b| % 3 >= 4;
    assert forall i :: 0 <= i < 4 ==> t[i] == s[i];
  }

  /** A text of at least three bytes begins with their four digits. */
  lemma ReadsFour(e: Encoding, t: string, b: seq<byte>)
    requires Reads(e, t, b) && |b| >= 3
    ensures FourDigits(e, t)
    ensures var v := i requires 0 <= i < 4 => Value(e.alphabet, t[i]).value;
            Bytes(v(0), v(1), v(2), v(3)) == b[..3]
  {
    FirstFour(e, b);
    FrontOfReads(e, t, b);
    GroupBytes(b[0], b[1], b[2]);
    hide Digit, Value, Bytes, Encode, Reads;
    var s := Encode(e, b);
    assert t[0] == t[..4][0] == s[..4][0] == s[0] && t[1] == t[..4][1] == s[..4][1] == s[1];
    assert t[2] == t[..4][2] == s[..4][2] == s[2] && t[3] == t[..4][3] == s[..4][3] == s[3];
    assert b[..3] == [b[0], b[1], b[2]];
  }

  lemma NoFourDigits(e: Encoding, t: string, b: seq<byte>)
    requires Reads(e, t, b) && |b| < 3
    ensures !FourDigits(e, t)
  {
    EveryDigitHasItsValue(e.alphabet);
    hide Digit, Value;
    var s := Encode(e, b);
    if e.padded && b != [] {
      assert s[3] == '=' && t[3] == s[3];
    }
  }

  lemma OneByte(v0: nat, v1: nat, x: byte)
    requires v0 < 64 && v1 < 64
    ensures Bytes(v0, v1, 0, 0)[..1] == [x] <==> v0 == x / 4 && v1 / 16 == (x % 4 * 16) / 16
  {
    assert Bytes(v0, v1, 0, 0)[..1] == [v0 * 4 + v1 / 16];
  }

  lemma TwoBytes(v0: nat, v1: nat, v2: nat, x: byte, y: byte)
    requires v0 < 64 && v1 < 64 && v2 < 64
    ensures Bytes(v0, v1, v2, 0)[..2] == [x, y] <==> v0 == x / 4 && v1 == x % 4 * 16 + y / 16 && v2 / 4 == (y % 16 * 4) / 4
  {
    assert Bytes(v0, v1, v2, 0)[..2] == [v0 * 4 + v1 / 16, v1 % 16 * 16 + v2 / 4];
  }

  /** Digits are equal when their values are. */
  lemma DigitIs(a: Alphabet, c: char, n: nat)
    requires n < 64
    ensures c == Digit(a, n) <==> Value(a, c) == Some(n)
  {
    DigitHasItsValue(a, n);
    ValueHasItsDigit(a, c);
  }

  /** The shape of a last group of one byte, and of two. */
  predicate OneShape(e: Encoding, t: string) {
    if e.padded then |t| == 4 && t[2] == '=' && t[3] == '=' else |t| == 2
  }

  predicate TwoShape(e: Encoding, t: string) {
    if e.padded then |t| == 4 && t[3] == '=' else |t| == 3
  }

  lemma DecodeOne(e: Encoding, t: string, x: byte)
    requires t != "" && !FourDigits(e, t)
    ensures var v := c => Value(e.alphabet, c);
            DecodeDigits(e, t) == Some([x]) <==>
            OneShape(e, t) && v(t[0]).Some? && v(t[1]).Some? && Bytes(v(t[0]).value, v(t[1]).value, 0, 0)[..1] == [x]
  {
    EveryDigitHasItsValue(e.alphabet);
    hide Digit, Value, Bytes;
  }

  lemma DecodeTwo(e: Encoding, t: string, x: byte, y: byte)
    requires t != "" && !FourDigits(e, t)
    ensures var v := c => Value(e.alphabet, c);
            DecodeDigits(e, t) == Some([x, y]) <==>
            TwoShape(e, t) && v(t[0]).Some? && v(t[1]).Some? && v(t[2]).Some? &&
            Bytes(v(t[0]).value, v(t[1]).value, v(t[2]).value, 0)[..2] == [x, y]
  {
    EveryDigitHasItsValue(e.alphabet);
    hide Digit, Value, Bytes;
  }

  lemma ReadsOne(e: Encoding, t: string, x: byte)
    ensures var v := c => Value(e.alphabet, c);
            Reads(e, t, [x]) <==>
            OneShape(e, t) && t[0] == Digit(e.alphabet, x / 4) && v(t[1]).Some? && v(t[1]).value / 16 == (x % 4 * 16) / 16
  {
    EveryDigitHasItsValue(e.alphabet);
    hide Digit, Value;
    var s := Encode(e, [x]);
    assert s == [Digit(e.alphabet, x / 4), Digit(e.alphabet, x % 4 * 16)] + if e.padded then "==" else "";
  }

  lemma ReadsTwo(e: Encoding, t: string, x: byte, y: byte)
    ensures var v := c => Value(e.alphabet, c);
            Reads(e, t, [x, y]) <==>
            TwoShape(e, t) && t[0] == Digit(e.alphabet, x / 4) && t[1] == Digit(e.alphabet, x % 4 * 16 + y / 16) &&
            v(t[2]).Some? && v(t[2]).value / 4 == (y % 16 * 4) / 4
  {
    EveryDigitHasItsValue(e.alphabet);
    hide Digit, Value;
    var s := Encode(e, [x, y]);
    assert s == [Digit(e.alphabet, x / 4), Digit(e.alphabet, x % 4 * 16 + y / 16), Digit(e.alphabet, y % 16 * 4)] +
                if e.padded then "=" else "";
  }

  lemma LastOne(e: Encoding, t: string, x: byte)
    requires t != "" && !FourDigits(e, t)
    ensures DecodeDigits(e, t) == Some([x]) <==> Reads(e, t, [x])
  {
    hide Digit, Value, Bytes, DecodeDigits, Reads, FourDigits;
    DecodeOne(e, t, x);
    ReadsOne(e, t, x);
    DigitIs(e.alphabet, t[0], x / 4);
    var v := c => Value(e.alphabet, c);
    if |t| >= 2 && v(t[0]).Some? && v(t[1]).Some? { OneByte(v(t[0]).value, v(t[1]).value, x); }
  }

  lemma LastTwo(e: Encoding, t: string, x: byte, y: byte)
    requires t != "" && !FourDigits(e, t)
    ensures DecodeDigits(e, t) == Some([x, y]) <==> Reads(e, t, [x, y])
  {
    hide Digit, Value, Bytes, DecodeDigits, Reads, FourDigits;
    DecodeTwo(e, t, x, y);
    ReadsTwo(e, t, x, y);
    DigitIs(e.alphabet, t[0], x / 4);
    if |t| >= 2 { DigitIs(e.alphabet, t[1], x % 4 * 16 + y / 16); }
    var v := c => Value(e.alphabet, c);
    if |t| >= 3 && v(t[0]).Some? && v(t[1]).Some? && v(t[2]).Some? {
      TwoBytes(v(t[0]).value, v(t[1]).value, v(t[2]).value, x, y);
    }
  }

  lemma LastNone(e: Encoding, t: string)
    requires t != "" && !FourDigits(e, t)
    ensures DecodeDigits(e, t) != Some([]) && !Reads(e, t, [])
  {
    hide Digit, Value;
  }

  /** One group in front. */
  lemma FirstGroup(e: Encoding, t: string, b: seq<byte>)
    requires FourDigits(e, t)
    ensures Reads(e, t, b) ==> |b| >= 3
    ensures var v := i requires 0 <= i < 4 => Value(e.alphabet, t[i]).value;
            var front := Bytes(v(0), v(1), v(2), v(3));
            (Reads(e, t, b) ==> b[..3] == front) &&
            (|b| >= 3 && b[..3] == front ==> (Reads(e, t, b) <==> Reads(e, t[4..], b[3..])))
  {
    var v := i requires 0 <= i < 4 => Value(e.alphabet, t[i]).value;
    forall i | 0 <= i < 4 ensures t[i] == Digit(e.alphabet, v(i)) { ValueHasItsDigit(e.alphabet, t[i]); }
    var d := [Digit(e.alphabet, v(0)), Digit(e.alphabet, v(1)), Digit(e.alphabet, v(2)), Digit(e.alphabet, v(3))];
    assert t == d + t[4..];
    hide Digit, Value, Reads, Bytes;
    if Reads(e, t, b) && |b| < 3 { NoFourDigits(e, t, b); }
    if Reads(e, t, b) { ReadsFour(e, t, b); }
    if |b| >= 3 && b[..3] == Bytes(v(0), v(1), v(2), v(3)) {
      assert b == b[..3] + b[3..];
      ReadsMore(e, t[4..], b[3..], v(0), v(1), v(2), v(3));
    }
  }

  /** What decoding does with four digits in front. */
  lemma FourDecoded(e: Encoding, t: string, b: seq<byte>)
    requires FourDigits(e, t)
    ensures var v := i requires 0 <= i < 4 => Value(e.alphabet, t[i]).value;
            DecodeDigits(e, t) == Some(b) <==>
            |b| >= 3 && b[..3] == Bytes(v(0), v(1), v(2), v(3)) && DecodeDigits(e, t[4..]) == Some(b[3..])
  {
    var v := i requires 0 <= i < 4 => Value(e.alphabet, t[i]).value;
    var front := Bytes(v(0), v(1), v(2), v(3));
    var rest := DecodeDigits(e, t[4..]);
    assert DecodeDigits(e, t) == if rest.None? then None else Some(front + rest.value);
    hide Digit, Value, Bytes, DecodeDigits;
    if rest.Some? { assert (front + rest.value)[..3] == front && (front + rest.value)[3..] == rest.value; }
    if |b| >= 3 { assert b == b[..3] + b[3..]; }
  }

  lemma {:induction false} DecodeDigitsIff(e: Encoding, t: string, b: seq<byte>)
    ensures DecodeDigits(e, t) == Some(b) <==> Reads(e, t, b)
    decreases |t|
  {
    hide Digit, Value, Reads, Bytes, DecodeDigits, FourDigits;
    if t == "" {
      EmptyIsRead(e, b);
    } else if FourDigits(e, t) {
      FirstGroup(e, t, b);
      FourDecoded(e, t, b);
      FourAreFour(e, t);
      if |b| >= 3 { DecodeDigitsIff(e, t[4..], b[3..]); }
    } else if b == [] {
      LastNone(e, t);
    } else if |b| == 1 {
      LastOne(e, t, b[0]);
      assert b == [b[0]];
    } else if |b| == 2 {
      LastTwo(e, t, b[0], b[1]);
      assert b == [b[0], b[1]];
    } else {
      LastIsShort(e, t);
      if Reads(e, t, b) { ReadsFour(e, t, b); }
    }
  }

  lemma FourAreFour(e: Encoding, t: string)
    requires FourDigits(e, t)
    ensures |t| >= 4
  {
  }

  lemma LastIsShort(e: Encoding, t: string)
    requires t != "" && !FourDigits(e, t)
    ensures DecodeDigits(e, t).Some? ==> |DecodeDigits(e, t).value| <= 2
  {
    hide Digit, Value;
  }

  lemma EmptyIsRead(e: Encoding, b: seq<byte>)
    ensures Reads(e, "", b) <==> b == []
    ensures DecodeDigits(e, "") == Some([])
  {
    EncodedText(e, b);
  }

  /** A text is read as b exactly when, line breaks aside, it is the text of b but for the
      unused bits of its last digit. */
  lemma DecodeIff(e: Encoding, s: string, b: seq<byte>)
    ensures Decode(e, s) == Some(b) <==> Reads(e, WithoutBreaks(s), b)
  {
    DecodeDigitsIff(e, WithoutBreaks(s), b);
  }
}
