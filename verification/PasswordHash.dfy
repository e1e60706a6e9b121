/** The text form of an argon2id password hash (auth/password.go). */
module PasswordHash {
  import opened Prelude
  import opened Base64
  import opened Decimals
  import opened Texts

  const ALGORITHM := "argon2id"
  const VERSION := "v=19"
  const RAW := Encoding(Standard, false)
  const UINT32: nat := 0x1_0000_0000

  /** uint32 and uint8 fields. */
  datatype Params = Params(memory: nat, time: nat, parallelism: nat, saltLen: nat, keyLen: nat)

  predicate InRange(p: Params) {
    p.memory < UINT32 && p.time < UINT32 && p.parallelism < 256 && p.saltLen < UINT32 && p.keyLen < UINT32
  }

  datatype HashError = InvalidHash | MismatchedHash | ZeroParameter | NoRandomness

  datatype Decoded = Decoded(params: Params, salt: seq<byte>, sum: seq<byte>)

  // ----- fmt.Sscanf(s, "m=%d,t=%d,p=%d", ...) -----

  /** The blanks that %d skips; a newline is an error, and so is reached as a non-digit. */
  predicate ScanBlank(c: char) { IsSpace(c) && c != '\n' }

  function SkipBlanks(s: string): string {
    if s != "" && ScanBlank(s[0]) then SkipBlanks(s[1..]) else s
  }

  function LeadingDigits(s: string): (d: string)
    ensures |d| <= |s| && d == s[..|d|] && AllDigits(d)
    ensures |d| < |s| ==> !IsDigit(s[|d|])
  {
    if s != "" && IsDigit(s[0]) then [s[0]] + LeadingDigits(s[1..]) else ""
  }

  /** A literal, then an unsigned number below the limit; the value and what follows. */
  function ScanNumber(s: string, literal: string, limit: nat): Option<(nat, string)> {
    if !(literal <= s) then None
    else
      var t := SkipBlanks(s[|literal|..]);
      var d := LeadingDigits(t);
      if d == "" || NumberOf(d) >= limit then None else Some((NumberOf(d), t[|d|..]))
  }

  /** Text behind the last number is not looked at. */
  function ScanParams(s: string): Option<(nat, nat, nat)> {
    var m := ScanNumber(s, "m=", UINT32);
    if m.None? then None
    else
      var t := ScanNumber(m.value.1, ",t=", UINT32);
      if t.None? then None
      else
        var p := ScanNumber(t.value.1, ",p=", 256);
        if p.None? then None else Some((m.value.0, t.value.0, p.value.0))
  }

  lemma {:induction false} LeadingDigitsOf(d: string, rest: string)
    requires AllDigits(d) && (rest != "" ==> !IsDigit(rest[0]))
    ensures LeadingDigits(d + rest) == d
  {
    if d == "" {
      assert d + rest == rest;
    } else {
      assert (d + rest)[1..] == d[1..] + rest;
      LeadingDigitsOf(d[1..], rest);
    }
  }

  lemma PrintedNumberIsScanned(literal: string, n: nat, rest: string, limit: nat)
    requires n < limit && (rest != "" ==> !IsDigit(rest[0]))
    ensures ScanNumber(literal + (Decimal(n) + rest), literal, limit) == Some((n, rest))
  {
    DecimalReadsBack(n);
    var t := Decimal(n) + rest;
    assert (literal + t)[|literal|..] == t;
    assert IsDigit(t[0]);
    LeadingDigitsOf(Decimal(n), rest);
    assert t[|Decimal(n)|..] == rest;
  }

  function PrintParams(p: Params): string {
    "m=" + (Decimal(p.memory) + (",t=" + (Decimal(p.time) + (",p=" + (Decimal(p.parallelism) + "")))))
  }

  lemma PrintedParamsAreScanned(p: Params)
    requires InRange(p)
    ensures ScanParams(PrintParams(p)) == Some((p.memory, p.time, p.parallelism))
  {
    hide ScanNumber, Decimal;
    PrintedNumberIsScanned(",p=", p.parallelism, "", 256);
    PrintedNumberIsScanned(",t=", p.time, ",p=" + (Decimal(p.parallelism) + ""), UINT32);
    PrintedNumberIsScanned("m=", p.memory, ",t=" + (Decimal(p.time) + (",p=" + (Decimal(p.parallelism) + ""))), UINT32);
  }

  // ----- encode and decode -----

  function EncodeHash(p: Params, salt: seq<byte>, sum: seq<byte>): string {
    Join(["", ALGORITHM, VERSION, PrintParams(p), Encode(RAW, salt), Encode(RAW, sum)], '$')
  }

  function DecodeHash(encoded: string): Option<Decoded> {
    var parts := Split(encoded, '$');
    if |parts| != 6 || parts[1] != ALGORITHM || parts[2] != VERSION then None
    else
      var p := ScanParams(parts[3]);
      if p.None? then None
      else
        var salt, sum := Decode(RAW, parts[4]), Decode(RAW, parts[5]);
        if salt.None? || sum.None? then None
        else
          Some(Decoded(Params(p.value.0, p.value.1, p.value.2, |salt.value| % UINT32, |sum.value| % UINT32),
                       salt.value, sum.value))
  }

  lemma EncodedHasNoDollar(b: seq<byte>)
    ensures '$' !in Encode(RAW, b)
  {
    EncodedText(RAW, b);
    hide Encode;
    assert !Written(RAW, '$');
  }

  lemma PrintedHasNoDollar(p: Params)
    ensures '$' !in PrintParams(p)
  {
    DecimalReadsBack(p.memory);
    DecimalReadsBack(p.time);
    DecimalReadsBack(p.parallelism);
    hide Decimal;
    assert !IsDigit('$');
  }

  /** What encode printed, decode reads: the same numbers and bytes, the lengths taken from
      the bytes. */
  lemma HashRoundTrip(p: Params, salt: seq<byte>, sum: seq<byte>)
    requires InRange(p)
    ensures DecodeHash(EncodeHash(p, salt, sum)) ==
            Some(Decoded(p.(saltLen := |salt| % UINT32, keyLen := |sum| % UINT32), salt, sum))
  {
    var parts := ["", ALGORITHM, VERSION, PrintParams(p), Encode(RAW, salt), Encode(RAW, sum)];
    EncodedHasNoDollar(salt);
    EncodedHasNoDollar(sum);
    PrintedHasNoDollar(p);
    hide Encode, Decode, PrintParams, ScanParams, Split, Join;
    SplitUndoesJoin(parts, '$');
    PrintedParamsAreScanned(p);
    RoundTrip(RAW, salt);
    RoundTrip(RAW, sum);
  }

  // ----- the text, and which texts are read -----

  /** The text of a hash: the PHC string format with argon2id and version 19. */
  lemma HashText(p: Params, salt: seq<byte>, sum: seq<byte>)
    ensures EncodeHash(p, salt, sum) ==
            "$argon2id$v=19$m=" + Decimal(p.memory) + ",t=" + Decimal(p.time) + ",p=" + Decimal(p.parallelism) + "$" +
            Encode(RAW, salt) + "$" + Encode(RAW, sum)
  {
    hide Encode, Decimal, Join;
    var a, b, printed := Encode(RAW, salt), Encode(RAW, sum), PrintParams(p);
    JoinOne(b);
    JoinMore(a, [b]);
    JoinMore(printed, [a, b]);
    JoinMore(VERSION, [printed, a, b]);
    JoinMore(ALGORITHM, [VERSION, printed, a, b]);
    JoinMore("", [ALGORITHM, VERSION, printed, a, b]);
    assert [a] + [b] == [a, b] && [printed] + [a, b] == [printed, a, b];
    assert [VERSION] + [printed, a, b] == [VERSION, printed, a, b];
    assert [ALGORITHM] + [VERSION, printed, a, b] == [ALGORITHM, VERSION, printed, a, b];
    assert [""] + [ALGORITHM, VERSION, printed, a, b] == ["", ALGORITHM, VERSION, printed, a, b];
    HashParts(Decimal(p.memory), Decimal(p.time), Decimal(p.parallelism), a, b);
  }

  lemma HashParts(m: string, t: string, p: string, a: string, b: string)
    ensures "" + "$" + ("argon2id" + "$" + ("v=19" + "$" + (("m=" + (m + (",t=" + (t + (",p=" + (p + "")))))) + "$" + (a + "$" + b)))) ==
            "$argon2id$v=19$m=" + m + ",t=" + t + ",p=" + p + "$" + a + "$" + b
  {
    var numbers := "m=" + (m + (",t=" + (t + (",p=" + (p + "")))));
    var rest := numbers + "$" + (a + "$" + b);
    assert numbers == "m=" + m + ",t=" + t + ",p=" + p;
    assert "" + "$" + ("argon2id" + "$" + ("v=19" + "$" + rest)) == "$argon2id$v=19$" + rest;
    assert "$argon2id$v=19$" + "m=" == "$argon2id$v=19$m=";
  }

  lemma JoinOne(field: string)
    ensures Join([field], '$') == field
  {
  }

  lemma JoinMore(first: string, rest: seq<string>)
    requires rest != []
    ensures Join([first] + rest, '$') == first + "$" + Join(rest, '$')
  {
    assert ([first] + rest)[1..] == rest;
  }

  /** A literal, blanks other than line feeds, digits of a value below the limit, the rest. */
  ghost predicate NumberText(s: string, literal: string, limit: nat, n: nat, rest: string) {
    n < limit && (rest != "" ==> !IsDigit(rest[0])) &&
    exists blanks, digits ::
      (forall i :: 0 <= i < |blanks| ==> ScanBlank(blanks[i])) && digits != "" && AllDigits(digits) && NumberOf(digits) == n &&
      s == literal + blanks + digits + rest
  }

  lemma {:induction false} SkippedBlanks(s: string) returns (blanks: string)
    ensures s == blanks + SkipBlanks(s) && (forall i :: 0 <= i < |blanks| ==> ScanBlank(blanks[i]))
  {
    blanks := "";
    if s != "" && ScanBlank(s[0]) {
      var more := SkippedBlanks(s[1..]);
      blanks := [s[0]] + more;
    }
  }

  lemma {:induction false} SkipTheseBlanks(blanks: string, t: string)
    requires (forall i :: 0 <= i < |blanks| ==> ScanBlank(blanks[i])) && (t != "" ==> !ScanBlank(t[0]))
    ensures SkipBlanks(blanks + t) == t
  {
    if blanks == "" {
      assert blanks + t == t;
    } else {
      assert (blanks + t)[1..] == blanks[1..] + t;
      SkipTheseBlanks(blanks[1..], t);
    }
  }

  lemma ScannedNumber(s: string, literal: string, limit: nat, n: nat, rest: string)
    requires ScanNumber(s, literal, limit) == Some((n, rest))
    ensures NumberText(s, literal, limit, n, rest)
  {
    hide NumberOf, SkipBlanks, ScanBlank;
    var after := s[|literal|..];
    var blanks := SkippedBlanks(after);
    var digits := LeadingDigits(SkipBlanks(after));
    assert after == blanks + (digits + rest);
    assert s == literal + blanks + digits + rest;
  }

  lemma NumberScanned(literal: string, blanks: string, digits: string, rest: string, limit: nat)
    requires (forall i :: 0 <= i < |blanks| ==> ScanBlank(blanks[i])) && digits != "" && AllDigits(digits)
    requires NumberOf(digits) < limit && (rest != "" ==> !IsDigit(rest[0]))
    ensures ScanNumber(literal + blanks + digits + rest, literal, limit) == Some((NumberOf(digits), rest))
  {
    var t := digits + rest;
    var s := literal + blanks + digits + rest;
    assert s == literal + (blanks + t) && s[|literal|..] == blanks + t;
    assert t[0] == digits[0] && !ScanBlank(t[0]);
    SkipTheseBlanks(blanks, t);
    LeadingDigitsOf(digits, rest);
    hide NumberOf, SkipBlanks, ScanBlank, LeadingDigits;
    assert t[|digits|..] == rest;
  }

  lemma ScanNumberIff(s: string, literal: string, limit: nat, n: nat, rest: string)
    ensures ScanNumber(s, literal, limit) == Some((n, rest)) <==> NumberText(s, literal, limit, n, rest)
  {
    hide NumberOf, ScanNumber, ScanBlank;
    if ScanNumber(s, literal, limit) == Some((n, rest)) { ScannedNumber(s, literal, limit, n, rest); }
    if NumberText(s, literal, limit, n, rest) {
      var blanks, digits :|
        (forall i :: 0 <= i < |blanks| ==> ScanBlank(blanks[i])) && digits != "" && AllDigits(digits) && NumberOf(digits) == n &&
        s == literal + blanks + digits + rest;
      NumberScanned(literal, blanks, digits, rest, limit);
    }
  }

  /** The three numbers of the parameter field, and some text behind them. */
  ghost predicate ParamText(s: string, memory: nat, time: nat, parallelism: nat) {
    exists a, b, c ::
      NumberText(s, "m=", UINT32, memory, a) && NumberText(a, ",t=", UINT32, time, b) && NumberText(b, ",p=", 256, parallelism, c)
  }

  lemma ScanParamsIff(s: string, memory: nat, time: nat, parallelism: nat)
    ensures ScanParams(s) == Some((memory, time, parallelism)) <==> ParamText(s, memory, time, parallelism)
  {
    hide ScanNumber, NumberText;
    if ScanParams(s) == Some((memory, time, parallelism)) {
      var m := ScanNumber(s, "m=", UINT32).value;
      var t := ScanNumber(m.1, ",t=", UINT32).value;
      var p := ScanNumber(t.1, ",p=", 256).value;
      ScanNumberIff(s, "m=", UINT32, memory, m.1);
      ScanNumberIff(m.1, ",t=", UINT32, time, t.1);
      ScanNumberIff(t.1, ",p=", 256, parallelism, p.1);
    }
    if ParamText(s, memory, time, parallelism) {
      var a, b, c :|
        NumberText(s, "m=", UINT32, memory, a) && NumberText(a, ",t=", UINT32, time, b) && NumberText(b, ",p=", 256, parallelism, c);
      ScanNumberIff(s, "m=", UINT32, memory, a);
      ScanNumberIff(a, ",t=", UINT32, time, b);
      ScanNumberIff(b, ",p=", 256, parallelism, c);
    }
  }

  /** The texts that are read, and as what: six fields with the algorithm and the version in
      their places, numbers in the fourth, salt and key in the last two. */
  lemma DecodeHashIff(encoded: string, d: Decoded)
    ensures DecodeHash(encoded) == Some(d) <==>
            d.params.saltLen == |d.salt| % UINT32 && d.params.keyLen == |d.sum| % UINT32 &&
            exists head, numbers, salt, sum ::
              '$' !in head && '$' !in numbers && '$' !in salt && '$' !in sum &&
              encoded == Join([head, "argon2id", "v=19", numbers, salt, sum], '$') &&
              ParamText(numbers, d.params.memory, d.params.time, d.params.parallelism) &&
              Decode(RAW, salt) == Some(d.salt) && Decode(RAW, sum) == Some(d.sum)
  {
    hide Split, Join, ScanParams, ParamText, Decode;
    var parts := Split(encoded, '$');
    SplitIff(encoded, '$', parts);
    if DecodeHash(encoded) == Some(d) {
      ScanParamsIff(parts[3], d.params.memory, d.params.time, d.params.parallelism);
      assert parts == [parts[0], "argon2id", "v=19", parts[3], parts[4], parts[5]];
    }
    if d.params.saltLen == |d.salt| % UINT32 && d.params.keyLen == |d.sum| % UINT32 {
      forall head, numbers, salt, sum |
        '$' !in head && '$' !in numbers && '$' !in salt && '$' !in sum &&
        encoded == Join([head, "argon2id", "v=19", numbers, salt, sum], '$') &&
        ParamText(numbers, d.params.memory, d.params.time, d.params.parallelism) &&
        Decode(RAW, salt) == Some(d.salt) && Decode(RAW, sum) == Some(d.sum)
        ensures DecodeHash(encoded) == Some(d)
      {
        var fields := [head, "argon2id", "v=19", numbers, salt, sum];
        SplitIff(encoded, '$', fields);
        ScanParamsIff(numbers, d.params.memory, d.params.time, d.params.parallelism);
      }
    }
  }

  // ----- hashing and verifying -----

  /** argon2.IDKey(password, salt, time, memory, threads, keyLen). */
  type Kdf = (seq<byte>, seq<byte>, nat, nat, nat, nat) -> seq<byte>

  ghost predicate LawfulKdf(argon: Kdf) {
    forall pw, salt, t, m, p, n :: |argon(pw, salt, t, m, p, n)| == n
  }

  function Verify(argon: Kdf, encoded: string, password: seq<byte>): Option<HashError> {
    var d := DecodeHash(encoded);
    if d.None? then Some(InvalidHash)
    else
      var p := d.value.params;
      if argon(password, d.value.salt, p.time, p.memory, p.parallelism, |d.value.sum| % UINT32) == d.value.sum
      then None else Some(MismatchedHash)
  }

  /** A hash is never invalid, and it verifies exactly the passwords with the same derived
      key, its own among them. */
  lemma VerifyAcceptsWhatHashMade(argon: Kdf, p: Params, salt: seq<byte>, password: seq<byte>, attempt: seq<byte>)
    requires LawfulKdf(argon) && InRange(p) && |salt| == p.saltLen
    ensures var key := pw => argon(pw, salt, p.time, p.memory, p.parallelism, p.keyLen);
            Verify(argon, EncodeHash(p, salt, key(password)), attempt) ==
            (if key(attempt) == key(password) then None else Some(MismatchedHash)) &&
            Verify(argon, EncodeHash(p, salt, key(password)), password) == None
  {
    hide EncodeHash, DecodeHash;
    HashRoundTrip(p, salt, argon(password, salt, p.time, p.memory, p.parallelism, p.keyLen));
  }

  /** random is the salt the random source gave, if it gave one. The printed text verifies
      exactly the passwords that derive the same key, the hashed one among them. */
  method HashWithParams(argon: Kdf, password: seq<byte>, p: Params, random: Option<seq<byte>>)
    returns (r: Option<string>, err: Option<HashError>)
    requires InRange(p) && (random.Some? ==> |random.value| == p.saltLen)
    ensures err == if p.memory == 0 || p.time == 0 || p.parallelism == 0 || p.saltLen == 0 || p.keyLen == 0 then Some(ZeroParameter)
                   else if random.None? then Some(NoRandomness) else None
    ensures r.Some? <==> err.None?
    ensures r.Some? ==>
              r == Some(EncodeHash(p, random.value, argon(password, random.value, p.time, p.memory, p.parallelism, p.keyLen)))
    ensures r.Some? && LawfulKdf(argon) ==>
              DecodeHash(r.value).Some? && DecodeHash(r.value).value.params == p &&
              var key := pw => argon(pw, random.value, p.time, p.memory, p.parallelism, p.keyLen);
              forall attempt :: Verify(argon, r.value, attempt) == if key(attempt) == key(password) then None else Some(MismatchedHash)
  {
    hide EncodeHash, DecodeHash, Verify;
    if p.memory == 0 || p.time == 0 || p.parallelism == 0 || p.saltLen == 0 || p.keyLen == 0 {
      return None, Some(ZeroParameter);
    }
    if random.None? { return None, Some(NoRandomness); }
    var sum := argon(password, random.value, p.time, p.memory, p.parallelism, p.keyLen);
    r, err := Some(EncodeHash(p, random.value, sum)), None;
    if LawfulKdf(argon) {
      HashRoundTrip(p, random.value, sum);
      forall attempt ensures Verify(argon, r.value, attempt) ==
          if argon(attempt, random.value, p.time, p.memory, p.parallelism, p.keyLen) == sum then None else Some(MismatchedHash)
      {
        VerifyAcceptsWhatHashMade(argon, p, random.value, password, attempt);
      }
    }
  }

  /** Text behind the parameters is ignored: such a hash is read as if it were not there. */
  lemma TrailingTextIsIgnored(p: Params, salt: seq<byte>, sum: seq<byte>, junk: string)
    requires InRange(p) && '$' !in junk && (junk != "" ==> !IsDigit(junk[0]))
    ensures DecodeHash(Join(["", ALGORITHM, VERSION, PrintParams(p) + junk, Encode(RAW, salt), Encode(RAW, sum)], '$')) ==
            DecodeHash(EncodeHash(p, salt, sum))
  {
    hide Encode, Decode, PrintParams, ScanParams, Split, Join, EncodeHash, IsDigit;
    var parts := ["", ALGORITHM, VERSION, PrintParams(p) + junk, Encode(RAW, salt), Encode(RAW, sum)];
    EncodedHasNoDollar(salt);
    EncodedHasNoDollar(sum);
    PrintedHasNoDollar(p);
    HashRoundTrip(p, salt, sum);
    RoundTrip(RAW, salt);
    RoundTrip(RAW, sum);
    PrintedAndJunkAreScanned(p, junk);
    SplitUndoesJoin(parts, '$');
  }

  lemma PrintedAndJunkAreScanned(p: Params, junk: string)
    requires InRange(p) && (junk != "" ==> !IsDigit(junk[0]))
    ensures ScanParams(PrintParams(p) + junk) == Some((p.memory, p.time, p.parallelism))
  {
    hide ScanNumber, Decimal;
    var tail2 := ",p=" + (Decimal(p.parallelism) + junk);
    var tail1 := ",t=" + (Decimal(p.time) + tail2);
    PrintedNumberIsScanned(",p=", p.parallelism, junk, 256);
    PrintedNumberIsScanned(",t=", p.time, tail2, UINT32);
    PrintedNumberIsScanned("m=", p.memory, tail1, UINT32);
    assert PrintParams(p) + junk == "m=" + (Decimal(p.memory) + tail1);
  }
}
