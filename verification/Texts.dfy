/** Splitting and joining texts, as Go's package strings does. */
module Texts {
  import opened Prelude

  function Join(parts: seq<string>, sep: char): string
    requires parts != []
  {
    if |parts| == 1 then parts[0] else parts[0] + [sep] + Join(parts[1..], sep)
  }

  function Split(s: string, sep: char): (parts: seq<string>)
    ensures parts != []
  {
    if s == "" then [""]
    else
      var rest := Split(s[1..], sep);
      if s[0] == sep then [""] + rest else [[s[0]] + rest[0]] + rest[1..]
  }

  lemma {:induction false} SplitField(field: string, sep: char, rest: string)
    requires sep !in field
    ensures Split(field, sep) == [field]
    ensures Split(field + [sep] + rest, sep) == [field] + Split(rest, sep)
  {
    if field == "" {
      assert ("" + [sep] + rest)[1..] == rest;
    } else {
      SplitField(field[1..], sep, rest);
      var s := field + [sep] + rest;
      assert s[1..] == field[1..] + [sep] + rest;
      assert [field[0]] + field[1..] == field;
    }
  }

  /** Fields that do not hold the separator are found again. */
  lemma {:induction false} SplitUndoesJoin(parts: seq<string>, sep: char)
    requires parts != [] && forall i :: 0 <= i < |parts| ==> sep !in parts[i]
    ensures Split(Join(parts, sep), sep) == parts
  {
    if |parts| == 1 {
      SplitField(parts[0], sep, "");
    } else {
      SplitField(parts[0], sep, Join(parts[1..], sep));
      SplitUndoesJoin(parts[1..], sep);
      assert parts == [parts[0]] + parts[1..];
    }
  }

  /** No field holds the separator, nor a character that is not in the text. */
  lemma {:induction false} SplitFields(s: string, sep: char, c: char)
    requires c == sep || c !in s
    ensures forall i :: 0 <= i < |Split(s, sep)| ==> c !in Split(s, sep)[i]
  {
    if s != "" {
      SplitFields(s[1..], sep, c);
    }
  }

  lemma {:induction false} JoinUndoesSplit(s: string, sep: char)
    ensures Join(Split(s, sep), sep) == s
    ensures forall i :: 0 <= i < |Split(s, sep)| ==> sep !in Split(s, sep)[i]
  {
    SplitFields(s, sep, sep);
    if s != "" {
      JoinUndoesSplit(s[1..], sep);
      var rest := Split(s[1..], sep);
      assert s == [s[0]] + s[1..];
      if s[0] == sep {
        assert ([""] + rest)[1..] == rest;
      } else if |rest| > 1 {
        var first := [s[0]] + rest[0];
        assert ([first] + rest[1..])[1..] == rest[1..];
        assert first + [sep] + Join(rest[1..], sep) == [s[0]] + (rest[0] + [sep] + Join(rest[1..], sep));
      }
    }
  }

  /** The fields of a text are the separator-free texts that it joins. */
  lemma SplitIff(s: string, sep: char, parts: seq<string>)
    requires parts != []
    ensures Split(s, sep) == parts <==> s == Join(parts, sep) && forall i :: 0 <= i < |parts| ==> sep !in parts[i]
  {
    JoinUndoesSplit(s, sep);
    if s == Join(parts, sep) && forall i :: 0 <= i < |parts| ==> sep !in parts[i] { SplitUndoesJoin(parts, sep); }
  }

  // ----- strings.TrimSpace -----

  function TrimLeft(s: string): string {
    if s != "" && IsSpace(s[0]) then TrimLeft(s[1..]) else s
  }

  function TrimRight(s: string): string {
    if s != "" && IsSpace(s[|s| - 1]) then TrimRight(s[..|s| - 1]) else s
  }

  function TrimSpace(s: string): string { TrimRight(TrimLeft(s)) }

  /** s is t with blanks around it, and t has none at its ends. */
  ghost predicate Trimmed(s: string, t: string) {
    (t == "" || (!IsSpace(t[0]) && !IsSpace(t[|t| - 1]))) &&
    exists pre, post :: Blank(pre) && Blank(post) && s == pre + t + post
  }

  lemma {:induction false} TrimLeftIs(s: string) returns (pre: string)
    ensures Blank(pre) && s == pre + TrimLeft(s) && (TrimLeft(s) == "" || !IsSpace(TrimLeft(s)[0]))
  {
    pre := "";
    if s != "" && IsSpace(s[0]) {
      var rest := TrimLeftIs(s[1..]);
      pre := [s[0]] + rest;
    }
  }

  lemma {:induction false} TrimRightIs(s: string) returns (post: string)
    ensures Blank(post) && s == TrimRight(s) + post && (TrimRight(s) == "" || !IsSpace(TrimRight(s)[|TrimRight(s)| - 1]))
  {
    post := "";
    if s != "" && IsSpace(s[|s| - 1]) {
      var rest := TrimRightIs(s[..|s| - 1]);
      post := rest + [s[|s| - 1]];
    }
  }

  lemma {:induction false} TrimLeftDrops(pre: string, t: string)
    requires Blank(pre) && (t == "" || !IsSpace(t[0]))
    ensures TrimLeft(pre + t) == t
  {
    if pre == "" {
      assert pre + t == t;
    } else {
      assert (pre + t)[1..] == pre[1..] + t;
      TrimLeftDrops(pre[1..], t);
    }
  }

  lemma {:induction false} TrimRightDrops(t: string, post: string)
    requires Blank(post) && (t == "" || !IsSpace(t[|t| - 1]))
    ensures TrimRight(t + post) == t
  {
    if post == "" {
      assert t + post == t;
    } else {
      assert (t + post)[..|t + post| - 1] == t + post[..|post| - 1];
      TrimRightDrops(t, post[..|post| - 1]);
    }
  }

  lemma TrimSpaceTrims(s: string)
    ensures Trimmed(s, TrimSpace(s))
  {
    var pre := TrimLeftIs(s);
    var post := TrimRightIs(TrimLeft(s));
    hide Blank, IsSpace, TrimLeft, TrimRight;
    var r := TrimSpace(s);
    assert s == pre + r + post;
    if r != "" { assert r[0] == TrimLeft(s)[0]; }
  }

  lemma TrimmedIsTrimmed(a: string, t: string, b: string)
    requires Blank(a) && Blank(b) && (t == "" || (!IsSpace(t[0]) && !IsSpace(t[|t| - 1])))
    ensures TrimSpace(a + t + b) == t
  {
    if t == "" {
      assert a + t + b == (a + b) + "" && Blank(a + b);
      TrimLeftDrops(a + b, "");
      TrimRightDrops("", "");
      assert "" + "" == "";
    } else {
      assert a + t + b == a + (t + b) && (t + b)[0] == t[0];
      TrimLeftDrops(a, t + b);
      TrimRightDrops(t, b);
    }
  }

  /** TrimSpace takes off the blanks at both ends, and nothing else. */
  lemma TrimSpaceIff(s: string, t: string)
    ensures TrimSpace(s) == t <==> Trimmed(s, t)
  {
    TrimSpaceTrims(s);
    hide Blank, IsSpace, TrimSpace;
    if Trimmed(s, t) {
      var a, b :| Blank(a) && Blank(b) && s == a + t + b;
      TrimmedIsTrimmed(a, t, b);
    }
  }

  /** A text that begins with a non-space keeps its part up to a non-space. */
  lemma {:induction false} TrimKeepsHead(head: string, tail: string)
    requires head != "" && !IsSpace(head[0]) && !IsSpace(head[|head| - 1])
    ensures head <= TrimSpace(head + tail)
  {
    assert (head + tail)[0] == head[0];
    TrimRightKeepsHead(head, tail);
  }

  lemma {:induction false} TrimRightKeepsHead(head: string, tail: string)
    requires head != "" && !IsSpace(head[|head| - 1])
    ensures head <= TrimRight(head + tail)
  {
    if tail == "" {
      assert head + tail == head;
    } else {
      TrimRightKeepsHead(head, tail[..|tail| - 1]);
      assert (head + tail)[..|head + tail| - 1] == head + tail[..|tail| - 1];
    }
  }

  // ----- strings.Fields -----

  predicate IsWord(w: string) { w != "" && forall i :: 0 <= i < |w| ==> !IsSpace(w[i]) }

  function LeadingWord(s: string): (w: string)
    ensures |w| <= |s| && w == s[..|w|] && forall i :: 0 <= i < |w| ==> !IsSpace(w[i])
    ensures s != "" && !IsSpace(s[0]) ==> w != ""
    ensures |w| < |s| ==> IsSpace(s[|w|])
  {
    if s != "" && !IsSpace(s[0]) then [s[0]] + LeadingWord(s[1..]) else ""
  }

  function Words(s: string): (ws: seq<string>)
    ensures forall i :: 0 <= i < |ws| ==> IsWord(ws[i])
    decreases |s|
  {
    if s == "" then []
    else if IsSpace(s[0]) then Words(s[1..])
    else [LeadingWord(s)] + Words(s[|LeadingWord(s)|..])
  }

  lemma {:induction false} LeadingWordOf(w: string, rest: string)
    requires IsWord(w) && (rest != "" ==> IsSpace(rest[0]))
    ensures LeadingWord(w + rest) == w
  {
    if |w| == 1 {
      assert (w + rest)[1..] == rest;
    } else {
      assert (w + rest)[1..] == w[1..] + rest;
      LeadingWordOf(w[1..], rest);
    }
  }

  /** Blanks in front are skipped, however many and of whatever kind. */
  lemma {:induction false} WordsSkipBlanks(blanks: string, s: string)
    requires Blank(blanks)
    ensures Words(blanks + s) == Words(s)
  {
    if blanks == "" {
      assert blanks + s == s;
    } else {
      assert (blanks + s)[1..] == blanks[1..] + s;
      WordsSkipBlanks(blanks[1..], s);
    }
  }

  /** A word that ends the text or stands before a blank is the first one. */
  lemma WordsTakeWord(w: string, rest: string)
    requires IsWord(w) && (rest != "" ==> IsSpace(rest[0]))
    ensures Words(w + rest) == [w] + Words(rest)
  {
    LeadingWordOf(w, rest);
    assert (w + rest)[0] == w[0] && (w + rest)[|w|..] == rest;
  }

  /** Words joined by blanks are found again. */
  lemma {:induction false} WordsOfJoin(ws: seq<string>)
    requires ws != [] && forall i :: 0 <= i < |ws| ==> IsWord(ws[i])
    ensures Words(Join(ws, ' ')) == ws
  {
    var w := ws[0];
    if |ws| == 1 {
      LeadingWordOf(w, "");
      assert w + "" == w;
      assert w[|w|..] == "" && Words("") == [];
    } else {
      var rest := [' '] + Join(ws[1..], ' ');
      var all := Join(ws, ' ');
      assert all == w + rest;
      LeadingWordOf(w, rest);
      assert all[0] == w[0] && all[|w|..] == rest && rest[1..] == Join(ws[1..], ' ');
      WordsOfJoin(ws[1..]);
      assert ws == [w] + ws[1..];
    }
  }
}
