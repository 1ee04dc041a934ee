/** Escaping text for TeX, and the decoder that undoes it. */
module Escaping {

  /** Unicode control characters, the general category Cc. */
  predicate Control(c: char) {
    c as int < 0x20 || 0x7F <= c as int < 0xA0
  }

  predicate Dropped(c: char) {
    Control(c) && c != '\n' && c != '\t'
  }

  predicate Special(c: char) {
    c in {'\\', '{', '}', '%', '&', '#', '_', '$', '^', '~'}
  }

  const BACKSLASH := "\\textbackslash{}"
  const CIRCUMFLEX := "\\textasciicircum{}"
  const TILDE := "\\textasciitilde{}"

  function EscapeChar(c: char): string {
    match c
    case '\\' => BACKSLASH
    case '{' => "\\{"
    case '}' => "\\}"
    case '%' => "\\%"
    case '&' => "\\&"
    case '#' => "\\#"
    case '_' => "\\_"
    case '$' => "\\$"
    case '^' => CIRCUMFLEX
    case '~' => TILDE
    case _ => if Dropped(c) then "" else [c]
  }

  function Escape(s: string): string {
    if s == "" then "" else Escape(s[..|s| - 1]) + EscapeChar(s[|s| - 1])
  }

  /** Escapes each scalar once. */
  method EscapeText(value: string) returns (result: string)
    ensures result == Escape(value)
  {
    result := "";
    for i := 0 to |value|
      invariant result == Escape(value[..i])
    {
      assert value[..i + 1][..i] == value[..i];
      result := result + EscapeChar(value[i]);
    }
    assert value[..|value|] == value;
  }

  // ---- undoing it ----------------------------------------------------------

  /** The length of the escape a text starts with, and the character it stands for. */
  function FirstChar(t: string): (r: (char, nat))
    requires t != ""
    ensures 0 < r.1 <= |t|
  {
    if t[0] != '\\' then (t[0], 1)
    else if BACKSLASH <= t then ('\\', |BACKSLASH|)
    else if CIRCUMFLEX <= t then ('^', |CIRCUMFLEX|)
    else if TILDE <= t then ('~', |TILDE|)
    else if |t| > 1 then (t[1], 2)
    else ('\\', 1)
  }

  function Unescape(t: string): string
    decreases |t|
  {
    if t == "" then "" else [FirstChar(t).0] + Unescape(t[FirstChar(t).1..])
  }

  /** The text without the control characters that escaping drops. */
  function Kept(s: string): string {
    if s == "" then ""
    else if Dropped(s[0]) then Kept(s[1..])
    else [s[0]] + Kept(s[1..])
  }

  lemma Lengths()
    ensures |BACKSLASH| == 16 && |CIRCUMFLEX| == 18 && |TILDE| == 17
    ensures BACKSLASH[5] == 'b' && CIRCUMFLEX[5] == 'a' && TILDE[5] == 'a'
    ensures CIRCUMFLEX[10] == 'c' && TILDE[10] == 't'
    ensures BACKSLASH[1] == 't' && CIRCUMFLEX[1] == 't' && TILDE[1] == 't'
  {
  }

  lemma DecodesFirst(c: char, rest: string)
    requires !Dropped(c)
    ensures EscapeChar(c) != "" && FirstChar(EscapeChar(c) + rest) == (c, |EscapeChar(c)|)
  {
    Lengths();
    var t := EscapeChar(c) + rest;
    if c == '\\' {
      assert BACKSLASH <= t;
    } else if c == '^' {
      assert CIRCUMFLEX <= t && t[5] == 'a';
    } else if c == '~' {
      assert TILDE <= t && t[5] == 'a' && t[10] == 't';
    } else if Special(c) {
      assert t[0] == '\\' && t[1] == c;
    } else {
      assert t[0] == c;
    }
  }

  lemma {:induction false} EscapeFromFront(s: string)
    requires s != ""
    ensures Escape(s) == EscapeChar(s[0]) + Escape(s[1..])
  {
    if |s| > 1 {
      var front := s[..|s| - 1];
      EscapeFromFront(front);
      assert s[1..][..|s| - 2] == front[1..];
    } else {
      assert s[..0] == "" && s[1..] == "";
    }
  }

  /** Decoding an escaped text gives the text back, minus what escaping drops. */
  lemma {:induction false} UnescapeEscape(s: string)
    ensures Unescape(Escape(s)) == Kept(s)
  {
    if s != "" {
      EscapeFromFront(s);
      UnescapeEscape(s[1..]);
      if Dropped(s[0]) {
        assert EscapeChar(s[0]) == "";
        assert Escape(s) == Escape(s[1..]);
      } else {
        DecodesFirst(s[0], Escape(s[1..]));
        assert Escape(s)[|EscapeChar(s[0])|..] == Escape(s[1..]);
      }
    }
  }

  // ---- what TeX makes of it ------------------------------------------------

  predicate Letter(c: char) {
    'a' <= c <= 'z' || 'A' <= c <= 'Z'
  }

  /** How many letters a text starts with: the extent of a control word. */
  function Letters(t: string): (n: nat)
    ensures n <= |t| && (forall i :: 0 <= i < n ==> Letter(t[i])) && (n < |t| ==> !Letter(t[n]))
  {
    if t == "" || !Letter(t[0]) then 0 else 1 + Letters(t[1..])
  }

  /** Control symbols that just print a character. */
  const PRINTED := {'{', '}', '%', '&', '#', '_', '$'}

  /** Control words that just print a character. */
  const SYMBOLS := {"textbackslash", "textasciicircum", "textasciitilde"}

  /**
   Reading the text as TeX does, control words extending over all the letters that follow the backslash, yields nothing
   but ordinary characters and commands that print one character, each control word closed by an empty group.  There is
   no other command, no group, comment, alignment, parameter, script, math shift or tie.
   */
  predicate PlainTeX(t: string)
    decreases |t|
  {
    if t == "" then true
    else if t[0] != '\\' then !Special(t[0]) && PlainTeX(t[1..])
    else if |t| > 1 && Letter(t[1]) then
      var n := Letters(t[1..]);
      t[1..1 + n] in SYMBOLS && "{}" <= t[1 + n..] && PlainTeX(t[3 + n..])
    else |t| > 1 && t[1] in PRINTED && PlainTeX(t[2..])
  }

  /** In plain text a special character is printed by a backslash before it, belongs to the empty group after a word, or is that backslash. */
  lemma {:induction false} PlainPositions(t: string, i: nat)
    requires PlainTeX(t) && i < |t|
    ensures t[i] != '^' && t[i] != '~'
    ensures t[i] in {'%', '&', '#', '_', '$'} ==> i > 0 && t[i - 1] == '\\'
    ensures t[i] == '{' ==> i > 0 && (t[i - 1] == '\\' || (Letter(t[i - 1]) && i + 1 < |t| && t[i + 1] == '}'))
    ensures t[i] == '}' ==> i > 0 && (t[i - 1] == '\\' || t[i - 1] == '{')
    decreases |t|
  {
    if t[0] != '\\' {
      if i > 0 {
        PlainPositions(t[1..], i - 1);
        if i == 1 { PlainStart(t[1..]); }
      }
    } else if Letter(t[1]) {
      var n := Letters(t[1..]);
      var word := t[1..1 + n];
      assert |word| > 0;
      assert t[1 + n..][0] == '{' && t[1 + n..][1] == '}';
      if 1 <= i < 1 + n {
        assert Letter(t[1..][i - 1]);
      } else if i == 1 + n {
        assert Letter(t[1..][n - 1]);
      } else if i >= 3 + n {
        PlainPositions(t[3 + n..], i - (3 + n));
        if i == 3 + n { PlainStart(t[3 + n..]); }
      }
    } else if i >= 2 {
      PlainPositions(t[2..], i - 2);
      if i == 2 { PlainStart(t[2..]); }
    }
  }

  /** Plain text does not begin in the middle of something. */
  lemma PlainStart(t: string)
    requires PlainTeX(t) && t != ""
    ensures t[0] == '\\' || !Special(t[0])
  {
  }

  lemma WordStart(word: string, rest: string)
    requires word in SYMBOLS
    ensures |word| > 0 && Letter(word[0]) && Letters(word + "{}" + rest) == |word|
  {
    var t := word + "{}" + rest;
    assert t[|word|] == '{';
    forall i | 0 <= i < |word| ensures Letter(t[i]) { assert t[i] == word[i]; }
  }

  lemma PlainWord(word: string, rest: string)
    requires word in SYMBOLS && PlainTeX(rest)
    ensures PlainTeX("\\" + word + "{}" + rest)
  {
    var t := "\\" + word + "{}" + rest;
    WordStart(word, rest);
    assert t[1..] == word + "{}" + rest;
    assert t[1] == word[0];
    assert t[1..1 + |word|] == word;
    assert t[1 + |word|..] == "{}" + rest;
    assert t[3 + |word|..] == rest;
  }

  lemma PlainChar(c: char, rest: string)
    requires !Dropped(c) && PlainTeX(rest)
    ensures PlainTeX(EscapeChar(c) + rest)
  {
    hide PlainTeX;
    if c == '\\' {
      PlainWord("textbackslash", rest);
      assert EscapeChar(c) + rest == "\\" + "textbackslash" + "{}" + rest;
    } else if c == '^' {
      PlainWord("textasciicircum", rest);
      assert EscapeChar(c) + rest == "\\" + "textasciicircum" + "{}" + rest;
    } else if c == '~' {
      PlainWord("textasciitilde", rest);
      assert EscapeChar(c) + rest == "\\" + "textasciitilde" + "{}" + rest;
    } else {
      PlainOne(c, rest);
    }
  }

  lemma PlainOne(c: char, rest: string)
    requires !Dropped(c) && PlainTeX(rest) && c != '\\' && c != '^' && c != '~'
    ensures PlainTeX(EscapeChar(c) + rest)
  {
    var t := EscapeChar(c) + rest;
    if Special(c) {
      assert t[0] == '\\' && t[1] == c && t[2..] == rest;
    } else {
      assert t[0] == c && t[1..] == rest;
    }
  }

  /** An inserted value is plain text to TeX, whatever it is. */
  lemma {:induction false} EscapedIsPlain(s: string)
    ensures PlainTeX(Escape(s))
  {
    hide PlainTeX, EscapeChar, Dropped;
    if s == "" {
      NothingIsPlain();
    } else {
      EscapeFromFront(s);
      EscapedIsPlain(s[1..]);
      if Dropped(s[0]) {
        DroppedIsNothing(s[0]);
        assert Escape(s) == Escape(s[1..]);
      } else {
        PlainChar(s[0], Escape(s[1..]));
      }
    }
  }

  lemma NothingIsPlain()
    ensures PlainTeX("")
  {
  }

  lemma DroppedIsNothing(c: char)
    requires Dropped(c)
    ensures EscapeChar(c) == ""
  {
  }

  /** Replacing characters one by one does not make text plain in general: left alone, a percent sign is not. */
  lemma UnescapedIsNotPlain()
    ensures !PlainTeX("%") && !PlainTeX("\\input{x}")
  {
    var t := "\\input{x}";
    assert t[1..] == "input{x}";
    var u := t[1..];
    assert Letter(u[0]) && Letter(u[1]) && Letter(u[2]) && Letter(u[3]) && Letter(u[4]) && !Letter(u[5]);
    assert Letters(u) == 5;
    assert |t[1..6]| == 5;
  }
}
