/** Placeholders in a TeX source, and filling them in one pass. */
module Substitution {
  import opened Json
  import opened Text

  const OPEN := "<<galadril:"
  const CLOSE := ">>"

  predicate OccursAt(text: string, pattern: string, i: nat) {
    i + |pattern| <= |text| && text[i..i + |pattern|] == pattern
  }

  /** The pattern occurs at `i` and nowhere before. */
  predicate FirstAt(text: string, pattern: string, i: nat) {
    OccursAt(text, pattern, i) && forall j :: 0 <= j < i ==> !OccursAt(text, pattern, j)
  }

  predicate Free(text: string, pattern: string) {
    forall j :: 0 <= j <= |text| ==> !OccursAt(text, pattern, j)
  }

  /** Splits around the first occurrence. */
  method SplitOnce(text: string, pattern: string) returns (r: Option<(string, string)>)
    requires pattern != ""
    ensures r.None? <==> Free(text, pattern)
    ensures r.Some? ==> text == r.value.0 + pattern + r.value.1 && FirstAt(text, pattern, |r.value.0|)
  {
    var i := 0;
    while i + |pattern| <= |text|
      invariant 0 <= i <= |text|
      invariant forall j :: 0 <= j < i ==> !OccursAt(text, pattern, j)
    {
      if text[i..i + |pattern|] == pattern {
        assert text == text[..i] + pattern + text[i + |pattern|..];
        assert OccursAt(text, pattern, i);
        return Some((text[..i], text[i + |pattern|..]));
      }
      i := i + 1;
    }
    return None;
  }

  // ---- what a source means -------------------------------------------------

  datatype Piece = Literal(text: string) | Placeholder(name: string)

  /** The source reads as these pieces: each placeholder opens at the first opening mark and closes at the first closing one. */
  ghost predicate Reads(text: string, pieces: seq<Piece>)
    decreases |pieces|
  {
    if |pieces| == 1 then pieces[0] == Literal(text) && Free(text, OPEN)
    else
      && |pieces| >= 3 && pieces[0].Literal? && pieces[1].Placeholder?
      && FirstAt(text, OPEN, |pieces[0].text|)
      && exists rest :: ReadsOn(text, pieces[0].text, pieces[1].name, rest) && Reads(rest, pieces[2..])
  }

  ghost predicate ReadsOn(text: string, literal: string, name: string, rest: string) {
    text == literal + OPEN + (name + CLOSE + rest) && FirstAt(name + CLOSE + rest, CLOSE, |name|)
  }

  lemma FirstOnly(text: string, pattern: string, i: nat, j: nat)
    requires FirstAt(text, pattern, i) && FirstAt(text, pattern, j)
    ensures i == j
  {
  }

  lemma SplitSame(a: string, b: string, mark: string, x: string, y: string)
    requires a + mark + x == b + mark + y && |a| == |b|
    ensures a == b && x == y
  {
    var t := a + mark + x;
    assert a == t[..|a|] && b == t[..|b|];
    assert x == t[|a| + |mark|..] && y == t[|b| + |mark|..];
  }

  lemma NotFree(text: string, pattern: string, i: nat)
    requires FirstAt(text, pattern, i)
    ensures !Free(text, pattern)
  {
  }

  /** A source reads in at most one way. */
  lemma {:induction false} ReadsOnce(text: string, p: seq<Piece>, q: seq<Piece>)
    requires Reads(text, p) && Reads(text, q)
    ensures p == q
    decreases |p|
  {
    hide Free, OccursAt, FirstAt;
    if |p| == 1 {
      if |q| != 1 { NotFree(text, OPEN, |q[0].text|); }
    } else if |q| == 1 {
      NotFree(text, OPEN, |p[0].text|);
    } else {
      var x :| ReadsOn(text, p[0].text, p[1].name, x) && Reads(x, p[2..]);
      var y :| ReadsOn(text, q[0].text, q[1].name, y) && Reads(y, q[2..]);
      FirstOnly(text, OPEN, |p[0].text|, |q[0].text|);
      SplitSame(p[0].text, q[0].text, OPEN, p[1].name + CLOSE + x, q[1].name + CLOSE + y);
      FirstOnly(p[1].name + CLOSE + x, CLOSE, |p[1].name|, |q[1].name|);
      SplitSame(p[1].name, q[1].name, CLOSE, x, y);
      ReadsOnce(x, p[2..], q[2..]);
      assert p == [p[0], p[1]] + p[2..] && q == [q[0], q[1]] + q[2..];
    }
  }

  function Fill(piece: Piece, values: map<string, string>): string {
    match piece
    case Literal(text) => text
    case Placeholder(name) => if name in values then values[name] else ""
  }

  /** The pieces in order, every placeholder replaced by its value; values are not looked at again. */
  function FillAll(pieces: seq<Piece>, values: map<string, string>): string {
    if pieces == [] then "" else Fill(pieces[0], values) + FillAll(pieces[1..], values)
  }

  predicate Known(pieces: seq<Piece>, values: map<string, string>) {
    forall i :: 0 <= i < |pieces| && pieces[i].Placeholder? ==> pieces[i].name in values
  }

  lemma FillTwo(pieces: seq<Piece>, values: map<string, string>)
    requires |pieces| >= 2
    ensures FillAll(pieces, values) == Fill(pieces[0], values) + Fill(pieces[1], values) + FillAll(pieces[2..], values)
  {
    assert pieces[1..][1..] == pieces[2..];
  }

  // ---- the substitution loop -----------------------------------------------

  datatype RenderError = Unclosed | UnknownPlaceholder | TooLarge

  /** The source reads as pieces whose placeholders are all known and whose filling fits. */
  ghost predicate Renders(text: string, values: map<string, string>, limit: nat, done: string, result: string) {
    exists pieces :: RendersAs(text, values, limit, done, result, pieces)
  }

  ghost predicate RendersAs(text: string, values: map<string, string>, limit: nat, done: string, result: string, pieces: seq<Piece>) {
    Reads(text, pieces) && Known(pieces, values) && result == done + FillAll(pieces, values) && ByteLength(result) <= limit
  }

  /** A source renders to at most one text. */
  lemma RendersOnce(text: string, values: map<string, string>, limit: nat, done: string, x: string, y: string)
    requires Renders(text, values, limit, done, x) && Renders(text, values, limit, done, y)
    ensures x == y
  {
    hide Reads;
    var p :| RendersAs(text, values, limit, done, x, p);
    var q :| RendersAs(text, values, limit, done, y, q);
    ReadsOnce(text, p, q);
  }

  lemma RendersStep(text: string, values: map<string, string>, limit: nat, done: string, result: string,
                    literal: string, name: string, rest: string)
    requires FirstAt(text, OPEN, |literal|) && ReadsOn(text, literal, name, rest) && name in values
    ensures Renders(text, values, limit, done, result) <==> Renders(rest, values, limit, done + literal + values[name], result)
  {
    hide Free, OccursAt, FirstAt, ByteLength;
    if Renders(text, values, limit, done, result) {
      var pieces: seq<Piece> :| RendersAs(text, values, limit, done, result, pieces);
      StepDown(text, values, limit, done, result, literal, name, rest, pieces);
    }
    if Renders(rest, values, limit, done + literal + values[name], result) {
      var more :| RendersAs(rest, values, limit, done + literal + values[name], result, more);
      StepUp(text, values, limit, done, result, literal, name, rest, more);
    }
  }

  lemma StepUp(text: string, values: map<string, string>, limit: nat, done: string, result: string,
               literal: string, name: string, rest: string, more: seq<Piece>)
    requires FirstAt(text, OPEN, |literal|) && ReadsOn(text, literal, name, rest) && name in values
    requires RendersAs(rest, values, limit, done + literal + values[name], result, more)
    ensures RendersAs(text, values, limit, done, result, [Literal(literal), Placeholder(name)] + more)
  {
    hide Free, OccursAt, FirstAt, ByteLength;
    var pieces := [Literal(literal), Placeholder(name)] + more;
    assert pieces[2..] == more;
    assert |more| >= 1;
    FillTwo(pieces, values);
    assert done + (literal + values[name] + FillAll(more, values)) == done + literal + values[name] + FillAll(more, values);
  }

  lemma StepDown(text: string, values: map<string, string>, limit: nat, done: string, result: string,
                 literal: string, name: string, rest: string, pieces: seq<Piece>)
    requires FirstAt(text, OPEN, |literal|) && ReadsOn(text, literal, name, rest) && name in values
    requires RendersAs(text, values, limit, done, result, pieces)
    ensures |pieces| >= 3 && RendersAs(rest, values, limit, done + literal + values[name], result, pieces[2..])
  {
    hide Free, OccursAt, FirstAt, ByteLength;
    NotFree(text, OPEN, |literal|);
    var x :| ReadsOn(text, pieces[0].text, pieces[1].name, x) && Reads(x, pieces[2..]);
    SameSplit(text, literal, name, rest, pieces[0].text, pieces[1].name, x);
    FillTwo(pieces, values);
    assert done + (literal + values[name] + FillAll(pieces[2..], values)) == done + literal + values[name] + FillAll(pieces[2..], values);
  }

  lemma SameSplit(text: string, a: string, name: string, rest: string, b: string, other: string, x: string)
    requires FirstAt(text, OPEN, |a|) && ReadsOn(text, a, name, rest)
    requires FirstAt(text, OPEN, |b|) && ReadsOn(text, b, other, x)
    ensures a == b && name == other && rest == x
  {
    hide Free, OccursAt, FirstAt;
    FirstOnly(text, OPEN, |a|, |b|);
    SplitSame(a, b, OPEN, name + CLOSE + rest, other + CLOSE + x);
    FirstOnly(name + CLOSE + rest, CLOSE, |name|, |other|);
    SplitSame(name, other, CLOSE, rest, x);
  }

  /** An opening mark without a closing one, or with an unknown name, cannot be rendered. */
  lemma Stuck(text: string, values: map<string, string>, limit: nat, done: string, literal: string, suffix: string)
    requires FirstAt(text, OPEN, |literal|) && text == literal + OPEN + suffix
    requires Free(suffix, CLOSE) || exists name, rest :: suffix == name + CLOSE + rest && FirstAt(suffix, CLOSE, |name|) && name !in values
    ensures forall result :: !Renders(text, values, limit, done, result)
  {
    forall result, pieces ensures !RendersAs(text, values, limit, done, result, pieces) {
      if Reads(text, pieces) && Known(pieces, values) {
        StuckOn(text, values, literal, suffix, pieces);
      }
    }
  }

  lemma StuckOn(text: string, values: map<string, string>, literal: string, suffix: string, pieces: seq<Piece>)
    requires FirstAt(text, OPEN, |literal|) && text == literal + OPEN + suffix
    requires Free(suffix, CLOSE) || exists name, rest :: suffix == name + CLOSE + rest && FirstAt(suffix, CLOSE, |name|) && name !in values
    requires Reads(text, pieces)
    ensures !Known(pieces, values)
  {
    hide OccursAt, FirstAt, Free;
    NotFree(text, OPEN, |literal|);
    var x :| ReadsOn(text, pieces[0].text, pieces[1].name, x) && Reads(x, pieces[2..]);
    FirstOnly(text, OPEN, |literal|, |pieces[0].text|);
    SplitSame(literal, pieces[0].text, OPEN, suffix, pieces[1].name + CLOSE + x);
    NotFree(suffix, CLOSE, |pieces[1].name|);
    var name, rest :| suffix == name + CLOSE + rest && FirstAt(suffix, CLOSE, |name|) && name !in values;
    FirstOnly(suffix, CLOSE, |name|, |pieces[1].name|);
    SplitSame(name, pieces[1].name, CLOSE, rest, x);
    assert pieces[1] == Placeholder(name);
  }

  lemma Oversized(text: string, values: map<string, string>, limit: nat, done: string)
    requires ByteLength(done) > limit
    ensures forall result :: !Renders(text, values, limit, done, result)
  {
    forall result, pieces ensures !RendersAs(text, values, limit, done, result, pieces) {
      ByteLengthConcat(done, FillAll(pieces, values));
    }
  }

  lemma RendersEnd(text: string, values: map<string, string>, limit: nat, done: string, result: string)
    requires Free(text, OPEN)
    ensures Renders(text, values, limit, done, result) <==> result == done + text && ByteLength(result) <= limit
  {
    hide OccursAt, FirstAt, ByteLength, Free;
    assert FillAll([Literal(text)], values) == text + FillAll([Literal(text)][1..], values);
    assert FillAll([Literal(text)], values) == text;
    if Renders(text, values, limit, done, result) {
      var pieces: seq<Piece> :| RendersAs(text, values, limit, done, result, pieces);
      if |pieces| != 1 { NotFree(text, OPEN, |pieces[0].text|); }
      assert pieces == [Literal(text)];
    }
    if result == done + text && ByteLength(result) <= limit {
      assert RendersAs(text, values, limit, done, result, [Literal(text)]);
    }
  }

  /** Fills the placeholders of a source in one pass. */
  method Substitute(text: string, values: map<string, string>, limit: nat) returns (r: Result<string, RenderError>)
    ensures r.Ok? ==> Renders(text, values, limit, "", r.value)
    ensures r.Err? ==> forall result :: !Renders(text, values, limit, "", result)
  {
    hide Renders, Free, OccursAt, FirstAt, ByteLength;
    var result, remainder := "", text;
    while true
      invariant forall out :: Renders(text, values, limit, "", out) <==> Renders(remainder, values, limit, result, out)
      decreases |remainder|
    {
      var start := SplitOnce(remainder, OPEN);
      if start.None? {
        break;
      }
      var prefix, suffix := start.value.0, start.value.1;
      var end := SplitOnce(suffix, CLOSE);
      if end.None? {
        Stuck(remainder, values, limit, result, prefix, suffix);
        return Err(Unclosed);
      }
      var name, rest := end.value.0, end.value.1;
      if name !in values {
        Stuck(remainder, values, limit, result, prefix, suffix);
        return Err(UnknownPlaceholder);
      }
      forall out ensures Renders(remainder, values, limit, result, out) <==>
                         Renders(rest, values, limit, result + prefix + values[name], out) {
        RendersStep(remainder, values, limit, result, out, prefix, name, rest);
      }
      result := result + prefix + values[name];
      if ByteLength(result) > limit {
        Oversized(rest, values, limit, result);
        return Err(TooLarge);
      }
      remainder := rest;
    }
    forall out ensures Renders(remainder, values, limit, result, out) <==> out == result + remainder && ByteLength(out) <= limit {
      RendersEnd(remainder, values, limit, result, out);
    }
    result := result + remainder;
    if ByteLength(result) > limit {
      return Err(TooLarge);
    }
    return Ok(result);
  }
}
