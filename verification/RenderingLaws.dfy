/** What a rendering inserts, and which files it touches. */
module RenderingLaws {
  import opened Json
  import opened Text
  import opened Escaping
  import opened Substitution
  import opened Templates

  // ---- numerals ------------------------------------------------------------

  function DigitValue(c: char): int {
    c as int - '0' as int
  }

  function ReadDecimal(s: string): int {
    if s == "" then 0 else 10 * ReadDecimal(s[..|s| - 1]) + DigitValue(s[|s| - 1])
  }

  /** Reads a numeral with an optional minus sign. */
  function ReadNumeral(s: string): int {
    if s != "" && s[0] == '-' then -ReadDecimal(s[1..]) else ReadDecimal(s)
  }

  lemma {:induction false} DecimalReadsBack(n: nat)
    ensures ReadDecimal(Decimal(n)) == n
    ensures forall i :: 0 <= i < |Decimal(n)| ==> '0' <= Decimal(n)[i] <= '9'
  {
    var s := Decimal(n);
    if n < 10 {
      assert s[..0] == "";
      assert ReadDecimal("") == 0;
    } else {
      DecimalReadsBack(n / 10);
      assert s[..|s| - 1] == Decimal(n / 10);
    }
  }

  lemma NumeralReadsBack(n: int)
    ensures ReadNumeral(Numeral(n)) == n
    ensures forall i :: 0 <= i < |Numeral(n)| ==> Numeral(n)[i] == '-' || '0' <= Numeral(n)[i] <= '9'
  {
    if n < 0 {
      DecimalReadsBack(-n);
      assert Numeral(n)[1..] == Decimal(-n);
    } else {
      DecimalReadsBack(n);
    }
  }

  lemma {:induction false} OrdinaryIsPlain(s: string)
    requires forall i :: 0 <= i < |s| ==> !Special(s[i])
    ensures PlainTeX(s)
  {
    if s != "" { OrdinaryIsPlain(s[1..]); }
  }

  // ---- values --------------------------------------------------------------

  /** The value a document gives suits the variable. */
  predicate Suits(v: Variable, value: Value) {
    match v.kind
    case TextKind => value.Str? && ByteLength(value.s) <= 32768
    case IntegerKind => value.Num? && -0x8000_0000_0000_0000 <= value.n < 0x8000_0000_0000_0000
    case BooleanKind => value.Bool?
    case ChoiceKind => value.Str? && value.s in v.choices
  }

  /** A document is accepted exactly if it gives no unknown variable, every required one, and only suitable values. */
  lemma AcceptedMeans(t: Template, d: Document)
    ensures ValuesOk(t, d) <==>
      && d.variables.Keys <= t.variables.Keys
      && (forall name :: name in t.variables && t.variables[name].required ==> name in d.variables)
      && (forall name :: name in t.variables && name in d.variables ==> Suits(t.variables[name], d.variables[name]))
  {
    hide ByteLength, Escape, Numeral;
    forall name | name in t.variables
      ensures ValueFor(t, d, name).Some? <==>
        (if name in d.variables then Suits(t.variables[name], d.variables[name]) else !t.variables[name].required) {}
  }

  /** What stands for a value in the rendered text: a text TeX prints as the value, minus what escaping drops. */
  ghost predicate StandsFor(inserted: string, value: Value) {
    match value
    case Str(s) => Unescape(inserted) == Kept(s)
    case Num(n) => ReadNumeral(inserted) == n
    case Bool(b) => inserted == if b then "true" else "false"
    case _ => false
  }

  lemma EscapedStandsFor(s: string)
    ensures PlainTeX(Escape(s)) && StandsFor(Escape(s), Str(s))
  {
    hide PlainTeX, Unescape, Kept, Escape;
    EscapedIsPlain(s);
    UnescapeEscape(s);
  }

  lemma NumeralStandsFor(n: int)
    ensures PlainTeX(Numeral(n)) && StandsFor(Numeral(n), Num(n))
  {
    hide PlainTeX, Numeral;
    NumeralReadsBack(n);
    OrdinaryIsPlain(Numeral(n));
  }

  lemma WordsStandFor(b: bool)
    ensures var s := if b then "true" else "false"; PlainTeX(s) && StandsFor(s, Bool(b))
  {
    hide PlainTeX;
    OrdinaryIsPlain("true");
    OrdinaryIsPlain("false");
  }

  /** Every inserted value is plain text to TeX and stands for what the document gave; a missing one is empty. */
  lemma InsertedMeans(t: Template, d: Document, name: string)
    requires ValuesOk(t, d) && name in t.variables
    ensures name in Values(t, d) && PlainTeX(Values(t, d)[name])
    ensures name in d.variables ==> StandsFor(Values(t, d)[name], d.variables[name])
    ensures name !in d.variables ==> Values(t, d)[name] == ""
  {
    hide PlainTeX, Escape, Numeral, Unescape, Kept, ByteLength, StandsFor;
    assert ValueFor(t, d, name).Some?;
    if name !in d.variables {
      NothingIsPlain();
    } else {
      match d.variables[name]
      case Str(s) => EscapedStandsFor(s);
      case Num(n) => NumeralStandsFor(n);
      case Bool(b) => WordsStandFor(b);
      case _ =>
    }
  }

  // ---- rendered texts ------------------------------------------------------

  /** The rendered text is the original with every placeholder replaced by the plain text that stands for its variable. */
  ghost predicate InsertsPlainly(t: Template, d: Document, text: string, result: string) {
    exists pieces :: PlainPieces(t, d, text, result, pieces)
  }

  ghost predicate PlainPieces(t: Template, d: Document, text: string, result: string, pieces: seq<Piece>) {
    && Reads(text, pieces) && result == FillAll(pieces, Values(t, d))
    && forall i :: 0 <= i < |pieces| && pieces[i].Placeholder? ==>
         && pieces[i].name in Values(t, d) && PlainTeX(Values(t, d)[pieces[i].name])
         && (pieces[i].name in d.variables ==> StandsFor(Values(t, d)[pieces[i].name], d.variables[pieces[i].name]))
  }

  lemma RenderedPlainly(t: Template, d: Document, text: string, result: string)
    requires ValuesOk(t, d) && Renders(text, Values(t, d), MAX_PROJECT_BYTES, "", result)
    ensures InsertsPlainly(t, d, text, result)
  {
    hide PlainTeX, StandsFor, Reads, Values, ValuesOk;
    var pieces: seq<Piece> :| RendersAs(text, Values(t, d), MAX_PROJECT_BYTES, "", result, pieces);
    assert "" + FillAll(pieces, Values(t, d)) == FillAll(pieces, Values(t, d));
    forall i | 0 <= i < |pieces| && pieces[i].Placeholder?
      ensures PlainTeX(Values(t, d)[pieces[i].name])
      ensures pieces[i].name in d.variables ==> StandsFor(Values(t, d)[pieces[i].name], d.variables[pieces[i].name])
    {
      ValueIsVariable(t, d, pieces[i].name);
      InsertedMeans(t, d, pieces[i].name);
    }
    assert PlainPieces(t, d, text, result, pieces);
  }

  lemma ValueIsVariable(t: Template, d: Document, name: string)
    requires name in Values(t, d)
    ensures name in t.variables
  {
  }

  /** No rendering inserts anything but plain text, neither in the entrypoint nor in any other file TeX reads. */
  lemma RenderingIsPlain(t: Template, d: Document, out: Rendered)
    requires RenderedAs(t, d, out)
    ensures exists text :: EntrySource(t, d, text) && InsertsPlainly(t, d, text, out.entrypoint)
    ensures var others := Others(t.assets, t.entrypoint);
      && |out.assets| == |others|
      && forall i :: 0 <= i < |others| && TexLike(others[i].path) ==>
           && others[i].data.Utf8? && out.assets[i].data.Utf8?
           && InsertsPlainly(t, d, others[i].data.text, out.assets[i].data.text)
  {
    hide InsertsPlainly, Renders, TemplateOk, ValuesOk, Values, Extension, Others;
    var text :| EntrySource(t, d, text) && Renders(text, Values(t, d), MAX_PROJECT_BYTES, "", out.entrypoint);
    RenderedPlainly(t, d, text, out.entrypoint);
    var others := Others(t.assets, t.entrypoint);
    forall i | 0 <= i < |others| && TexLike(others[i].path)
      ensures others[i].data.Utf8? && out.assets[i].data.Utf8?
      ensures InsertsPlainly(t, d, others[i].data.text, out.assets[i].data.text)
    {
      assert FileRendered(Values(t, d), others[i], out.assets[i]);
      RenderedPlainly(t, d, others[i].data.text, out.assets[i].data.text);
    }
  }

  // ---- files ---------------------------------------------------------------

  /** The other files keep their order. */
  lemma {:induction false} OthersInOrder(assets: seq<Asset>, entrypoint: string, i: nat, j: nat) returns (p: nat, q: nat)
    requires i < j < |Others(assets, entrypoint)|
    ensures p < q < |assets| && assets[p] == Others(assets, entrypoint)[i] && assets[q] == Others(assets, entrypoint)[j]
  {
    var front, last := assets[..|assets| - 1], assets[|assets| - 1];
    var others := Others(front, entrypoint);
    if j < |others| {
      p, q := OthersInOrder(front, entrypoint, i, j);
    } else {
      q := |assets| - 1;
      p := OtherIsAsset(front, entrypoint, i);
    }
  }

  lemma {:induction false} OtherIsAsset(assets: seq<Asset>, entrypoint: string, i: nat) returns (p: nat)
    requires i < |Others(assets, entrypoint)|
    ensures p < |assets| && assets[p] == Others(assets, entrypoint)[i]
  {
    var front := assets[..|assets| - 1];
    if i < |Others(front, entrypoint)| {
      p := OtherIsAsset(front, entrypoint, i);
    } else {
      p := |assets| - 1;
    }
  }

  /** The extension is what follows the last dot. */
  lemma {:induction false} ExtensionMeans(path: string, e: string)
    ensures Extension(path) == Some(e) <==> '.' !in e && |e| < |path| && path == path[..|path| - |e| - 1] + "." + e
  {
    if path != "" {
      ExtensionMeans(path[1..], e);
      var n := |path| - |e| - 1;
      if Extension(path) == Some(e) {
        if Extension(path[1..]).Some? {
          assert path == [path[0]] + path[1..];
          assert path[1..][..n - 1] == path[1..n];
          assert path == path[..n] + "." + e;
        } else {
          NoDot(path[1..]);
          assert path == path[..0] + "." + e;
        }
      }
      if '.' !in e && |e| < |path| && path == path[..n] + "." + e {
        if n > 0 {
          assert path[1..] == path[1..][..n - 1] + "." + e;
        } else {
          assert path[1..] == e && path[0] == '.';
          NoDotNoExtension(e);
        }
      }
    }
  }

  lemma {:induction false} NoDot(path: string)
    requires Extension(path).None?
    ensures '.' !in path
  {
    if path != "" {
      NoDot(path[1..]);
      assert path == [path[0]] + path[1..];
    }
  }

  lemma {:induction false} NoDotNoExtension(path: string)
    requires '.' !in path
    ensures Extension(path).None?
  {
    if path != "" {
      assert path == [path[0]] + path[1..];
      NoDotNoExtension(path[1..]);
    }
  }

  /** Files are rendered exactly if their extension is that of a TeX source, a class or a style. */
  lemma TexLikeMeans(path: string)
    ensures TexLike(path) <==> EndsIn(path, "tex") || EndsIn(path, "cls") || EndsIn(path, "sty")
  {
    ExtensionMeans(path, "tex");
    ExtensionMeans(path, "cls");
    ExtensionMeans(path, "sty");
  }

  predicate EndsIn(path: string, e: string) {
    |e| < |path| && path[|path| - |e| - 1] == '.' && path[|path| - |e|..] == e
  }

  function Joined(parts: seq<string>): string
    requires |parts| > 0
  {
    if |parts| == 1 then parts[0] else parts[0] + "/" + Joined(parts[1..])
  }

  /** The parts of a path are what its slashes separate. */
  lemma {:induction false} PartsMean(path: string)
    ensures Joined(Parts(path)) == path
    ensures forall part :: part in Parts(path) ==> '/' !in part
  {
    if path != "" {
      var rest := Parts(path[1..]);
      PartsMean(path[1..]);
      assert rest[0] in rest;
      assert path == [path[0]] + path[1..];
      if path[0] == '/' {
        var parts := [""] + rest;
        assert parts[1..] == rest;
        assert Joined(parts) == "" + "/" + Joined(rest);
      } else {
        var parts := [[path[0]] + rest[0]] + rest[1..];
        assert parts[1..] == rest[1..];
        if |rest| == 1 {
          assert Joined(parts) == [path[0]] + Joined(rest);
        } else {
          assert Joined(parts) == [path[0]] + rest[0] + "/" + Joined(rest[1..]);
          assert Joined(rest) == rest[0] + "/" + Joined(rest[1..]);
        }
        forall part | part in parts ensures '/' !in part {
          if part != parts[0] { assert part in rest[1..]; assert part in rest; }
        }
      }
    }
  }
}
