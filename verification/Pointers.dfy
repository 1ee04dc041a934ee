/** JSON Pointers built from key paths, and the decoder that shows they lose nothing. */
module Pointers {

  type Path = seq<string>

  /** Replaces every occurrence of one character, as `str::replace` does. */
  function Replace(s: string, c: char, t: string): string {
    if s == [] then [] else (if s[0] == c then t else [s[0]]) + Replace(s[1..], c, t)
  }

  function Token(key: string): string {
    Replace(Replace(key, '~', "~0"), '/', "~1")
  }

  /** The pointer of a key path, extended key by key. */
  function Pointer(path: Path): string {
    if path == [] then "" else Pointer(path[..|path| - 1]) + "/" + Token(path[|path| - 1])
  }

  // ---- decoding (sections 3 and 4 of RFC 6901) -----------------------------

  /** Reads one reference token up to the next '/', undoing `~1` and `~0`. */
  function ReadToken(s: string): (r: (string, string))
    ensures |r.1| <= |s| && (r.1 == [] || r.1[0] == '/')
  {
    if s == [] || s[0] == '/' then ([], s)
    else if s[0] == '~' && |s| > 1 && (s[1] == '0' || s[1] == '1') then
      var (token, rest) := ReadToken(s[2..]);
      ([if s[1] == '0' then '~' else '/'] + token, rest)
    else
      var (token, rest) := ReadToken(s[1..]);
      ([s[0]] + token, rest)
  }

  function Decode(p: string): Path
    requires p == [] || p[0] == '/'
    decreases |p|
  {
    if p == [] then []
    else
      var (token, rest) := ReadToken(p[1..]);
      [token] + Decode(rest)
  }

  // ---- round trip ----------------------------------------------------------

  lemma {:induction false} ReplaceConcat(s: string, u: string, c: char, t: string)
    ensures Replace(s + u, c, t) == Replace(s, c, t) + Replace(u, c, t)
  {
    if s == [] {
      assert s + u == u;
    } else {
      assert (s + u)[1..] == s[1..] + u;
      ReplaceConcat(s[1..], u, c, t);
    }
  }

  function Escaped(c: char): string {
    if c == '~' then "~0" else if c == '/' then "~1" else [c]
  }

  /** The two replacements act on each character on its own. */
  lemma TokenStep(key: string)
    requires key != []
    ensures Token(key) == Escaped(key[0]) + Token(key[1..])
  {
    var once := if key[0] == '~' then "~0" else [key[0]];
    assert Replace(key, '~', "~0") == once + Replace(key[1..], '~', "~0");
    ReplaceConcat(once, Replace(key[1..], '~', "~0"), '/', "~1");
    assert Replace("~0", '/', "~1") == "~0" by {
      assert "~0"[1..] == "0" && "0"[1..] == "";
      assert Replace("0", '/', "~1") == "0";
    }
    assert forall c: char :: [c][1..] == [];
    assert Replace([key[0]], '/', "~1") == if key[0] == '/' then "~1" else [key[0]];
  }

  lemma ReadEscaped(c: char, tail: string)
    ensures ReadToken(Escaped(c) + tail) == ([c] + ReadToken(tail).0, ReadToken(tail).1)
  {
    var s := Escaped(c) + tail;
    if c == '~' || c == '/' {
      assert s[0] == '~' && s[1] == (if c == '~' then '0' else '1') && s[2..] == tail;
    } else {
      assert s[0] == c && s[1..] == tail;
    }
  }

  lemma Assoc(a: string, b: string, c: string)
    ensures a + b + c == a + (b + c)
  {
  }

  lemma Uncons(s: string)
    requires s != []
    ensures [s[0]] + s[1..] == s
  {
  }

  lemma {:induction false} TokenRead(key: string, rest: string)
    requires rest == [] || rest[0] == '/'
    ensures ReadToken(Token(key) + rest) == (key, rest)
  {
    if key == [] {
      assert Token(key) + rest == rest;
    } else {
      hide *;
      var e, t := Escaped(key[0]), Token(key[1..]);
      calc {
        ReadToken(Token(key) + rest);
        { TokenStep(key); }
        ReadToken(e + t + rest);
        { Assoc(e, t, rest); }
        ReadToken(e + (t + rest));
        { ReadEscaped(key[0], t + rest); }
        ([key[0]] + ReadToken(t + rest).0, ReadToken(t + rest).1);
        { TokenRead(key[1..], rest); }
        ([key[0]] + key[1..], rest);
        { Uncons(key); }
        (key, rest);
      }
    }
  }

  lemma {:induction false} PointerFromFront(path: Path)
    requires path != []
    ensures Pointer(path) == "/" + Token(path[0]) + Pointer(path[1..])
  {
    var last := path[|path| - 1];
    if |path| == 1 {
      assert path[..0] == [] && path[1..] == [];
    } else {
      var front := path[..|path| - 1];
      PointerFromFront(front);
      assert front[1..] == path[1..][..|path| - 2];
      calc {
        Pointer(path);
        Pointer(front) + "/" + Token(last);
        "/" + Token(path[0]) + Pointer(front[1..]) + "/" + Token(last);
        "/" + Token(path[0]) + (Pointer(front[1..]) + "/" + Token(last));
        "/" + Token(path[0]) + Pointer(path[1..]);
      }
    }
  }

  lemma {:induction false} PointerShape(path: Path)
    ensures Pointer(path) == [] || Pointer(path)[0] == '/'
    ensures Pointer(path) == [] <==> path == []
  {
    if path != [] { PointerFromFront(path); }
  }

  /** Decoding a pointer gives its key path back, so distinct paths have distinct pointers. */
  lemma {:induction false} RoundTrip(path: Path)
    ensures Pointer(path) == [] || Pointer(path)[0] == '/'
    ensures Decode(Pointer(path)) == path
  {
    PointerShape(path);
    if path != [] {
      PointerFromFront(path);
      PointerShape(path[1..]);
      var p := Pointer(path);
      assert p[1..] == Token(path[0]) + Pointer(path[1..]);
      TokenRead(path[0], Pointer(path[1..]));
      RoundTrip(path[1..]);
      assert path == [path[0]] + path[1..];
    }
  }

  lemma PointerInjective(p: Path, q: Path)
    requires Pointer(p) == Pointer(q)
    ensures p == q
  {
    RoundTrip(p);
    RoundTrip(q);
  }
}
