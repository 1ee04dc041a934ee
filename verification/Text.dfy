/** String measures and alphabets used by the validators. */
module Text {

  /** Bytes one scalar value takes in UTF-8. */
  function CharWidth(c: char): (w: nat)
    ensures 1 <= w <= 4
  {
    if c as int < 0x80 then 1
    else if c as int < 0x800 then 2
    else if c as int < 0x10000 then 3
    else 4
  }

  /** The byte length that Rust's `str::len` reports. */
  function ByteLength(s: string): nat {
    if s == [] then 0 else CharWidth(s[0]) + ByteLength(s[1..])
  }

  lemma {:induction false} ByteLengthConcat(s: string, t: string)
    ensures ByteLength(s + t) == ByteLength(s) + ByteLength(t)
  {
    if s == [] {
      assert s + t == t;
    } else {
      assert (s + t)[1..] == s[1..] + t;
      ByteLengthConcat(s[1..], t);
    }
  }

  predicate StartsWith(s: string, prefix: string) {
    prefix <= s
  }

  predicate AsciiAlphanumeric(c: char) {
    '0' <= c <= '9' || 'a' <= c <= 'z' || 'A' <= c <= 'Z'
  }

  /** Unicode White_Space, the class `str::trim` removes. */
  predicate Whitespace(c: char) {
    var n := c as int;
    || 0x09 <= n <= 0x0D || n == 0x20 || n == 0x85 || n == 0xA0 || n == 0x1680
    || 0x2000 <= n <= 0x200A || n == 0x2028 || n == 0x2029 || n == 0x202F || n == 0x205F || n == 0x3000
  }

  predicate Blank(s: string) {
    forall i :: 0 <= i < |s| ==> Whitespace(s[i])
  }

  /** Path-safe names: block identities, branch names and pipeline identities. */
  predicate ValidName(s: string) {
    && 0 < ByteLength(s) <= 128
    && forall i :: 0 <= i < |s| ==> AsciiAlphanumeric(s[i]) || s[i] == '_' || s[i] == '-'
  }

  predicate ValidRevision(s: string) {
    && 20 <= ByteLength(s) <= 128
    && forall i :: 0 <= i < |s| ==> AsciiAlphanumeric(s[i]) || s[i] == '_' || s[i] == '-'
  }

  function Digit(d: nat): (c: char)
    requires d < 10
    ensures c as int == '0' as int + d
  {
    ('0' as int + d) as char
  }

  /** The decimal numeral of a number, without leading zeros. */
  function Decimal(n: nat): (s: string)
    ensures |s| > 0
  {
    if n < 10 then [Digit(n)] else Decimal(n / 10) + [Digit(n % 10)]
  }

  lemma {:induction false} DecimalInjective(m: nat, n: nat)
    requires Decimal(m) == Decimal(n)
    ensures m == n
  {
    var s := Decimal(m);
    assert s[|s| - 1] == Digit(m % 10) && s[|s| - 1] == Digit(n % 10);
    if m < 10 {
      assert |s| == 1;
    } else {
      assert s[..|s| - 1] == Decimal(m / 10);
      if n >= 10 {
        assert s[..|s| - 1] == Decimal(n / 10);
        DecimalInjective(m / 10, n / 10);
      }
    }
  }
}
