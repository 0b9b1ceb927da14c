/** The JavaScript string and number built-ins the applications rely on:
    `String.prototype.trim`, `substring`, `split` with a one-character
    separator, global `parseInt` without a radix, and the rendering of an
    integral Number inside a template literal. Strings are sequences of
    Unicode scalar values. */
module JsText {

  /** WhiteSpace and LineTerminator code points of ECMAScript, the set that
      `trim` removes and that `parseInt` skips. */
  predicate IsJsWhitespace(c: char) {
    || c == '\t' || c == '\n' || c == '\U{000B}' || c == '\U{000C}' || c == '\r'
    || c == ' ' || c == '\U{00A0}' || c == '\U{1680}'
    || ('\U{2000}' <= c <= '\U{200A}')
    || c == '\U{2028}' || c == '\U{2029}' || c == '\U{202F}' || c == '\U{205F}'
    || c == '\U{3000}' || c == '\U{FEFF}'
  }

  /** Drops the leading whitespace: a suffix of `s` that starts with a
      non-whitespace character, or is empty. */
  function TrimStart(s: string): (r: string)
    ensures |r| <= |s| && r == s[|s| - |r|..]
    ensures forall i :: 0 <= i < |s| - |r| ==> IsJsWhitespace(s[i])
    ensures r == [] || !IsJsWhitespace(r[0])
  {
    if s != [] && IsJsWhitespace(s[0]) then
      var r := TrimStart(s[1..]);
      assert forall i :: 1 <= i < |s| ==> s[i] == s[1..][i - 1];
      r
    else s
  }

  /** Drops the trailing whitespace: a prefix of `s` that ends with a
      non-whitespace character, or is empty. */
  function TrimEnd(s: string): (r: string)
    ensures |r| <= |s| && r == s[..|r|]
    ensures forall i :: |r| <= i < |s| ==> IsJsWhitespace(s[i])
    ensures r == [] || !IsJsWhitespace(r[|r| - 1])
  {
    if s != [] && IsJsWhitespace(s[|s| - 1]) then TrimEnd(s[..|s| - 1]) else s
  }

  /** `s.trim()` */
  function Trim(s: string): string {
    TrimEnd(TrimStart(s))
  }

  /** A title the handlers refuse: `title.trim()` is the empty, falsy string. */
  predicate IsBlank(s: string) {
    Trim(s) == []
  }

  /** A string is blank exactly when every character of it is whitespace. */
  lemma BlankIffAllWhitespace(s: string)
    ensures IsBlank(s) <==> forall i :: 0 <= i < |s| ==> IsJsWhitespace(s[i])
  {
    var t := TrimStart(s);
    if t != [] {
      assert !IsJsWhitespace(t[0]);
      assert TrimEnd(t) != [];
      assert !IsJsWhitespace(s[|s| - |t|]);
    }
  }

  /** `s.substring(0, n)` for `n >= 0`: at most the first `n` characters. */
  function Prefix(s: string, n: nat): (r: string)
    ensures |r| == if |s| < n then |s| else n
    ensures r <= s
  {
    if |s| <= n then s else s[..n]
  }

  /** The index of the first `c` in `s`, or -1 (`s.indexOf(c)`). */
  function IndexOf(s: string, c: char): (i: int)
    ensures -1 <= i < |s|
    ensures i == -1 ==> c !in s
    ensures i >= 0 ==> s[i] == c && c !in s[..i]
  {
    if s == [] then -1
    else if s[0] == c then 0
    else
      var j := IndexOf(s[1..], c);
      assert s[1..][..if j < 0 then 0 else j] == s[1..if j < 0 then 1 else j + 1];
      if j < 0 then -1 else j + 1
  }

  /** `s.split(sep)` for a one-character separator: the pieces between
      separators, at least one, none containing the separator. */
  function Split(s: string, sep: char): (parts: seq<string>)
    ensures |parts| >= 1
    ensures forall k :: 0 <= k < |parts| ==> sep !in parts[k]
    decreases |s|
  {
    var i := IndexOf(s, sep);
    if i < 0 then [s]
    else
      var rest := Split(s[i + 1..], sep);
      assert forall k :: 1 <= k <= |rest| ==> ([s[..i]] + rest)[k] == rest[k - 1];
      [s[..i]] + rest
  }

  /** `parts.join(sep)` */
  function Join(parts: seq<string>, sep: char): string
    requires |parts| >= 1
  {
    if |parts| == 1 then parts[0] else parts[0] + [sep] + Join(parts[1..], sep)
  }

  /** Splitting loses nothing: joining the pieces gives the input back. */
  lemma {:induction false} SplitJoin(s: string, sep: char)
    ensures Join(Split(s, sep), sep) == s
    decreases |s|
  {
    var i := IndexOf(s, sep);
    if i >= 0 {
      var head, tail := s[..i], s[i + 1..];
      SplitJoin(tail, sep);
      SplitAt(s, sep, i);
      JoinCons(head, Split(tail, sep), sep);
      CutAround(s, i);
    }
  }

  /** `Split` at its first separator. */
  lemma SplitAt(s: string, sep: char, i: nat)
    requires i == IndexOf(s, sep)
    ensures Split(s, sep) == [s[..i]] + Split(s[i + 1..], sep)
  {
  }

  lemma CutAround(s: string, i: nat)
    requires i < |s|
    ensures s[..i] + [s[i]] + s[i + 1..] == s
  {
  }

  lemma JoinCons(head: string, rest: seq<string>, sep: char)
    requires |rest| >= 1
    ensures Join([head] + rest, sep) == head + [sep] + Join(rest, sep)
  {
    assert ([head] + rest)[1..] == rest;
  }

  /** A string without the separator is a single piece; one with exactly
      one separator is the two pieces around it. */
  lemma SplitTwo(a: string, b: string, sep: char)
    requires sep !in a && sep !in b
    ensures Split(a, sep) == [a]
    ensures Split(a + [sep] + b, sep) == [a, b]
  {
    var s := a + [sep] + b;
    assert s[|a|] == sep;
    assert s[..|a|] == a;
    assert s[|a| + 1..] == b;
    var i := IndexOf(s, sep);
    assert i == |a|;
  }

  /** A Number as far as this model needs one: NaN or an integer. */
  datatype JsNumber = NaN | Num(value: int)

  /** The value of an ASCII letter or digit as a digit of radix up to 36,
      36 for every other character. */
  function DigitValue(c: char): (d: nat)
    ensures d <= 36
  {
    if '0' <= c <= '9' then (c - '0') as nat
    else if 'a' <= c <= 'z' then (c - 'a') as nat + 10
    else if 'A' <= c <= 'Z' then (c - 'A') as nat + 10
    else 36
  }

  /** The longest prefix of `s` made of digits of the given radix. */
  function DigitPrefix(s: string, radix: nat): (ds: string)
    ensures ds <= s
    ensures forall i :: 0 <= i < |ds| ==> DigitValue(ds[i]) < radix
    ensures |ds| < |s| ==> DigitValue(s[|ds|]) >= radix
  {
    if s != [] && DigitValue(s[0]) < radix then [s[0]] + DigitPrefix(s[1..], radix) else []
  }

  /** The mathematical value of a digit string, most significant first. */
  function DigitsValue(ds: string, radix: nat): nat {
    if ds == [] then 0
    else DigitsValue(ds[..|ds| - 1], radix) * radix + DigitValue(ds[|ds| - 1])
  }

  /** Global `parseInt(s)` without a radix argument: skip leading
      whitespace, then an optional sign, then the magnitude. */
  function ParseInt(s: string): JsNumber {
    var t := TrimStart(s);
    if |t| > 0 && t[0] == '-' then Negate(ParseMagnitude(t[1..]))
    else if |t| > 0 && t[0] == '+' then ParseMagnitude(t[1..])
    else ParseMagnitude(t)
  }

  /** A `0x`/`0X` prefix selects radix 16, otherwise radix 10. */
  function ParseMagnitude(u: string): JsNumber {
    if |u| >= 2 && u[0] == '0' && (u[1] == 'x' || u[1] == 'X') then ParseDigits(u[2..], 16)
    else ParseDigits(u, 10)
  }

  /** The value of the longest run of digits; no digit at all gives NaN. */
  function ParseDigits(u: string, radix: nat): JsNumber {
    var ds := DigitPrefix(u, radix);
    if ds == [] then NaN else Num(DigitsValue(ds, radix))
  }

  function Negate(x: JsNumber): JsNumber {
    match x
    case NaN => NaN
    case Num(v) => Num(-v)
  }

  function DecimalDigit(d: nat): (c: char)
    requires d < 10
    ensures DigitValue(c) == d
  {
    "0123456789"[d]
  }

  /** The decimal numeral of a natural number, without leading zeros. */
  function NatToString(n: nat): (s: string)
    ensures |s| >= 1
    ensures forall i :: 0 <= i < |s| ==> DigitValue(s[i]) < 10
    ensures n > 0 ==> s[0] != '0'
  {
    if n < 10 then [DecimalDigit(n)] else NatToString(n / 10) + [DecimalDigit(n % 10)]
  }

  /** `${n}` for an integral Number (below 1e21 in magnitude). */
  function IntToString(n: int): string {
    if n < 0 then "-" + NatToString(-n) else NatToString(n)
  }

  /** `${x}` for the Numbers this model produces. */
  function NumberToString(x: JsNumber): string {
    match x
    case NaN => "NaN"
    case Num(v) => IntToString(v)
  }

  /** Reading a numeral back gives the number that was rendered. */
  lemma {:induction false} NatToStringValue(n: nat)
    ensures DigitsValue(NatToString(n), 10) == n
  {
    var s := NatToString(n);
    if n >= 10 {
      NatToStringValue(n / 10);
      assert s[..|s| - 1] == NatToString(n / 10);
    }
  }

  /** A run of digits is its own digit prefix. */
  lemma {:induction false} DigitPrefixOfDigits(s: string, radix: nat)
    requires forall i :: 0 <= i < |s| ==> DigitValue(s[i]) < radix
    ensures DigitPrefix(s, radix) == s
  {
    if s != [] {
      DigitPrefixOfDigits(s[1..], radix);
    }
  }

  lemma DecimalDigitIsNotSpace(c: char)
    requires DigitValue(c) < 10
    ensures '0' <= c <= '9' && !IsJsWhitespace(c) && c != 'x' && c != 'X'
  {
  }

  /** `parseInt` of a non-empty run of decimal digits is its decimal value. */
  lemma ParseIntOfDecimal(s: string)
    requires |s| >= 1
    requires forall i :: 0 <= i < |s| ==> DigitValue(s[i]) < 10
    ensures ParseInt(s) == Num(DigitsValue(s, 10))
  {
    DecimalDigitIsNotSpace(s[0]);
    assert TrimStart(s) == s;
    DecimalMagnitude(s);
  }

  /** A run of decimal digits has no `0x` prefix and is read whole. */
  lemma DecimalMagnitude(s: string)
    requires |s| >= 1
    requires forall i :: 0 <= i < |s| ==> DigitValue(s[i]) < 10
    ensures ParseMagnitude(s) == Num(DigitsValue(s, 10))
  {
    assert ParseMagnitude(s) == ParseDigits(s, 10) by {
      if |s| >= 2 {
        DecimalDigitIsNotSpace(s[1]);
      }
    }
    assert DigitPrefix(s, 10) == s by {
      DigitPrefixOfDigits(s, 10);
    }
  }

  /** `parseInt` inverts the rendering of a natural number. */
  lemma ParseIntOfNatToString(n: nat)
    ensures ParseInt(NatToString(n)) == Num(n)
  {
    ParseIntOfDecimal(NatToString(n));
    NatToStringValue(n);
  }

  /** `parseInt` of two decimal digits, with or without a leading zero. */
  lemma ParseIntTwoDigits(d1: char, d2: char)
    requires DigitValue(d1) < 10 && DigitValue(d2) < 10
    ensures ParseInt([d1, d2]) == Num(10 * DigitValue(d1) + DigitValue(d2))
  {
    ParseIntOfDecimal([d1, d2]);
    assert [d1, d2][..1] == [d1];
    assert [d1][..0] == [];
    assert DigitsValue([d1], 10) == DigitValue(d1);
    assert DigitsValue([d1, d2], 10) == DigitsValue([d1], 10) * 10 + DigitValue(d2);
  }
}
