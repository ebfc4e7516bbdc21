/** JavaScript values and the string built-ins the server leans on.

    The server reads JSON files and urlencoded request bodies and coerces
    whatever it finds with `String(x)`, `x || fallback`, `.trim()`,
    `.slice(0, n)` and `.toLowerCase()`. This module gives each of those an
    explicit, total definition over a small JSON value type, so that the
    normalisation code elsewhere can be modelled branch for branch.
 */
module JsValues {

  datatype Option<+T> = None | Some(value: T)

  /** A JSON value as it can appear in a data file or a request body.
      Numbers are integers; `Obj` is an object whose fields are never
      consulted at the position where it occurs. */
  datatype Value =
    | Null
    | Bool(b: bool)
    | Num(n: int)
    | Str(s: string)
    | List(items: seq<Value>)
    | Obj

  /** JavaScript truthiness: `null`, `false`, `0` and `""` are falsy. */
  predicate Truthy(v: Value) {
    match v
    case Null => false
    case Bool(b) => b
    case Num(n) => n != 0
    case Str(s) => s != ""
    case List(_) => true
    case Obj => true
  }

  /** `field || fallback` where an absent field is `undefined`. */
  function Or(field: Option<Value>, fallback: Value): Value {
    if field.Some? && Truthy(field.value) then field.value else fallback
  }

  // ---------------------------------------------------------------------
  // Decimal rendering of integers, as template literals and String() do.

  predicate IsDigit(c: char) {
    '0' <= c <= '9'
  }

  function DigitChar(d: nat): (c: char)
    requires d < 10
    ensures IsDigit(c)
  {
    (48 + d) as char
  }

  /** The decimal numeral of `n` without sign or leading zeros. */
  function NatToString(n: nat): (r: string)
    ensures |r| >= 1
    ensures forall i :: 0 <= i < |r| ==> IsDigit(r[i])
    ensures (|r| == 1) == (n < 10)
  {
    if n < 10 then [DigitChar(n)] else NatToString(n / 10) + [DigitChar(n % 10)]
  }

  /** Distinct numbers have distinct numerals. */
  lemma {:induction false} NatToStringInjective(a: nat, b: nat)
    requires NatToString(a) == NatToString(b)
    ensures a == b
  {
    if a >= 10 && b >= 10 {
      var sa, sb := NatToString(a), NatToString(b);
      assert sa[..|sa| - 1] == NatToString(a / 10);
      assert sb[..|sb| - 1] == NatToString(b / 10);
      NatToStringInjective(a / 10, b / 10);
      assert DigitChar(a % 10) == sa[|sa| - 1] == sb[|sb| - 1] == DigitChar(b % 10);
    }
  }

  /** A JavaScript array index is below 2^32 - 1, so its numeral has at
      most ten digits. */
  lemma {:induction false} NatToStringShort(n: nat, k: nat)
    requires 1 <= k
    requires n < Pow10(k)
    ensures |NatToString(n)| <= k
  {
    if n >= 10 {
      NatToStringShort(n / 10, k - 1);
    }
  }

  function Pow10(k: nat): (p: nat)
    ensures p >= 1
  {
    if k == 0 then 1 else 10 * Pow10(k - 1)
  }

  const MaxArrayLength: nat := 0xFFFF_FFFF

  lemma IndexNumeralShort(idx: nat)
    ensures idx < MaxArrayLength ==> |NatToString(idx + 1)| <= 10
  {
    if idx < MaxArrayLength {
      assert Pow10(10) == 10000000000;
      NatToStringShort(idx + 1, 10);
    }
  }

  function IntToString(n: int): string {
    if n < 0 then "-" + NatToString(-n) else NatToString(n)
  }

  // ---------------------------------------------------------------------
  // String(x)

  function Join(parts: seq<string>): string {
    if |parts| == 0 then ""
    else if |parts| == 1 then parts[0]
    else parts[0] + "," + Join(parts[1..])
  }

  /** `String(v)`. An array renders as its elements joined by commas, with
      `null` elements rendering as the empty string. */
  function ToStr(v: Value): string {
    match v
    case Null => "null"
    case Bool(b) => if b then "true" else "false"
    case Num(n) => IntToString(n)
    case Str(s) => s
    case List(items) =>
      Join(seq(|items|, i requires 0 <= i < |items| =>
        if items[i].Null? then "" else ToStr(items[i])))
    case Obj => "[object Object]"
  }

  /** `String(field || "")`. */
  function FieldText(field: Option<Value>): string {
    ToStr(Or(field, Str("")))
  }

  /** A non-empty string field reads back as itself. */
  lemma TextField(s: string, fallback: Value)
    requires s != ""
    ensures ToStr(Or(Some(Str(s)), fallback)) == s
  {
    assert Or(Some(Str(s)), fallback) == Str(s);
  }

  // ---------------------------------------------------------------------
  // trim, slice, case mapping

  /** ECMAScript WhiteSpace and LineTerminator code points, the set that
      `String.prototype.trim` removes. */
  predicate IsSpace(c: char) {
    || c == '\t' || c == '\n' || c == '\U{000B}' || c == '\U{000C}' || c == '\r'
    || c == ' ' || c == '\U{00A0}' || c == '\U{1680}'
    || ('\U{2000}' <= c <= '\U{200A}')
    || c == '\U{2028}' || c == '\U{2029}' || c == '\U{202F}' || c == '\U{205F}'
    || c == '\U{3000}' || c == '\U{FEFF}'
  }

  function TrimStart(s: string): (r: string)
    ensures |r| <= |s| && r == s[|s| - |r|..]
    ensures r == [] || !IsSpace(r[0])
  {
    if s != [] && IsSpace(s[0]) then TrimStart(s[1..]) else s
  }

  function TrimEnd(s: string): (r: string)
    ensures |r| <= |s| && r == s[..|r|]
    ensures r == [] || !IsSpace(r[|r| - 1])
    ensures s != [] && !IsSpace(s[0]) ==> r != []
  {
    if s != [] && IsSpace(s[|s| - 1]) then TrimEnd(s[..|s| - 1]) else s
  }

  predicate Trimmed(s: string) {
    s == [] || (!IsSpace(s[0]) && !IsSpace(s[|s| - 1]))
  }

  /** `s.trim()`: the longest substring without white space at either end. */
  function Trim(s: string): (r: string)
    ensures |r| <= |s|
    ensures Trimmed(r)
  {
    var t := TrimStart(s);
    var r := TrimEnd(t);
    assert r != [] ==> r[0] == t[0];
    r
  }

  /** Trimming a string that has no white space at either end is the identity. */
  lemma TrimOfTrimmed(s: string)
    requires Trimmed(s)
    ensures Trim(s) == s
  {
  }

  /** A string that ends in a non-space character does not trim to nothing. */
  lemma {:induction false} EndsSolidNotBlank(s: string)
    requires s != [] && !IsSpace(s[|s| - 1])
    ensures Trim(s) != []
  {
    if IsSpace(s[0]) {
      EndsSolidNotBlank(s[1..]);
    }
  }

  lemma TrimIdempotent(s: string)
    ensures Trim(Trim(s)) == Trim(s)
  {
    TrimOfTrimmed(Trim(s));
  }

  /** `s.slice(0, n)`. */
  function Take(s: string, n: nat): (r: string)
    ensures |r| <= n && |r| <= |s|
    ensures r == s[..|r|]
    ensures |s| <= n ==> r == s
  {
    if |s| <= n then s else s[..n]
  }

  /** `String(x).trim().slice(0, n)`, the clamp used on every stored text. */
  function Clip(s: string, n: nat): (r: string)
    ensures |r| <= n
    ensures r == [] || !IsSpace(r[0])
  {
    var t := Trim(s);
    var r := Take(t, n);
    assert r != [] ==> r[0] == t[0];
    r
  }

  /** A clipped string that is not empty still has non-blank content, so a
      later `.trim()` cannot empty it. */
  lemma ClipNotBlank(s: string, n: nat)
    requires Clip(s, n) != ""
    ensures Trim(Clip(s, n)) != ""
  {
    var c := Clip(s, n);
    assert TrimStart(c) == c;
  }

  /** A trimmed string no longer than the bound is its own clip. */
  lemma ClipOfClean(s: string, n: nat)
    requires Trimmed(s) && |s| <= n
    ensures Clip(s, n) == s
  {
    TrimOfTrimmed(s);
  }

  /** Clipping twice yields a trimmed string that later clips leave alone. */
  lemma ClipClipSettles(s: string, n: nat)
    ensures Trimmed(Clip(Clip(s, n), n))
    ensures Clip(Clip(Clip(s, n), n), n) == Clip(Clip(s, n), n)
  {
    var c2 := Clip(Clip(s, n), n);
    assert c2 == Trim(Clip(s, n));
    ClipOfClean(c2, n);
  }

  function LowerChar(c: char): char {
    if 'A' <= c <= 'Z' then (c as int + 32) as char else c
  }

  function UpperChar(c: char): char {
    if 'a' <= c <= 'z' then (c as int - 32) as char else c
  }

  /** `toLowerCase`, restricted to ASCII letters. */
  function Lower(s: string): string {
    seq(|s|, i requires 0 <= i < |s| => LowerChar(s[i]))
  }

  /** `toUpperCase`, restricted to ASCII letters. */
  function Upper(s: string): string {
    seq(|s|, i requires 0 <= i < |s| => UpperChar(s[i]))
  }
}
