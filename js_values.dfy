/** The JavaScript values the server handles: numbers that may be `undefined`,
    their truthiness, the `||` default operator, and the decimal
    `Number.parseInt` behind `toNumber` (app.js). */
module JsValues {

  datatype Option<T> = None | Some(value: T)

  /** A number read from a request, or `undefined`. `NaN` never survives
      `toNumber`, and the numbers that reach the core are integral. */
  datatype JsNum = Undefined | Num(n: int)

  /** JavaScript truthiness: `undefined` and `0` are falsy. */
  predicate Truthy(x: JsNum) {
    x.Num? && x.n != 0
  }

  /** The expression `x || d`. */
  function OrElse(x: JsNum, d: int): int {
    if Truthy(x) then x.n else d
  }

  /** Query-string parameters of a request (`req.query`). */
  type Params = map<string, string>

  function Param(query: Params, name: string): Option<string> {
    if name in query then Some(query[name]) else None
  }

  /** The characters `parseInt` skips at the front: ECMAScript's WhiteSpace
      and LineTerminator code points. */
  predicate IsWhiteSpace(c: char) {
    c == '\t' || c == '\n' || c == '\U{000B}' || c == '\U{000C}' || c == '\r' || c == ' '
    || c == '\U{00A0}' || c == '\U{1680}' || ('\U{2000}' <= c <= '\U{200A}')
    || c == '\U{2028}' || c == '\U{2029}' || c == '\U{202F}' || c == '\U{205F}'
    || c == '\U{3000}' || c == '\U{FEFF}'
  }

  predicate IsDigit(c: char) {
    '0' <= c <= '9'
  }

  predicate AllDigits(s: string) {
    forall i :: 0 <= i < |s| ==> IsDigit(s[i])
  }

  function TrimStart(s: string): (r: string)
    ensures r == [] || !IsWhiteSpace(r[0])
  {
    if s != [] && IsWhiteSpace(s[0]) then TrimStart(s[1..]) else s
  }

  /** The longest prefix of `s` made of decimal digits. */
  function DigitPrefix(s: string): (r: string)
    ensures AllDigits(r)
  {
    if s != [] && IsDigit(s[0]) then [s[0]] + DigitPrefix(s[1..]) else []
  }

  function DigitValue(c: char): nat
    requires IsDigit(c)
  {
    (c as int) - ('0' as int)
  }

  /** The value of a string of decimal digits, most significant first. */
  function DigitsValue(ds: string): nat
    requires AllDigits(ds)
  {
    if ds == [] then 0 else DigitsValue(ds[..|ds| - 1]) * 10 + DigitValue(ds[|ds| - 1])
  }

  /** `Number.parseInt(s, 10)`: skip leading white space, read an optional
      sign and then as many decimal digits as there are; `None` is NaN (no
      digit at all). */
  function ParseInt(s: string): Option<int> {
    var t := TrimStart(s);
    var negative := t != [] && t[0] == '-';
    var unsigned := if t != [] && (t[0] == '-' || t[0] == '+') then t[1..] else t;
    var digits := DigitPrefix(unsigned);
    if digits == [] then None
    else
      var value: int := DigitsValue(digits);
      Some(if negative then -value else value)
  }

  /** `toNumber(str, def)`: the parsed number, or `def` when the parse is NaN.
      An absent parameter is `undefined`, which `parseInt` reads as the text
      "undefined". */
  function ToNumber(str: Option<string>, def: JsNum): (r: JsNum)
    ensures def.Num? ==> r.Num?
    ensures r != def ==> str.Some? && ParseInt(str.value) == Some(r.n)
    ensures str.Some? && ParseInt(str.value).Some? ==> r == Num(ParseInt(str.value).value)
    ensures str.Some? && ParseInt(str.value).None? ==> r == def
  {
    var text := if str.Some? then str.value else "undefined";
    match ParseInt(text)
    case None => def
    case Some(n) => Num(n)
  }

  /** Decimal text of a number, the way a client writes an id or a time. */
  function ShowNat(n: nat): (r: string)
    ensures r != [] && AllDigits(r)
  {
    if n < 10 then [DigitChar(n)] else ShowNat(n / 10) + [DigitChar(n % 10)]
  }

  function DigitChar(d: nat): (c: char)
    requires d < 10
    ensures IsDigit(c) && DigitValue(c) == d
  {
    ('0' as int + d) as char
  }

  function Show(n: int): string {
    if n < 0 then "-" + ShowNat(-n) else ShowNat(n)
  }

  lemma {:induction false} DigitsValueOfShow(n: nat)
    ensures DigitsValue(ShowNat(n)) == n
  {
    if n >= 10 {
      var s := ShowNat(n);
      assert s[..|s| - 1] == ShowNat(n / 10);
      DigitsValueOfShow(n / 10);
    }
  }

  lemma {:induction false} DigitPrefixStops(ds: string, rest: string)
    requires AllDigits(ds)
    requires rest == [] || !IsDigit(rest[0])
    ensures DigitPrefix(ds + rest) == ds
  {
    if ds != [] {
      assert (ds + rest)[1..] == ds[1..] + rest;
      DigitPrefixStops(ds[1..], rest);
    }
  }

  lemma {:induction false} TrimStartSkips(ws: string, s: string)
    requires forall i :: 0 <= i < |ws| ==> IsWhiteSpace(ws[i])
    ensures TrimStart(ws + s) == TrimStart(s)
  {
    if ws != [] {
      assert (ws + s)[0] == ws[0] && IsWhiteSpace(ws[0]);
      assert (ws + s)[1..] == ws[1..] + s;
      assert forall i :: 0 <= i < |ws[1..]| ==> ws[1..][i] == ws[i + 1];
      TrimStartSkips(ws[1..], s);
    } else {
      assert ws + s == s;
    }
  }

  /** `parseInt` reads back the decimal text of any integer, and stops at the
      first character that is not a digit ("12abc" is 12). */
  lemma ParseIntOfShow(n: int, rest: string)
    requires rest == [] || !IsDigit(rest[0])
    ensures ParseInt(Show(n) + rest) == Some(n)
  {
    if n < 0 {
      ParseIntOfNegative(-n, rest);
      assert -((-n) as int) == n;
    } else {
      ParseIntOfShowNat(n, rest);
    }
  }

  lemma ParseIntOfShowNat(m: nat, rest: string)
    requires rest == [] || !IsDigit(rest[0])
    ensures ParseInt(ShowNat(m) + rest) == Some(m)
  {
    var digits := ShowNat(m);
    DigitsValueOfShow(m);
    DigitPrefixStops(digits, rest);
    var t := digits + rest;
    assert t[0] == digits[0] && IsDigit(t[0]);
    assert TrimStart(t) == t;
  }

  lemma ParseIntOfNegative(m: nat, rest: string)
    requires m > 0
    requires rest == [] || !IsDigit(rest[0])
    ensures ParseInt(Show(-(m as int)) + rest) == Some(-(m as int))
  {
    var digits := ShowNat(m);
    DigitsValueOfShow(m);
    DigitPrefixStops(digits, rest);
    assert Show(-(m as int)) + rest == ['-'] + (digits + rest);
    ParseIntOfMinus(digits + rest);
  }

  /** A minus sign negates whatever digits follow it. */
  lemma ParseIntOfMinus(u: string)
    ensures ParseInt(['-'] + u) ==
      if DigitPrefix(u) == [] then None else Some(-(DigitsValue(DigitPrefix(u)) as int))
  {
    var t := ['-'] + u;
    assert t[0] == '-' && t[1..] == u;
    assert TrimStart(t) == t;
  }

  /** Leading white space does not change what `parseInt` reads. */
  lemma ParseIntSkipsWhiteSpace(ws: string, s: string)
    requires forall i :: 0 <= i < |ws| ==> IsWhiteSpace(ws[i])
    ensures ParseInt(ws + s) == ParseInt(s)
  {
    TrimStartSkips(ws, s);
  }

  /** Text whose first visible character is neither a sign nor a digit is NaN. */
  lemma ParseIntNaN(s: string)
    requires TrimStart(s) == [] || !(IsDigit(TrimStart(s)[0]) || TrimStart(s)[0] in "+-")
    ensures ParseInt(s) == None
  {
  }

  /** `toNumber` of a well-formed parameter is its value, whatever the default. */
  lemma ToNumberOfShow(n: int, rest: string, def: JsNum)
    requires rest == [] || !IsDigit(rest[0])
    ensures ToNumber(Some(Show(n) + rest), def) == Num(n)
  {
    ParseIntOfShow(n, rest);
  }

  /** A missing parameter, or one with no digits, gives the default. */
  lemma ToNumberDefault(str: Option<string>, def: JsNum)
    requires str.Some? ==> ParseInt(str.value) == None
    ensures ToNumber(str, def) == def
  {
    if str.None? {
      ParseIntNaN("undefined");
    }
  }
}
