/** ECMAScript `parseInt(string)` with no radix argument, as the homepage
    applies it to the `page` query parameter. `None` stands for `NaN`. */
module JsNumber {
  import opened Text
  import opened Wrappers

  predicate IsHexDigit(c: char) {
    IsDigit(c) || 'a' <= c <= 'f' || 'A' <= c <= 'F'
  }

  function HexDigitValue(c: char): (d: nat)
    requires IsHexDigit(c)
    ensures d < 16
  {
    if IsDigit(c) then DigitValue(c)
    else if 'a' <= c <= 'f' then c as int - 'a' as int + 10
    else c as int - 'A' as int + 10
  }

  /** Length of the run of hexadecimal digits at the start of `s`. */
  function HexRun(s: string): (k: nat)
    ensures k <= |s|
    ensures forall i :: 0 <= i < k ==> IsHexDigit(s[i])
    decreases |s|
  {
    if s == [] || !IsHexDigit(s[0]) then 0 else 1 + HexRun(s[1..])
  }

  function HexValue(s: string): nat
    requires forall i :: 0 <= i < |s| ==> IsHexDigit(s[i])
    decreases |s|
  {
    if s == [] then 0 else 16 * HexValue(s[..|s| - 1]) + HexDigitValue(s[|s| - 1])
  }

  /** The value of the longest digit prefix in base 10, or `None` when
      `s` does not start with a digit. */
  function DecimalPrefix(s: string): Option<nat> {
    var k := DigitRun(s);
    if k == 0 then None else Some(DigitsValue(s[..k]))
  }

  /** The value of the longest hexadecimal digit prefix, or `None`. */
  function HexPrefix(s: string): Option<nat> {
    var k := HexRun(s);
    if k == 0 then None else Some(HexValue(s[..k]))
  }

  /** Leading whitespace is skipped, one sign is taken, a `0x`/`0X`
      prefix switches to base 16, and the longest digit prefix is read;
      anything after it is ignored. No digit at all gives `NaN`. */
  function ParseInt(s: string): Option<int> {
    var t := TrimStart(s, JsWhitespace);
    var negative := t != [] && t[0] == '-';
    var u := if t != [] && (t[0] == '-' || t[0] == '+') then t[1..] else t;
    var magnitude :=
      if |u| >= 2 && u[0] == '0' && (u[1] == 'x' || u[1] == 'X') then HexPrefix(u[2..])
      else DecimalPrefix(u);
    match magnitude
    case None => None
    case Some(m) =>
      var v: int := if negative then 0 - m as int else m;
      Some(v)
  }

  lemma DigitNotSpace(c: char)
    requires IsDigit(c)
    ensures c !in JsWhitespace
  {
  }

  lemma MinusNotSpace()
    ensures '-' !in JsWhitespace
  {
  }

  /** Trimming leaves a string alone when it starts with a kept character. */
  lemma TrimStartKeeps(s: string, ws: set<char>)
    requires s != [] && s[0] !in ws
    ensures TrimStart(s, ws) == s
  {
  }

  /** A decimal rendering has no `0x` prefix and its digit prefix is all
      of it. */
  lemma DecimalMagnitude(n: nat)
    ensures var d := Decimal(n);
      !(|d| >= 2 && d[0] == '0' && (d[1] == 'x' || d[1] == 'X')) && DecimalPrefix(d) == Some(n)
  {
    var d := Decimal(n);
    DigitRunOfDigits(d, []);
    assert d + [] == d;
    assert d[..|d|] == d;
    DecimalRoundTrip(n);
  }

  /** A number's decimal rendering parses back to the number. */
  lemma ParseDecimal(n: nat)
    ensures ParseInt(Decimal(n)) == Some(n)
  {
    var d := Decimal(n);
    DigitNotSpace(d[0]);
    TrimStartKeeps(d, JsWhitespace);
    DecimalMagnitude(n);
  }

  /** A minus sign in front of a decimal rendering negates it. */
  lemma ParseNegativeDecimal(n: nat)
    ensures ParseInt("-" + Decimal(n)) == Some(-(n as int))
  {
    var d := Decimal(n);
    var s := "-" + d;
    assert s[0] == '-' && s[1..] == d;
    MinusNotSpace();
    TrimStartKeeps(s, JsWhitespace);
    DecimalMagnitude(n);
  }
}
