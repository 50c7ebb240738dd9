/** Character and string helpers shared by the whole model: decimal
    digits, the two whitespace sets (JavaScript `trim`, Python `strip`),
    trimming, splitting on a separator character and joining. */
module Text {

  predicate IsDigit(c: char) {
    '0' <= c <= '9'
  }

  function DigitChar(d: nat): (c: char)
    requires d < 10
    ensures IsDigit(c)
  {
    ('0' as int + d) as char
  }

  function DigitValue(c: char): (d: nat)
    requires IsDigit(c)
    ensures d < 10 && DigitChar(d) == c
  {
    c as int - '0' as int
  }

  predicate AllDigits(s: string) {
    forall i :: 0 <= i < |s| ==> IsDigit(s[i])
  }

  /** The base-ten rendering of `n`, as JavaScript's template literals
      print a non-negative integer. */
  function Decimal(n: nat): (s: string)
    ensures |s| >= 1 && AllDigits(s)
    ensures n < 10 <==> |s| == 1
    decreases n
  {
    if n < 10 then [DigitChar(n)] else Decimal(n / 10) + [DigitChar(n % 10)]
  }

  /** The number a non-empty run of decimal digits denotes. */
  function DigitsValue(s: string): nat
    requires AllDigits(s)
    decreases |s|
  {
    if s == [] then 0 else 10 * DigitsValue(s[..|s| - 1]) + DigitValue(s[|s| - 1])
  }

  /** Reading a rendered number back gives the number. */
  lemma {:induction false} DecimalRoundTrip(n: nat)
    ensures DigitsValue(Decimal(n)) == n
    decreases n
  {
    if n >= 10 {
      DecimalRoundTrip(n / 10);
      var s := Decimal(n);
      assert s[..|s| - 1] == Decimal(n / 10);
    }
  }

  /** Length of the run of decimal digits at the start of `s`. */
  function DigitRun(s: string): (k: nat)
    ensures k <= |s| && AllDigits(s[..k])
    ensures k < |s| ==> !IsDigit(s[k])
    decreases |s|
  {
    if s == [] || !IsDigit(s[0]) then 0 else 1 + DigitRun(s[1..])
  }

  /** A run of digits followed by a non-digit is read to its end. */
  lemma {:induction false} DigitRunOfDigits(d: string, rest: string)
    requires AllDigits(d)
    requires rest == [] || !IsDigit(rest[0])
    ensures DigitRun(d + rest) == |d|
    decreases |d|
  {
    if d != [] {
      assert (d + rest)[1..] == d[1..] + rest;
      DigitRunOfDigits(d[1..], rest);
    } else {
      assert d + rest == rest;
    }
  }

  /** Characters JavaScript's `String.prototype.trim` removes: the
      ECMAScript WhiteSpace and LineTerminator productions. */
  const JsWhitespace: set<char> := {
    '\t', '\n', '\U{000B}', '\U{000C}', '\r', ' ', '\U{00A0}', '\U{1680}',
    '\U{2000}', '\U{2001}', '\U{2002}', '\U{2003}', '\U{2004}', '\U{2005}',
    '\U{2006}', '\U{2007}', '\U{2008}', '\U{2009}', '\U{200A}', '\U{2028}',
    '\U{2029}', '\U{202F}', '\U{205F}', '\U{3000}', '\U{FEFF}'
  }

  /** Characters Python's `str.strip()` removes: those for which
      `str.isspace()` holds. Unlike JavaScript it includes the separators
      U+001C..U+001F and U+0085 and excludes U+FEFF. */
  const PyWhitespace: set<char> := {
    '\t', '\n', '\U{000B}', '\U{000C}', '\r', '\U{001C}', '\U{001D}',
    '\U{001E}', '\U{001F}', ' ', '\U{0085}', '\U{00A0}', '\U{1680}',
    '\U{2000}', '\U{2001}', '\U{2002}', '\U{2003}', '\U{2004}', '\U{2005}',
    '\U{2006}', '\U{2007}', '\U{2008}', '\U{2009}', '\U{200A}', '\U{2028}',
    '\U{2029}', '\U{202F}', '\U{205F}', '\U{3000}'
  }

  /** `s` without its leading characters from `ws`: a suffix of `s`
      that does not start with one. */
  function TrimStart(s: string, ws: set<char>): (r: string)
    ensures |r| <= |s| && r == s[|s| - |r|..]
    ensures r == [] || r[0] !in ws
    decreases |s|
  {
    if s != [] && s[0] in ws then TrimStart(s[1..], ws) else s
  }

  /** `s` without its trailing characters from `ws`: a prefix of `s`
      that does not end with one. */
  function TrimEnd(s: string, ws: set<char>): (r: string)
    ensures |r| <= |s| && r == s[..|r|]
    ensures r == [] || r[|r| - 1] !in ws
    decreases |s|
  {
    if s != [] && s[|s| - 1] in ws then TrimEnd(s[..|s| - 1], ws) else s
  }

  /** Every character of `s` is in `ws`. */
  predicate AllIn(s: string, ws: set<char>) {
    forall i :: 0 <= i < |s| ==> s[i] in ws
  }

  /** `TrimStart` removes only characters from `ws`. */
  lemma {:induction false} TrimStartRemoves(s: string, ws: set<char>)
    ensures AllIn(s[..|s| - |TrimStart(s, ws)|], ws)
    decreases |s|
  {
    if s != [] && s[0] in ws {
      var t := TrimStart(s[1..], ws);
      TrimStartRemoves(s[1..], ws);
      var k := |s| - |t|;
      forall i | 0 <= i < k ensures s[..k][i] in ws {
        if i > 0 {
          assert s[..k][i] == s[1..][..k - 1][i - 1];
        }
      }
    }
  }

  /** `TrimEnd` removes only characters from `ws`. */
  lemma {:induction false} TrimEndRemoves(s: string, ws: set<char>)
    ensures AllIn(s[|TrimEnd(s, ws)|..], ws)
    decreases |s|
  {
    if s != [] && s[|s| - 1] in ws {
      var init := s[..|s| - 1];
      var t := TrimEnd(init, ws);
      TrimEndRemoves(init, ws);
      forall i | |t| <= i < |s| ensures s[i] in ws {
        if i < |s| - 1 {
          assert init[|t|..][i - |t|] == s[i];
        }
      }
      forall i | 0 <= i < |s| - |t| ensures s[|t|..][i] in ws {
        assert s[|t|..][i] == s[|t| + i];
      }
    }
  }

  /** `sub` sits in `s` starting at position `k`. */
  predicate OccursAt(s: string, sub: string, k: int) {
    0 <= k <= |s| - |sub| && s[k..k + |sub|] == sub
  }

  /** `sub` occurs in `s` as a contiguous block. */
  predicate Contains(s: string, sub: string) {
    exists k | 0 <= k <= |s| :: OccursAt(s, sub, k)
  }

  /** How many leading characters of `s` are in `ws`. */
  function Lead(s: string, ws: set<char>): nat {
    |s| - |TrimStart(s, ws)|
  }

  /** `s` without leading and trailing characters from `ws`: what is
      left is the block of `s` after its leading `ws` characters, and it
      neither starts nor ends with one of them. */
  function Trim(s: string, ws: set<char>): (r: string)
    ensures r == [] || (r[0] !in ws && r[|r| - 1] !in ws)
    ensures Lead(s, ws) + |r| <= |s| && r == s[Lead(s, ws)..Lead(s, ws) + |r|]
  {
    var t := TrimStart(s, ws);
    var r := TrimEnd(t, ws);
    assert s[|s| - |t|..][..|r|] == s[|s| - |t|..|s| - |t| + |r|];
    r
  }

  /** Only characters from `ws` surround the trimmed block. */
  lemma TrimSurroundings(s: string, ws: set<char>)
    ensures AllIn(s[..Lead(s, ws)], ws)
    ensures AllIn(s[Lead(s, ws) + |Trim(s, ws)|..], ws)
  {
    var t := TrimStart(s, ws);
    var k := Lead(s, ws);
    TrimStartRemoves(s, ws);
    TrimEndRemoves(t, ws);
    assert s[k + |Trim(s, ws)|..] == t[|TrimEnd(t, ws)|..];
  }

  /** A string of whitespace only trims to the empty string, and only such
      a string does. */
  lemma TrimEmptyIffBlank(s: string, ws: set<char>)
    ensures Trim(s, ws) == [] <==> AllIn(s, ws)
  {
    var r := Trim(s, ws);
    var k := Lead(s, ws);
    TrimSurroundings(s, ws);
    if r == [] {
      var t := TrimStart(s, ws);
      assert s[k..] == t;
      assert k == |s|;
      assert s[..k] == s;
    } else {
      assert r[0] == s[k];
    }
  }

  /** Trimming only removes characters. */
  lemma TrimKeepsChars(s: string, ws: set<char>, c: char)
    ensures c in Trim(s, ws) ==> c in s
  {
    var r := Trim(s, ws);
    var k := Lead(s, ws);
    assert r == s[k..k + |r|];
    forall i | 0 <= i < |r| ensures r[i] == s[k + i] {
      assert r[i] == s[k..k + |r|][i];
    }
  }

  /** `s` cut at every occurrence of `sep`, as JavaScript's
      `s.split(sep)` with a one-character separator: the pieces keep empty
      strings, and the empty string splits into one empty piece. */
  function Split(s: string, sep: char): (parts: seq<string>)
    ensures |parts| >= 1
    ensures forall i :: 0 <= i < |parts| ==> sep !in parts[i]
    decreases |s|
  {
    if s == [] then [[]]
    else
      var rest := Split(s[1..], sep);
      if s[0] == sep then [[]] + rest else [[s[0]] + rest[0]] + rest[1..]
  }

  /** `parts` joined with `sep` between neighbours, as Python's
      `sep.join(parts)` and JavaScript's `parts.join(sep)`. */
  function Join(parts: seq<string>, sep: string): string
    decreases |parts|
  {
    if parts == [] then []
    else if |parts| == 1 then parts[0]
    else parts[0] + sep + Join(parts[1..], sep)
  }

  /** Splitting and joining back with the same separator gives the
      original string: no character is lost by the split. */
  lemma {:induction false} JoinSplit(s: string, sep: char)
    ensures Join(Split(s, sep), [sep]) == s
    decreases |s|
  {
    if s != [] {
      JoinSplit(s[1..], sep);
      var rest := Split(s[1..], sep);
      if s[0] == sep {
        assert Split(s, sep) == [[]] + rest;
        assert ([[]] + rest)[1..] == rest;
      } else {
        var parts := Split(s, sep);
        assert parts[0] == [s[0]] + rest[0];
        if |rest| == 1 {
          assert Join(parts, [sep]) == [s[0]] + rest[0];
        } else {
          assert parts[1..] == rest[1..];
          assert Join(rest, [sep]) == rest[0] + [sep] + Join(rest[1..], [sep]);
        }
      }
    }
  }
}
