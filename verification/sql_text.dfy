/** SQL text with numbered PostgreSQL placeholders (`$1`, `$2`, ...).
    A query is assembled from pieces, each either literal text or a
    placeholder; `Render` spells it out as the string sent to the
    database, and `Placeholders` reads the placeholder numbers back off
    that string the way the server does. */
module SqlText {
  import opened Text

  datatype Piece = Lit(text: string) | Ph(index: nat)

  function RenderPiece(p: Piece): string {
    match p
    case Lit(t) => t
    case Ph(n) => "$" + Decimal(n)
  }

  /** The query string the pieces spell. */
  function Render(ps: seq<Piece>): string
    decreases |ps|
  {
    if ps == [] then [] else RenderPiece(ps[0]) + Render(ps[1..])
  }

  /** The placeholder numbers of `ps`, in order. */
  function PhNumbers(ps: seq<Piece>): seq<nat>
    decreases |ps|
  {
    if ps == [] then []
    else (if ps[0].Ph? then [ps[0].index] else []) + PhNumbers(ps[1..])
  }

  /** The numbers after each `$` of `s` that is followed by digits, in
      order of appearance: what the server binds parameters to. */
  function Placeholders(s: string): seq<nat>
    decreases |s|
  {
    if s == [] then []
    else if s[0] == '$' && DigitRun(s[1..]) > 0 then
      var d := DigitRun(s[1..]);
      assert s[1..1 + d] == s[1..][..d];
      [DigitsValue(s[1..1 + d])] + Placeholders(s[1 + d..])
    else Placeholders(s[1..])
  }

  /** Literal text that cannot be misread next to a placeholder: it is
      non-empty, holds no `$`, and does not start with a digit (which
      would lengthen a number right before it). */
  predicate SafeLiteral(t: string) {
    t != [] && '$' !in t && !IsDigit(t[0])
  }

  /** Every literal piece is safe. */
  predicate WellFormed(ps: seq<Piece>)
    decreases |ps|
  {
    ps == [] || ((ps[0].Lit? ==> SafeLiteral(ps[0].text)) && WellFormed(ps[1..]))
  }

  lemma {:induction false} WellFormedConcat(a: seq<Piece>, b: seq<Piece>)
    requires WellFormed(a) && WellFormed(b)
    ensures WellFormed(a + b)
    decreases |a|
  {
    if a == [] {
      assert a + b == b;
    } else {
      assert (a + b)[1..] == a[1..] + b;
      WellFormedConcat(a[1..], b);
    }
  }

  /** `lo+1, ..., hi`. */
  function Span(lo: nat, hi: nat): (r: seq<nat>)
    requires lo <= hi
    ensures |r| == hi - lo && forall i :: 0 <= i < |r| ==> r[i] == lo + i + 1
  {
    seq(hi - lo, i => lo + i + 1)
  }

  lemma SpanConcat(a: nat, b: nat, c: nat)
    requires a <= b <= c
    ensures Span(a, b) + Span(b, c) == Span(a, c)
  {
  }

  lemma {:induction false} RenderConcat(a: seq<Piece>, b: seq<Piece>)
    ensures Render(a + b) == Render(a) + Render(b)
    decreases |a|
  {
    if a != [] {
      assert (a + b)[1..] == a[1..] + b;
      RenderConcat(a[1..], b);
    } else {
      assert a + b == b;
    }
  }

  lemma {:induction false} PhNumbersConcat(a: seq<Piece>, b: seq<Piece>)
    ensures PhNumbers(a + b) == PhNumbers(a) + PhNumbers(b)
    decreases |a|
  {
    if a != [] {
      assert (a + b)[1..] == a[1..] + b;
      PhNumbersConcat(a[1..], b);
    } else {
      assert a + b == b;
    }
  }

  /** Literal text without `$` contributes no placeholder. */
  lemma {:induction false} PlaceholdersSkipLiteral(t: string, rest: string)
    requires '$' !in t
    ensures Placeholders(t + rest) == Placeholders(rest)
    decreases |t|
  {
    if t != [] {
      assert (t + rest)[1..] == t[1..] + rest;
      PlaceholdersSkipLiteral(t[1..], rest);
    } else {
      assert t + rest == rest;
    }
  }

  /** `$n` followed by text that does not continue the number reads as
      placeholder `n`. */
  lemma PlaceholdersReadNumber(n: nat, rest: string)
    requires rest == [] || !IsDigit(rest[0])
    ensures Placeholders("$" + Decimal(n) + rest) == [n] + Placeholders(rest)
  {
    var s := "$" + Decimal(n) + rest;
    var d := Decimal(n);
    assert s[1..] == d + rest;
    DigitRunOfDigits(d, rest);
    assert s[1..1 + |d|] == d;
    assert s[1 + |d|..] == rest;
    DecimalRoundTrip(n);
  }

  /** A well-formed rendering starts the way its first piece does: never
      with a digit. */
  lemma RenderStart(ps: seq<Piece>)
    requires ps != [] && WellFormed(ps)
    ensures Render(ps) != [] && !IsDigit(Render(ps)[0])
  {
  }

  /** Reading the placeholders back off the rendered text gives exactly
      the placeholder pieces, in order. */
  lemma {:induction false} PlaceholdersOfRender(ps: seq<Piece>)
    requires WellFormed(ps)
    ensures Placeholders(Render(ps)) == PhNumbers(ps)
    decreases |ps|
  {
    if ps != [] {
      PlaceholdersOfRender(ps[1..]);
      var rest := Render(ps[1..]);
      match ps[0]
      case Lit(t) =>
        PlaceholdersSkipLiteral(t, rest);
      case Ph(n) =>
        if ps[1..] != [] {
          RenderStart(ps[1..]);
        }
        PlaceholdersReadNumber(n, rest);
    }
  }
}
