/** The homepage (app.js, `GET /`): page number, pagination over the
    filtered rows, and the tag facet. */
module Listing {
  import opened Wrappers
  import opened Text
  import JsNumber
  import opened ListQuery

  /** `parseInt(page) || 1`: a missing page, one that does not parse, and
      page `0` all mean page 1; anything else parses as written, negative
      numbers included. */
  function PageNumber(page: Option<string>): (p: int)
    ensures p != 0
    ensures page.None? ==> p == 1
    ensures page.Some? && JsNumber.ParseInt(page.value).None? ==> p == 1
    ensures page.Some? && JsNumber.ParseInt(page.value).Some? && JsNumber.ParseInt(page.value).value != 0
            ==> p == JsNumber.ParseInt(page.value).value
  {
    match page
    case None => 1
    case Some(s) =>
      match JsNumber.ParseInt(s)
      case None => 1
      case Some(n) => if n == 0 then 1 else n
  }

  /** A positive page number written in decimal selects that page. */
  lemma PageNumberOfDecimal(n: nat)
    requires n > 0
    ensures PageNumber(Some(Decimal(n))) == n
  {
    JsNumber.ParseDecimal(n);
  }

  /** A negative page number is kept, so its offset is negative. */
  lemma NegativePageKept(n: nat)
    requires n > 0
    ensures PageNumber(Some("-" + Decimal(n))) == -(n as int)
    ensures Offset(PageNumber(Some("-" + Decimal(n)))) < 0
  {
    JsNumber.ParseNegativeDecimal(n);
  }

  /** Row offset of a page: `(page - 1) * 6`. */
  function Offset(page: int): (o: int)
    ensures page >= 1 <==> o >= 0
    ensures o % PageSize == 0
  {
    (page - 1) * PageSize
  }

  /** `Math.ceil(total / 6)`. */
  function TotalPages(total: nat): (n: nat)
    ensures n * PageSize >= total
    ensures n == 0 || (n - 1) * PageSize < total
  {
    (total + PageSize - 1) / PageSize
  }

  function Min(a: int, b: int): int {
    if a <= b then a else b
  }

  /** The largest value of PostgreSQL's `bigint`, the type of an `OFFSET`
      parameter. */
  const MaxOffset := 0x7fff_ffff_ffff_ffff

  /** The (up to 6) rows from `offset` on, in order, whatever the offset. */
  function Slice<T>(rows: seq<T>, offset: nat): (r: seq<T>)
    ensures |r| == if offset >= |rows| then 0 else Min(PageSize, |rows| - offset)
    ensures forall i :: 0 <= i < |r| ==> r[i] == rows[offset + i]
  {
    if offset >= |rows| then [] else rows[offset..Min(offset + PageSize, |rows|)]
  }

  /** `LIMIT 6 OFFSET offset` over the rows the database selected, in
      their order. The database refuses a negative offset and one beyond
      `bigint`, and the query then fails. */
  function Window<T>(rows: seq<T>, offset: int): (r: Option<seq<T>>)
    ensures r.Some? <==> 0 <= offset <= MaxOffset
    ensures r.Some? ==> |r.value| == if offset >= |rows| then 0 else Min(PageSize, |rows| - offset)
    ensures r.Some? ==> forall i :: 0 <= i < |r.value| ==> r.value[i] == rows[offset + i]
  {
    if offset < 0 || offset > MaxOffset then None else Some(Slice(rows, offset))
  }

  /** Pages `1..k` laid end to end. */
  function PagesUpTo<T>(rows: seq<T>, k: nat): seq<T>
    decreases k
  {
    if k == 0 then [] else PagesUpTo(rows, k - 1) + Slice(rows, Offset(k))
  }

  lemma {:induction false} PagesUpToPrefix<T>(rows: seq<T>, k: nat)
    ensures PagesUpTo(rows, k) == rows[..Min(k * PageSize, |rows|)]
    decreases k
  {
    if k > 0 {
      PagesUpToPrefix(rows, k - 1);
      var w := Slice(rows, Offset(k));
      var lo := Min((k - 1) * PageSize, |rows|);
      assert rows[..Min(k * PageSize, |rows|)] == rows[..lo] + w;
    }
  }

  /** Pages `1..TotalPages(|rows|)` hold every selected row once, in
      order, and every later page is empty (or, past `bigint`, an error):
      the count query's total and the data query's pages agree. */
  lemma PagesCoverRows<T>(rows: seq<T>, later: nat)
    requires later > TotalPages(|rows|)
    ensures PagesUpTo(rows, TotalPages(|rows|)) == rows
    ensures Window(rows, Offset(later)) == if Offset(later) <= MaxOffset then Some([]) else None
  {
    PagesUpToPrefix(rows, TotalPages(|rows|));
    assert rows[..|rows|] == rows;
  }

  // ---------------------------------------------------------------------
  // The tag facet.

  /** The trimmed comma-separated tokens of every non-empty tags field, in
      row order. */
  function TagTokens(fields: seq<string>): seq<string>
    decreases |fields|
  {
    if fields == [] then []
    else (if fields[0] != [] then TrimAll(Split(fields[0], ',')) else []) + TagTokens(fields[1..])
  }

  function TrimAll(parts: seq<string>): (r: seq<string>)
    ensures |r| == |parts| && forall i :: 0 <= i < |parts| ==> r[i] == Trim(parts[i], JsWhitespace)
  {
    seq(|parts|, i requires 0 <= i < |parts| => Trim(parts[i], JsWhitespace))
  }

  /** Each tag of the facet is a non-separator, trimmed token: it holds no
      comma and neither starts nor ends with whitespace. */
  lemma {:induction false} TagTokensClean(fields: seq<string>)
    ensures forall t :: t in TagTokens(fields) ==>
      ',' !in t && (t == [] || (t[0] !in JsWhitespace && t[|t| - 1] !in JsWhitespace))
    decreases |fields|
  {
    if fields != [] {
      TagTokensClean(fields[1..]);
      if fields[0] != [] {
        var parts := Split(fields[0], ',');
        forall i | 0 <= i < |parts| ensures ',' !in Trim(parts[i], JsWhitespace) {
          TrimKeepsChars(parts[i], JsWhitespace, ',');
        }
      }
    }
  }

  /** A field whose tokens are already trimmed is recovered by joining
      its tokens with commas. */
  lemma FieldFromTokens(field: string)
    requires field != []
    requires forall p :: p in Split(field, ',') ==> Trim(p, JsWhitespace) == p
    ensures Join(TagTokens([field]), ",") == field
  {
    var parts := Split(field, ',');
    assert TrimAll(parts) == parts;
    assert TagTokens([field]) == parts + TagTokens([]);
    assert parts + [] == parts;
    JoinSplit(field, ',');
  }

  predicate NoDuplicates(xs: seq<string>) {
    forall i, j :: 0 <= i < j < |xs| ==> xs[i] != xs[j]
  }

  /** Position of the first occurrence of `x` in `xs`. */
  function FirstIndex(xs: seq<string>, x: string): (k: nat)
    requires x in xs
    ensures k < |xs| && xs[k] == x && x !in xs[..k]
  {
    if xs[0] == x then 0
    else
      var k := 1 + FirstIndex(xs[1..], x);
      assert xs[..k] == [xs[0]] + xs[1..][..k - 1];
      k
  }

  /** A value not seen before position `i` first occurs at `i`. */
  lemma {:induction false} FirstIndexAt(xs: seq<string>, i: nat)
    requires i < |xs| && xs[i] !in xs[..i]
    ensures FirstIndex(xs, xs[i]) == i
    decreases i
  {
    if i > 0 {
      assert xs[0] == xs[..i][0];
      assert xs[1..][..i - 1] == xs[..i][1..];
      assert xs[1..][i - 1] == xs[i];
      FirstIndexAt(xs[1..], i - 1);
    }
  }

  /** `[...new Set(xs)]`: each value once, in order of first occurrence. */
  method Distinct(xs: seq<string>) returns (out: seq<string>)
    ensures NoDuplicates(out)
    ensures forall x :: x in out <==> x in xs
    ensures forall i, j :: 0 <= i < j < |out| ==> FirstIndex(xs, out[i]) < FirstIndex(xs, out[j])
  {
    out := [];
    var i := 0;
    while i < |xs|
      invariant 0 <= i <= |xs|
      invariant NoDuplicates(out)
      invariant forall x :: x in out <==> x in xs[..i]
      invariant forall k :: 0 <= k < |out| ==> out[k] in xs
      invariant forall k :: 0 <= k < |out| ==> FirstIndex(xs, out[k]) < i
      invariant forall k, j :: 0 <= k < j < |out| ==> FirstIndex(xs, out[k]) < FirstIndex(xs, out[j])
    {
      var x := xs[i];
      assert xs[..i + 1] == xs[..i] + [x];
      if x !in out {
        FirstIndexAt(xs, i);
        out := out + [x];
      }
      i := i + 1;
    }
    assert xs[..|xs|] == xs;
  }

  // ---------------------------------------------------------------------
  // The handler's outcome.

  /** The query string of a homepage request. */
  datatype HomeRequest = HomeRequest(page: Option<string>, filters: Filters)

  /** What the homepage shows: the page of posts with pagination numbers,
      the tag facet and the filters echoed back, or the error text. */
  datatype Home<T> =
    | Index(posts: seq<T>, page: int, totalPages: nat, tags: seq<string>,
            search: string, selectedCategory: string, selectedTag: string)
    | LoadError(message: string)

  /** `value || ''`. */
  function Echo(v: Option<string>): (r: string)
    ensures Given(v) ==> r == v.value
    ensures !Given(v) ==> r == []
  {
    if Given(v) then v.value else []
  }

  /** The homepage sends the data query and the count query built from
      the request's filters and page offset. `matching` is what the
      database selects for their `WHERE` clause, newest first, and
      `tagFields` the non-null tags column. A storage fault or an offset
      the database refuses (a page before the first, or one so far on
      that its offset exceeds `bigint`) shows the error text; otherwise
      the page of rows at that offset, the page count over all matching
      rows, the distinct tags in order of first occurrence and the
      echoed filters. */
  method HomePage<T>(req: HomeRequest, matching: seq<T>, tagFields: seq<string>, fault: bool)
    returns (h: Home<T>, q: Queries)
    ensures q == BuildQueries(req.filters, Offset(PageNumber(req.page)))
    ensures q.countParams == ExpectedParams(req.filters)
    ensures q.dataParams == q.countParams + [IntParam(PageSize), IntParam(Offset(PageNumber(req.page)))]
    ensures h.LoadError? <==> fault || PageNumber(req.page) < 1 || Offset(PageNumber(req.page)) > MaxOffset
    ensures h.LoadError? ==> h.message == "Error loading posts"
    ensures h.Index? ==> h.page == PageNumber(req.page) && h.page >= 1
    ensures h.Index? ==> h.totalPages == TotalPages(|matching|)
    ensures h.Index? ==> h.posts == Window(matching, Offset(h.page)).value
    ensures h.Index? ==> NoDuplicates(h.tags) && forall t :: t in h.tags <==> t in TagTokens(tagFields)
    ensures h.Index? ==> forall i, j :: 0 <= i < j < |h.tags| ==>
      FirstIndex(TagTokens(tagFields), h.tags[i]) < FirstIndex(TagTokens(tagFields), h.tags[j])
    ensures h.Index? ==> h.search == Echo(req.filters.search) && h.selectedCategory == Echo(req.filters.category)
                         && h.selectedTag == Echo(req.filters.tag)
  {
    var page := PageNumber(req.page);
    q := BuildQueries(req.filters, Offset(page));
    ParamsAsExpected(req.filters, Offset(page));
    var w := Window(matching, Offset(page));
    if fault || w.None? {
      return LoadError("Error loading posts"), q;
    }
    var tags := Distinct(TagTokens(tagFields));
    h := Index(w.value, page, TotalPages(|matching|), tags,
               Echo(req.filters.search), Echo(req.filters.category), Echo(req.filters.tag));
  }

  /** A page number so large that its offset exceeds `bigint` parses as
      written, and the data query with that offset fails;
      `?page=2000000000000000000` is one. */
  lemma PageBeyondBigint<T>(rows: seq<T>, n: nat)
    requires Offset(n) > MaxOffset
    ensures PageNumber(Some(Decimal(n))) == n
    ensures Window(rows, Offset(PageNumber(Some(Decimal(n))))) == None
    ensures Offset(2000000000000000000) > MaxOffset
  {
    PageNumberOfDecimal(n);
  }

  /** Ten matching rows: page 2 holds the last four and there are two pages. */
  lemma SecondPageOfTen<T>(rows: seq<T>)
    requires |rows| == 10
    ensures TotalPages(|rows|) == 2
    ensures Window(rows, Offset(PageNumber(Some("2")))).value == rows[6..]
  {
    assert Decimal(2) == "2";
    PageNumberOfDecimal(2);
  }
}
