/** The homepage's query construction (app.js, `GET /`): the optional
    `search`, `category` and `tag` query parameters become a data query
    and a count query that share one WHERE clause, with every user value
    bound to a numbered placeholder instead of spliced into the text. */
module ListQuery {
  import opened Wrappers
  import opened Text
  import opened SqlText
  import Like

  /** A value bound to a placeholder. */
  datatype Param = TextParam(text: string) | IntParam(n: int)

  /** The listing filters of the query string; each is absent or a string. */
  datatype Filters = Filters(search: Option<string>, category: Option<string>, tag: Option<string>)

  /** JavaScript truthiness of a query-string value: present and non-empty. */
  predicate Given(v: Option<string>) {
    v.Some? && v.value != []
  }

  predicate AnyGiven(f: Filters) {
    Given(f.search) || Given(f.category) || Given(f.tag)
  }

  const PageSize: nat := 6

  // The literal SQL fragments of the handler.
  const DataBase := "SELECT * FROM posts"
  const CountBase := "SELECT COUNT(*) AS total FROM posts"
  const WhereKw := " WHERE "
  const AndKw := " AND "
  const TitleLike := "(title ILIKE "
  const SubtitleLike := " OR subtitle ILIKE "
  const ContentLike := " OR content ILIKE "
  const CloseParen := ")"
  const CategoryEq := "category = "
  const TagsLike := "tags ILIKE "
  const OrderLimit := " ORDER BY created_at DESC LIMIT "
  const OffsetKw := " OFFSET "

  // ---------------------------------------------------------------------
  // Building the conditions, in the handler's order.

  /** Conditions pushed so far, and the values bound to their placeholders. */
  datatype Builder = Builder(conditions: seq<seq<Piece>>, params: seq<Param>)

  /** Literal text followed by placeholder `$k`. */
  function Seg(lit: string, k: nat): seq<Piece> {
    [Lit(lit), Ph(k)]
  }

  /** How `Seg(lit, k)` reads as text. */
  function SegText(lit: string, k: nat): string {
    lit + "$" + Decimal(k)
  }

  /** The search condition when `n` values are already bound. */
  function SearchCondition(n: nat): seq<Piece> {
    Seg(TitleLike, n + 1) + Seg(SubtitleLike, n + 2) + Seg(ContentLike, n + 3) + [Lit(CloseParen)]
  }

  function CategoryCondition(n: nat): seq<Piece> {
    Seg(CategoryEq, n + 1)
  }

  function TagCondition(n: nat): seq<Piece> {
    Seg(TagsLike, n + 1)
  }

  /** Ordering and pagination after `n` bound filter values. */
  function Tail(n: nat): seq<Piece> {
    Seg(OrderLimit, n + 1) + Seg(OffsetKw, n + 2)
  }

  /** Search matches `%search%` against title, subtitle and content: one
      condition, the pattern bound three times. */
  function AddSearch(b: Builder, search: string): Builder {
    var term := "%" + search + "%";
    Builder(b.conditions + [SearchCondition(|b.params|)],
            b.params + [TextParam(term), TextParam(term), TextParam(term)])
  }

  /** Category is an exact match on the value as given. */
  function AddCategory(b: Builder, category: string): Builder {
    Builder(b.conditions + [CategoryCondition(|b.params|)], b.params + [TextParam(category)])
  }

  /** Tag is `tags ILIKE %tag%` over the whole tags string. */
  function AddTag(b: Builder, tag: string): Builder {
    Builder(b.conditions + [TagCondition(|b.params|)], b.params + [TextParam(TagPattern(tag))])
  }

  /** The pattern bound for the tag filter. */
  function TagPattern(tag: string): string {
    "%" + tag + "%"
  }

  /** The given filters, pushed in the order search, category, tag. */
  function Build(f: Filters): Builder {
    var b0 := Builder([], []);
    var b1 := if Given(f.search) then AddSearch(b0, f.search.value) else b0;
    var b2 := if Given(f.category) then AddCategory(b1, f.category.value) else b1;
    if Given(f.tag) then AddTag(b2, f.tag.value) else b2
  }

  function JoinPieces(cs: seq<seq<Piece>>, sep: seq<Piece>): seq<Piece>
    decreases |cs|
  {
    if cs == [] then []
    else if |cs| == 1 then cs[0]
    else cs[0] + sep + JoinPieces(cs[1..], sep)
  }

  /** ` WHERE ` and the conditions joined by ` AND `, or nothing. */
  function WhereClause(cs: seq<seq<Piece>>): seq<Piece> {
    if cs == [] then [] else [Lit(WhereKw)] + JoinPieces(cs, [Lit(AndKw)])
  }

  function DataPieces(b: Builder): seq<Piece> {
    [Lit(DataBase)] + WhereClause(b.conditions) + Tail(|b.params|)
  }

  function CountPieces(b: Builder): seq<Piece> {
    [Lit(CountBase)] + WhereClause(b.conditions)
  }

  /** The ordering and pagination text after `n` filter values. */
  function TailText(n: nat): string {
    SegText(OrderLimit, n + 1) + SegText(OffsetKw, n + 2)
  }

  /** What the handler sends to the database for one homepage request. */
  datatype Queries = Queries(
    whereSql: string,
    dataSql: string,
    dataParams: seq<Param>,
    countSql: string,
    countParams: seq<Param>)

  /** The data query is the shared WHERE clause plus ordering and
      `LIMIT`/`OFFSET` placeholders numbered right after the filter
      values, bound to the filter values then `6` and `offset`; the count
      query is the same WHERE clause alone, bound to exactly the filter
      values (all text), never to the limit and offset. */
  function BuildQueries(f: Filters, offset: int): (r: Queries)
    ensures r.countSql == CountBase + r.whereSql
    ensures r.dataSql == DataBase + r.whereSql + TailText(|r.countParams|)
    ensures r.dataParams == r.countParams + [IntParam(PageSize), IntParam(offset)]
    ensures forall i :: 0 <= i < |r.countParams| ==> r.countParams[i].TextParam?
    ensures r.whereSql == [] <==> !AnyGiven(f)
  {
    var b := Build(f);
    var params := b.params + [IntParam(PageSize), IntParam(offset)];
    assert params[..|params| - 2] == b.params;
    QueryTexts(b);
    WhereEmptyIffNoFilter(f);
    BuildParamsText(f);
    Queries(Render(WhereClause(b.conditions)), Render(DataPieces(b)), params,
            Render(CountPieces(b)), params[..|params| - 2])
  }

  // ---------------------------------------------------------------------
  // The literal fragments are safe next to placeholders.

  lemma DataBaseSafe() ensures SafeLiteral(DataBase) {}
  lemma CountBaseSafe() ensures SafeLiteral(CountBase) {}
  lemma WhereKwSafe() ensures SafeLiteral(WhereKw) {}
  lemma AndKwSafe() ensures SafeLiteral(AndKw) {}
  lemma TitleLikeSafe() ensures SafeLiteral(TitleLike) {}
  lemma SubtitleLikeSafe() ensures SafeLiteral(SubtitleLike) {}
  lemma ContentLikeSafe() ensures SafeLiteral(ContentLike) {}
  lemma CloseParenSafe() ensures SafeLiteral(CloseParen) {}
  lemma CategoryEqSafe() ensures SafeLiteral(CategoryEq) {}
  lemma TagsLikeSafe() ensures SafeLiteral(TagsLike) {}
  lemma OrderLimitSafe() ensures SafeLiteral(OrderLimit) {}
  lemma OffsetKwSafe() ensures SafeLiteral(OffsetKw) {}

  lemma LitFacts(t: string)
    requires SafeLiteral(t)
    ensures WellFormed([Lit(t)]) && PhNumbers([Lit(t)]) == [] && Render([Lit(t)]) == t
  {
    assert [Lit(t)][1..] == [];
  }

  lemma SegFacts(lit: string, k: nat)
    requires SafeLiteral(lit)
    ensures WellFormed(Seg(lit, k))
    ensures PhNumbers(Seg(lit, k)) == [k]
    ensures Render(Seg(lit, k)) == SegText(lit, k)
  {
    var s := Seg(lit, k);
    assert s[1..] == [Ph(k)];
    assert [Ph(k)][1..] == [];
    assert Render([Ph(k)]) == "$" + Decimal(k) + Render([]);
    assert PhNumbers([Ph(k)]) == [k] + PhNumbers([]);
  }

  /** Facts about a piece sequence that the lemmas below combine. */
  predicate Facts(ps: seq<Piece>, nums: seq<nat>, text: string) {
    WellFormed(ps) && PhNumbers(ps) == nums && Render(ps) == text
  }

  lemma FactsConcat(a: seq<Piece>, na: seq<nat>, ta: string, b: seq<Piece>, nb: seq<nat>, tb: string)
    requires Facts(a, na, ta) && Facts(b, nb, tb)
    ensures Facts(a + b, na + nb, ta + tb)
  {
    WellFormedConcat(a, b);
    PhNumbersConcat(a, b);
    RenderConcat(a, b);
  }

  // ---------------------------------------------------------------------
  // Each condition, the tail and the WHERE clause.

  /** How the search condition reads as text. */
  function SearchText(n: nat): string {
    SegText(TitleLike, n + 1) + SegText(SubtitleLike, n + 2) + SegText(ContentLike, n + 3) + CloseParen
  }

  /** Two placeholder segments bind the next two numbers. */
  lemma TwoSegs(l1: string, l2: string, n: nat)
    requires SafeLiteral(l1) && SafeLiteral(l2)
    ensures Facts(Seg(l1, n + 1) + Seg(l2, n + 2), Span(n, n + 2), SegText(l1, n + 1) + SegText(l2, n + 2))
  {
    SegFacts(l1, n + 1);
    SegFacts(l2, n + 2);
    FactsConcat(Seg(l1, n + 1), [n + 1], SegText(l1, n + 1), Seg(l2, n + 2), [n + 2], SegText(l2, n + 2));
    assert [n + 1] + [n + 2] == Span(n, n + 2);
  }

  /** Three placeholder segments and a closing literal bind the next
      three numbers. */
  lemma ThreeSegs(l1: string, l2: string, l3: string, close: string, n: nat)
    requires SafeLiteral(l1) && SafeLiteral(l2) && SafeLiteral(l3) && SafeLiteral(close)
    ensures Facts(Seg(l1, n + 1) + Seg(l2, n + 2) + Seg(l3, n + 3) + [Lit(close)], Span(n, n + 3),
                  SegText(l1, n + 1) + SegText(l2, n + 2) + SegText(l3, n + 3) + close)
  {
    TwoSegs(l1, l2, n);
    SegFacts(l3, n + 3);
    LitFacts(close);
    var ab := Seg(l1, n + 1) + Seg(l2, n + 2);
    var tab := SegText(l1, n + 1) + SegText(l2, n + 2);
    FactsConcat(ab, Span(n, n + 2), tab, Seg(l3, n + 3), [n + 3], SegText(l3, n + 3));
    FactsConcat(ab + Seg(l3, n + 3), Span(n, n + 2) + [n + 3], tab + SegText(l3, n + 3), [Lit(close)], [], close);
    assert Span(n, n + 2) + [n + 3] + [] == Span(n, n + 3);
  }

  lemma SearchFacts(n: nat)
    ensures Facts(SearchCondition(n), Span(n, n + 3), SearchText(n))
  {
    TitleLikeSafe();
    SubtitleLikeSafe();
    ContentLikeSafe();
    CloseParenSafe();
    ThreeSegs(TitleLike, SubtitleLike, ContentLike, CloseParen, n);
  }

  lemma CategoryFacts(n: nat)
    ensures Facts(CategoryCondition(n), Span(n, n + 1), SegText(CategoryEq, n + 1))
  {
    CategoryEqSafe();
    SegFacts(CategoryEq, n + 1);
  }

  lemma TagFacts(n: nat)
    ensures Facts(TagCondition(n), Span(n, n + 1), SegText(TagsLike, n + 1))
  {
    TagsLikeSafe();
    SegFacts(TagsLike, n + 1);
  }

  lemma TailFacts(n: nat)
    ensures Facts(Tail(n), Span(n, n + 2), TailText(n))
  {
    OrderLimitSafe();
    OffsetKwSafe();
    TwoSegs(OrderLimit, OffsetKw, n);
  }

  function Flatten(cs: seq<seq<Piece>>): seq<Piece>
    decreases |cs|
  {
    if cs == [] then [] else cs[0] + Flatten(cs[1..])
  }

  lemma {:induction false} FlattenSnoc(cs: seq<seq<Piece>>, c: seq<Piece>)
    ensures Flatten(cs + [c]) == Flatten(cs) + c
    decreases |cs|
  {
    if cs == [] {
      assert cs + [c] == [c];
      assert Flatten([c]) == c + Flatten([]);
    } else {
      assert (cs + [c])[1..] == cs[1..] + [c];
      FlattenSnoc(cs[1..], c);
    }
  }

  function RenderAll(cs: seq<seq<Piece>>): (r: seq<string>)
    ensures |r| == |cs| && forall i :: 0 <= i < |cs| ==> r[i] == Render(cs[i])
  {
    seq(|cs|, i requires 0 <= i < |cs| => Render(cs[i]))
  }

  lemma RenderAllConcat(a: seq<seq<Piece>>, b: seq<seq<Piece>>)
    ensures RenderAll(a + b) == RenderAll(a) + RenderAll(b)
  {
  }

  /** Joining with ` AND ` keeps the placeholders of the conditions, in
      order, and reads as their texts joined by ` AND `. */
  lemma {:induction false} JoinFacts(cs: seq<seq<Piece>>)
    requires forall i :: 0 <= i < |cs| ==> WellFormed(cs[i])
    ensures Facts(JoinPieces(cs, [Lit(AndKw)]), PhNumbers(Flatten(cs)), Join(RenderAll(cs), AndKw))
    decreases |cs|
  {
    var sep := [Lit(AndKw)];
    if cs == [] {
    } else if |cs| == 1 {
      assert Flatten(cs[1..]) == [];
      assert Flatten(cs) == cs[0] + [];
      assert cs[0] + [] == cs[0];
    } else {
      AndKwSafe();
      LitFacts(AndKw);
      JoinFacts(cs[1..]);
      var rest := JoinPieces(cs[1..], sep);
      assert RenderAll(cs)[1..] == RenderAll(cs[1..]);
      FactsConcat(cs[0], PhNumbers(cs[0]), Render(cs[0]), sep, [], AndKw);
      FactsConcat(cs[0] + sep, PhNumbers(cs[0]), Render(cs[0]) + AndKw,
                  rest, PhNumbers(Flatten(cs[1..])), Join(RenderAll(cs[1..]), AndKw));
      PhNumbersConcat(cs[0], Flatten(cs[1..]));
    }
  }

  /** Builder invariant: conditions are well formed and their
      placeholders are `$1..$n` for the `n` values bound so far. */
  predicate BuilderOk(b: Builder) {
    && (forall i :: 0 <= i < |b.conditions| ==> WellFormed(b.conditions[i]))
    && PhNumbers(Flatten(b.conditions)) == Span(0, |b.params|)
  }

  lemma AddConditionOk(b: Builder, c: seq<Piece>, k: nat, b': Builder)
    requires BuilderOk(b) && WellFormed(c) && PhNumbers(c) == Span(|b.params|, |b.params| + k)
    requires b'.conditions == b.conditions + [c] && |b'.params| == |b.params| + k
    ensures BuilderOk(b')
  {
    FlattenSnoc(b.conditions, c);
    PhNumbersConcat(Flatten(b.conditions), c);
    SpanConcat(0, |b.params|, |b.params| + k);
    forall i | 0 <= i < |b'.conditions| ensures WellFormed(b'.conditions[i]) {
      if i < |b.conditions| {
        assert b'.conditions[i] == b.conditions[i];
      }
    }
  }

  lemma BuildOk(f: Filters)
    ensures BuilderOk(Build(f))
  {
    var b0 := Builder([], []);
    var b1 := if Given(f.search) then AddSearch(b0, f.search.value) else b0;
    var b2 := if Given(f.category) then AddCategory(b1, f.category.value) else b1;
    assert Flatten([]) == [];
    assert BuilderOk(b0);
    if Given(f.search) {
      SearchFacts(0);
      AddConditionOk(b0, SearchCondition(0), 3, b1);
    }
    if Given(f.category) {
      CategoryFacts(|b1.params|);
      AddConditionOk(b1, CategoryCondition(|b1.params|), 1, b2);
    }
    if Given(f.tag) {
      TagFacts(|b2.params|);
      AddConditionOk(b2, TagCondition(|b2.params|), 1, Build(f));
    }
  }

  lemma WhereFacts(b: Builder)
    requires BuilderOk(b)
    ensures Facts(WhereClause(b.conditions), Span(0, |b.params|),
                  if b.conditions == [] then [] else WhereKw + Join(RenderAll(b.conditions), AndKw))
  {
    if b.conditions == [] {
      assert Flatten(b.conditions) == [];
    } else {
      WhereKwSafe();
      LitFacts(WhereKw);
      JoinFacts(b.conditions);
      FactsConcat([Lit(WhereKw)], [], WhereKw, JoinPieces(b.conditions, [Lit(AndKw)]),
                  Span(0, |b.params|), Join(RenderAll(b.conditions), AndKw));
    }
  }

  lemma DataFacts(b: Builder)
    requires BuilderOk(b)
    ensures Facts(DataPieces(b), Span(0, |b.params| + 2),
                  DataBase + Render(WhereClause(b.conditions)) + TailText(|b.params|))
  {
    var n := |b.params|;
    var where := WhereClause(b.conditions);
    WhereFacts(b);
    TailFacts(n);
    DataBaseSafe();
    LitFacts(DataBase);
    FactsConcat([Lit(DataBase)], [], DataBase, where, Span(0, n), Render(where));
    FactsConcat([Lit(DataBase)] + where, Span(0, n), DataBase + Render(where),
                Tail(n), Span(n, n + 2), TailText(n));
    SpanConcat(0, n, n + 2);
  }

  lemma CountFacts(b: Builder)
    requires BuilderOk(b)
    ensures Facts(CountPieces(b), Span(0, |b.params|), CountBase + Render(WhereClause(b.conditions)))
  {
    var where := WhereClause(b.conditions);
    WhereFacts(b);
    CountBaseSafe();
    LitFacts(CountBase);
    FactsConcat([Lit(CountBase)], [], CountBase, where, Span(0, |b.params|), Render(where));
  }

  /** The rendered texts, for any builder. */
  lemma QueryTexts(b: Builder)
    ensures Render(CountPieces(b)) == CountBase + Render(WhereClause(b.conditions))
    ensures Render(DataPieces(b)) == DataBase + Render(WhereClause(b.conditions)) + TailText(|b.params|)
  {
    var n := |b.params|;
    var where := WhereClause(b.conditions);
    TailFacts(n);
    DataBaseSafe();
    CountBaseSafe();
    LitFacts(DataBase);
    LitFacts(CountBase);
    RenderConcat([Lit(DataBase)] + where, Tail(n));
    RenderConcat([Lit(DataBase)], where);
    RenderConcat([Lit(CountBase)], where);
  }

  lemma WhereEmptyIffNoFilter(f: Filters)
    ensures Render(WhereClause(Build(f).conditions)) == [] <==> !AnyGiven(f)
  {
    var cs := Build(f).conditions;
    assert cs == [] <==> !AnyGiven(f);
    if cs != [] {
      WhereKwSafe();
      LitFacts(WhereKw);
      RenderConcat([Lit(WhereKw)], JoinPieces(cs, [Lit(AndKw)]));
    }
  }

  lemma BuildParamsText(f: Filters)
    ensures forall i :: 0 <= i < |Build(f).params| ==> Build(f).params[i].TextParam?
  {
  }

  // ---------------------------------------------------------------------
  // Properties of the generated queries.

  /** Reading the placeholders off the generated text: the data query uses
      `$1..$n` for its `n` parameters and the count query `$1..$m` for its
      `m`, each number exactly once and in increasing order. */
  lemma PlaceholdersNumbered(f: Filters, offset: int)
    ensures var r := BuildQueries(f, offset);
      && Placeholders(r.dataSql) == Span(0, |r.dataParams|)
      && Placeholders(r.countSql) == Span(0, |r.countParams|)
  {
    var b := Build(f);
    BuildOk(f);
    DataFacts(b);
    CountFacts(b);
    PlaceholdersOfRender(DataPieces(b));
    PlaceholdersOfRender(CountPieces(b));
  }

  /** The SQL text depends only on which filters are given, never on
      their values: user input reaches the parameters only. */
  lemma TextIndependentOfValues(f1: Filters, f2: Filters, offset1: int, offset2: int)
    requires Given(f1.search) == Given(f2.search)
    requires Given(f1.category) == Given(f2.category)
    requires Given(f1.tag) == Given(f2.tag)
    ensures BuildQueries(f1, offset1).dataSql == BuildQueries(f2, offset2).dataSql
    ensures BuildQueries(f1, offset1).countSql == BuildQueries(f2, offset2).countSql
  {
    assert Build(f1).conditions == Build(f2).conditions;
    assert |Build(f1).params| == |Build(f2).params|;
  }

  /** The filter values bound, in placeholder order: the search pattern
      three times, the category as given, the tag pattern. */
  function ExpectedParams(f: Filters): seq<Param> {
    (if Given(f.search) then
       var t := TextParam("%" + f.search.value + "%"); [t, t, t] else [])
    + (if Given(f.category) then [TextParam(f.category.value)] else [])
    + (if Given(f.tag) then [TextParam(TagPattern(f.tag.value))] else [])
  }

  lemma ParamsAsExpected(f: Filters, offset: int)
    ensures BuildQueries(f, offset).countParams == ExpectedParams(f)
  {
    var b0 := Builder([], []);
    var b1 := if Given(f.search) then AddSearch(b0, f.search.value) else b0;
    var b2 := if Given(f.category) then AddCategory(b1, f.category.value) else b1;
    assert b1.params == if Given(f.search) then
      var t := TextParam("%" + f.search.value + "%"); [t, t, t] else [];
    assert b2.params == b1.params + if Given(f.category) then [TextParam(f.category.value)] else [];
    assert Build(f).params == b2.params + if Given(f.tag) then [TextParam(TagPattern(f.tag.value))] else [];
  }

  /** The WHERE conditions spelled out directly: the fixed order search,
      category, tag, each placeholder numbered after the values bound
      before it. */
  function ExpectedConditions(f: Filters): seq<string> {
    var afterSearch := if Given(f.search) then 3 else 0;
    var afterCategory := afterSearch + (if Given(f.category) then 1 else 0);
    (if Given(f.search) then [SearchText(0)] else [])
    + (if Given(f.category) then [SegText(CategoryEq, afterSearch + 1)] else [])
    + (if Given(f.tag) then [SegText(TagsLike, afterCategory + 1)] else [])
  }

  /** ` WHERE ` appears exactly when some filter is given, followed by the
      expected conditions joined by ` AND `. */
  lemma WhereAsExpected(f: Filters, offset: int)
    ensures var conds := ExpectedConditions(f);
      BuildQueries(f, offset).whereSql == if conds == [] then [] else WhereKw + Join(conds, AndKw)
  {
    var b := Build(f);
    BuildOk(f);
    WhereFacts(b);
    RenderedConditions(f);
  }

  lemma RenderedConditions(f: Filters)
    ensures RenderAll(Build(f).conditions) == ExpectedConditions(f)
  {
    var k := if Given(f.search) then 3 else 0;
    var k' := k + (if Given(f.category) then 1 else 0);
    var b0 := Builder([], []);
    var b1 := if Given(f.search) then AddSearch(b0, f.search.value) else b0;
    var b2 := if Given(f.category) then AddCategory(b1, f.category.value) else b1;
    var e1 := if Given(f.search) then [SearchText(0)] else [];
    var e2 := if Given(f.category) then [SegText(CategoryEq, k + 1)] else [];
    var e3 := if Given(f.tag) then [SegText(TagsLike, k' + 1)] else [];
    if Given(f.search) {
      SearchRenders(b0, f.search.value);
    }
    assert |b1.params| == k && RenderAll(b1.conditions) == e1;
    if Given(f.category) {
      CategoryRenders(b1, f.category.value);
    }
    assert |b2.params| == k' && RenderAll(b2.conditions) == e1 + e2;
    if Given(f.tag) {
      TagRenders(b2, f.tag.value);
    }
    assert RenderAll(Build(f).conditions) == e1 + e2 + e3;
  }

  lemma SearchRenders(b: Builder, search: string)
    ensures |AddSearch(b, search).params| == |b.params| + 3
    ensures RenderAll(AddSearch(b, search).conditions) == RenderAll(b.conditions) + [SearchText(|b.params|)]
  {
    SearchFacts(|b.params|);
    RenderAllConcat(b.conditions, [SearchCondition(|b.params|)]);
  }

  lemma CategoryRenders(b: Builder, category: string)
    ensures |AddCategory(b, category).params| == |b.params| + 1
    ensures RenderAll(AddCategory(b, category).conditions)
      == RenderAll(b.conditions) + [SegText(CategoryEq, |b.params| + 1)]
  {
    CategoryFacts(|b.params|);
    RenderAllConcat(b.conditions, [CategoryCondition(|b.params|)]);
  }

  lemma TagRenders(b: Builder, tag: string)
    ensures |AddTag(b, tag).params| == |b.params| + 1
    ensures RenderAll(AddTag(b, tag).conditions) == RenderAll(b.conditions) + [SegText(TagsLike, |b.params| + 1)]
  {
    TagFacts(|b.params|);
    RenderAllConcat(b.conditions, [TagCondition(|b.params|)]);
  }

  /** The search condition when search comes first, as the handler prints it. */
  lemma FirstSearchText()
    ensures SearchText(0) == "(title ILIKE $1" + " OR subtitle ILIKE $2" + " OR content ILIKE $3" + ")"
  {
    TitleText();
    SubtitleText();
    ContentText();
  }

  lemma TitleText() ensures SegText(TitleLike, 1) == "(title ILIKE $1" {
    assert Decimal(1) == "1";
  }

  lemma SubtitleText() ensures SegText(SubtitleLike, 2) == " OR subtitle ILIKE $2" {
    assert Decimal(2) == "2";
  }

  lemma ContentText() ensures SegText(ContentLike, 3) == " OR content ILIKE $3" {
    assert Decimal(3) == "3";
  }

  /** The tag condition holds for a row's tags string exactly when the
      tag occurs anywhere in it, not only as a whole comma-separated
      token (for a tag without `%`, `_` or backslash). */
  lemma TagFilterIsSubstring(f: Filters, offset: int, tags: string)
    requires Given(f.tag) && Like.Plain(f.tag.value)
    ensures var ps := BuildQueries(f, offset).countParams;
      ps[|ps| - 1] == TextParam(TagPattern(f.tag.value))
      && (Like.Matches(ps[|ps| - 1].text, tags) <==> Contains(tags, f.tag.value))
  {
    ParamsAsExpected(f, offset);
    Like.SubstringPattern(f.tag.value, tags);
  }

  /** Filtering on `ai` selects a row tagged `air`. */
  lemma TagFilterMatchesInsideWords()
    ensures Like.Matches(TagPattern("ai"), "air")
  {
    Like.SubstringPattern("ai", "air");
    assert OccursAt("air", "ai", 0);
  }

  /** Wildcards in user input are not escaped: a tag `a_` selects a row
      tagged `ab`, although `a_` does not occur in it. */
  lemma TagWildcardsNotEscaped()
    ensures Like.Matches(TagPattern("a_"), "ab") && !Contains("ab", "a_")
  {
    assert TagPattern("a_") == "%a_%";
    assert Like.Matches("%", "");
    assert Like.Matches("_%", "b");
    assert Like.Matches("a_%", "ab");
    assert !OccursAt("ab", "a_", 0);
  }
}
