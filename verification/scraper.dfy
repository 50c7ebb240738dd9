/** The SQL-safe text helpers and the accumulation step of the article
    scraper (gambar.py), over text the browser already extracted. */
module Scraper {
  import opened Wrappers
  import opened Text

  // ---------------------------------------------------------------------
  // Character replacement and its inverse.

  /** Python's `s.replace(c, rep)` for a one-character `c`: every `c`
      becomes `rep`, every other character stays. */
  function Replace(s: string, c: char, rep: string): (r: string)
    ensures c !in rep ==> c !in r
    ensures forall x :: x != c && x !in rep ==> (x in r <==> x in s)
    ensures r == [] <==> s == [] || (rep == []  && forall i :: 0 <= i < |s| ==> s[i] == c)
    decreases |s|
  {
    if s == [] then [] else Sub(s[0], c, rep) + Replace(s[1..], c, rep)
  }

  /** `s.replace("'", "''")`: the SQL escaping of a quote. */
  function Escape(s: string): string {
    Replace(s, '\'', "''")
  }

  /** `s.replace("''", "'")`: each doubled quote, read left to right,
      back to one. */
  function Undouble(s: string): string
    decreases |s|
  {
    if s == [] then []
    else if |s| >= 2 && s[0] == '\'' && s[1] == '\'' then "'" + Undouble(s[2..])
    else [s[0]] + Undouble(s[1..])
  }

  lemma {:induction false} UndoubleEscape(s: string)
    ensures Undouble(Escape(s)) == s
    decreases |s|
  {
    if s != [] {
      UndoubleEscape(s[1..]);
      var rest := Escape(s[1..]);
      if s[0] == '\'' {
        assert Escape(s) == "''" + rest;
        assert ("''" + rest)[2..] == rest;
      } else {
        assert Escape(s) == [s[0]] + rest;
        assert ([s[0]] + rest)[1..] == rest;
      }
    }
  }

  lemma {:induction false} ReplaceConcat(a: string, b: string, c: char, rep: string)
    ensures Replace(a + b, c, rep) == Replace(a, c, rep) + Replace(b, c, rep)
    decreases |a|
  {
    if a == [] {
      assert a + b == b;
    } else {
      assert (a + b)[1..] == a[1..] + b;
      ReplaceConcat(a[1..], b, c, rep);
    }
  }

  /** What `Replace` makes of one character. */
  function Sub(ch: char, c: char, rep: string): string {
    if ch == c then rep else [ch]
  }

  lemma SubCommute(ch: char, a: char, aRep: string, b: char, bRep: string)
    requires a != b && b !in aRep && a !in bRep
    ensures Replace(Sub(ch, a, aRep), b, bRep) == Replace(Sub(ch, b, bRep), a, aRep)
  {
    ReplaceAbsent(aRep, b, bRep);
    ReplaceAbsent(bRep, a, aRep);
    assert Replace([ch], b, bRep) == Sub(ch, b, bRep) + Replace([], b, bRep);
    assert Replace([ch], a, aRep) == Sub(ch, a, aRep) + Replace([], a, aRep);
  }

  /** Replacing two different characters gives the same text in either
      order, when neither replacement brings in the other's character. */
  lemma {:induction false} ReplaceCommute(s: string, a: char, aRep: string, b: char, bRep: string)
    requires a != b && b !in aRep && a !in bRep
    ensures Replace(Replace(s, a, aRep), b, bRep) == Replace(Replace(s, b, bRep), a, aRep)
    decreases |s|
  {
    if s != [] {
      ReplaceCommute(s[1..], a, aRep, b, bRep);
      ReplaceConcat(Sub(s[0], a, aRep), Replace(s[1..], a, aRep), b, bRep);
      ReplaceConcat(Sub(s[0], b, bRep), Replace(s[1..], b, bRep), a, aRep);
      SubCommute(s[0], a, aRep, b, bRep);
    }
  }

  lemma {:induction false} ReplaceAbsent(s: string, c: char, rep: string)
    requires c !in s
    ensures Replace(s, c, rep) == s
    decreases |s|
  {
    if s != [] {
      ReplaceAbsent(s[1..], c, rep);
    }
  }

  lemma ReplaceFirst(s: string, c: char, rep: string)
    requires s != [] && rep != []
    ensures Replace(s, c, rep)[0] == if s[0] == c then rep[0] else s[0]
  {
  }

  lemma ReplaceLast(s: string, c: char, rep: string)
    requires s != [] && rep != []
    ensures var r := Replace(s, c, rep);
      r != [] && r[|r| - 1] == if s[|s| - 1] == c then rep[|rep| - 1] else s[|s| - 1]
  {
    var init := s[..|s| - 1];
    var last := s[|s| - 1];
    assert s == init + [last];
    ReplaceConcat(init, [last], c, rep);
    assert Replace([last], c, rep) == (if last == c then rep else [last]) + Replace([], c, rep);
  }

  // ---------------------------------------------------------------------
  // safe_get_text and safe_get_attribute.

  /** `safe_get_text`: the element's text (`None` when reading it raises)
      stripped, quotes doubled, then line feeds and carriage returns each
      turned into a space. */
  function SafeGetText(text: Option<string>): string {
    match text
    case None => []
    case Some(t) => Replace(Replace(Escape(Trim(t, PyWhitespace)), '\n', " "), '\r', " ")
  }

  /** The stripped text with line breaks turned into spaces, before
      quoting. */
  function Flattened(t: string): string {
    Replace(Replace(Trim(t, PyWhitespace), '\n', " "), '\r', " ")
  }

  lemma LineBreaksWhitespace()
    ensures '\n' in PyWhitespace && '\r' in PyWhitespace && '\'' !in PyWhitespace
  {
  }

  /** The output holds no line break. */
  lemma SafeTextOneLine(text: Option<string>)
    ensures '\n' !in SafeGetText(text) && '\r' !in SafeGetText(text)
  {
  }

  /** Every quote is doubled: undoing the doubling gives the stripped
      text with its line breaks turned into spaces. */
  lemma SafeTextUndoubles(t: string)
    ensures SafeGetText(Some(t)) == Escape(Flattened(t))
    ensures Undouble(SafeGetText(Some(t))) == Flattened(t)
  {
    var s := Trim(t, PyWhitespace);
    ReplaceCommute(s, '\'', "''", '\n', " ");
    ReplaceCommute(Replace(s, '\n', " "), '\'', "''", '\r', " ");
    UndoubleEscape(Flattened(t));
  }

  /** Replacing a character keeps the ends of a text out of `w` when
      they were out of it, or the replacement's ends are. */
  lemma ReplaceEnds(s: string, c: char, rep: string, w: set<char>)
    requires s != [] && rep != [] && s[0] !in w && s[|s| - 1] !in w
    requires s[0] == c ==> rep[0] !in w
    requires s[|s| - 1] == c ==> rep[|rep| - 1] !in w
    ensures var r := Replace(s, c, rep); r != [] && r[0] !in w && r[|r| - 1] !in w
  {
    ReplaceFirst(s, c, rep);
    ReplaceLast(s, c, rep);
  }

  /** The quoting and line-break replacements of `safe_get_text` keep a
      text's ends out of a whitespace set holding both line breaks but
      not the quote. */
  lemma SafeEnds(s: string, w: set<char>)
    requires '\n' in w && '\r' in w && '\'' !in w
    requires s != [] && s[0] !in w && s[|s| - 1] !in w
    ensures var r := Replace(Replace(Escape(s), '\n', " "), '\r', " ");
      r != [] && r[0] !in w && r[|r| - 1] !in w
  {
    ReplaceEnds(s, '\'', "''", w);
    ReplaceEnds(Escape(s), '\n', " ", w);
    ReplaceEnds(Replace(Escape(s), '\n', " "), '\r', " ", w);
  }

  lemma CleanFacts(t: string, w: set<char>)
    requires '\n' in w && '\r' in w && '\'' !in w
    ensures var r := Replace(Replace(Escape(Trim(t, w)), '\n', " "), '\r', " ");
      && (r == [] || (r[0] !in w && r[|r| - 1] !in w))
      && (r == [] <==> AllIn(t, w))
  {
    var s := Trim(t, w);
    TrimEmptyIffBlank(t, w);
    if s != [] {
      SafeEnds(s, w);
    }
  }

  /** Stripping comes first, so the output neither starts nor ends with
      whitespace, and it is empty exactly when the text was blank. */
  lemma SafeTextTrimmed(t: string)
    ensures var r := SafeGetText(Some(t));
      && (r == [] || (r[0] !in PyWhitespace && r[|r| - 1] !in PyWhitespace))
      && (r == [] <==> AllIn(t, PyWhitespace))
  {
    LineBreaksWhitespace();
    CleanFacts(t, PyWhitespace);
  }

  /** `safe_get_attribute`: an empty or absent value (or one that raises)
      gives `''`; any other value has its quotes doubled and keeps its
      line breaks. */
  function SafeGetAttribute(value: Option<string>): (r: string)
    ensures r == [] <==> value.None? || value.value == []
    ensures value.Some? ==> ('\n' in r <==> '\n' in value.value) && ('\r' in r <==> '\r' in value.value)
  {
    if value.Some? && value.value != [] then Escape(value.value) else []
  }

  lemma AttributeUndoubles(value: string)
    ensures Undouble(SafeGetAttribute(Some(value))) == value
  {
    UndoubleEscape(value);
  }

  // ---------------------------------------------------------------------
  // format_sql_array and a reader for what it writes.

  const EmptyArray := "ARRAY[]::TEXT[]"
  const Open := "ARRAY[\n  "
  const Sep := ",\n  "
  const Close := "\n]"

  function Quote(item: string): string {
    "'" + item + "'"
  }

  function QuoteAll(items: seq<string>): (r: seq<string>)
    ensures |r| == |items| && forall i :: 0 <= i < |items| ==> r[i] == Quote(items[i])
  {
    seq(|items|, i requires 0 <= i < |items| => Quote(items[i]))
  }

  /** `format_sql_array`: a PostgreSQL `TEXT[]` literal of the items,
      each in single quotes, one per line. */
  function FormatSqlArray(items: seq<string>): string {
    if items == [] then EmptyArray else Open + Join(QuoteAll(items), Sep) + Close
  }

  /** Reads a quoted literal's body, `t` starting just after the opening
      quote: a doubled quote stands for one, a single quote ends it.
      Yields the value and the text after the closing quote. */
  function ReadQuoted(t: string): (r: Option<(string, string)>)
    ensures r.Some? ==> |r.value.1| < |t|
    decreases |t|
  {
    if t == [] then None
    else if t[0] == '\'' then
      if |t| >= 2 && t[1] == '\'' then
        match ReadQuoted(t[2..])
        case None => None
        case Some(vr) => Some(("'" + vr.0, vr.1))
      else Some(([], t[1..]))
    else
      match ReadQuoted(t[1..])
      case None => None
      case Some(vr) => Some(([t[0]] + vr.0, vr.1))
  }

  /** Reads quoted items separated by `Sep` up to the closing `Close`. */
  function ReadItems(t: string): Option<seq<string>>
    decreases |t|
  {
    if t == [] || t[0] != '\'' then None
    else
      match ReadQuoted(t[1..])
      case None => None
      case Some(vr) =>
        if vr.1 == Close then Some([vr.0])
        else if |vr.1| >= |Sep| && vr.1[..|Sep|] == Sep then
          match ReadItems(vr.1[|Sep|..])
          case None => None
          case Some(more) => Some([vr.0] + more)
        else None
  }

  /** Reads a `TEXT[]` literal in the layout `FormatSqlArray` writes. */
  function ParseSqlArray(s: string): Option<seq<string>> {
    if s == EmptyArray then Some([])
    else if |s| >= |Open| && s[..|Open|] == Open then ReadItems(s[|Open|..])
    else None
  }

  function EscapeAll(items: seq<string>): (r: seq<string>)
    ensures |r| == |items| && forall i :: 0 <= i < |items| ==> r[i] == Escape(items[i])
  {
    seq(|items|, i requires 0 <= i < |items| => Escape(items[i]))
  }

  lemma {:induction false} ReadEscaped(x: string, rest: string)
    requires rest == [] || rest[0] != '\''
    ensures ReadQuoted(Escape(x) + "'" + rest) == Some((x, rest))
    decreases |x|
  {
    if x == [] {
      assert Escape(x) + "'" + rest == "'" + rest;
      assert ("'" + rest)[1..] == rest;
    } else {
      ReadEscaped(x[1..], rest);
      var head := if x[0] == '\'' then "''" else [x[0]];
      var t' := Escape(x[1..]) + "'" + rest;
      Regroup2(head, Escape(x[1..]), "'", rest);
      assert Escape(x) + "'" + rest == head + t';
      assert (head + t')[|head|..] == t';
      assert [x[0]] + x[1..] == x;
    }
  }

  lemma Regroup2(a: string, b: string, c: string, d: string)
    ensures (a + b) + c + d == a + (b + c + d)
  {
  }

  lemma CloseFacts()
    ensures |Close| == 2 && Close[0] == '\n' && Close[1] == ']'
  {
  }

  lemma SepFacts()
    ensures |Sep| == 4 && Sep[0] == ',' && Sep[1] == '\n'
  {
  }

  lemma OpenFacts()
    ensures |Open| == 9 && Open[6] == '\n' && |EmptyArray| == 15 && EmptyArray[6] == ']'
  {
  }

  /** A quoted escaped item followed by text that does not start with a
      quote reads back as the item and that text. */
  lemma ReadQuotedItem(x: string, rest: string)
    requires rest == [] || rest[0] != '\''
    ensures var t := Quote(Escape(x)) + rest;
      t != [] && t[0] == '\'' && ReadQuoted(t[1..]) == Some((x, rest))
  {
    var t := Quote(Escape(x)) + rest;
    assert t[1..] == Escape(x) + "'" + rest;
    ReadEscaped(x, rest);
  }

  lemma Regroup(a: string, b: string, c: string, d: string)
    ensures a + b + c + d == a + (b + (c + d))
  {
  }

  lemma ReadLastItem(x: string)
    ensures ReadItems(Quote(Escape(x)) + Close) == Some([x])
  {
    CloseFacts();
    ReadQuotedItem(x, Close);
  }

  lemma ReadNextItem(x: string, tail: string)
    ensures ReadItems(Quote(Escape(x)) + (Sep + tail)) ==
      match ReadItems(tail) case None => None case Some(more) => Some([x] + more)
  {
    var rest := Sep + tail;
    SepFacts();
    CloseFacts();
    ReadQuotedItem(x, rest);
    assert rest[0] == ',' && rest != Close;
    assert rest[..|Sep|] == Sep && rest[|Sep|..] == tail;
  }

  /** The formatted body of two or more items: the first quoted item, the
      separator, the body of the rest. */
  lemma BodySplit(items: seq<string>)
    requires |items| >= 2
    ensures Join(QuoteAll(EscapeAll(items)), Sep) + Close
      == Quote(Escape(items[0])) + (Sep + (Join(QuoteAll(EscapeAll(items[1..])), Sep) + Close))
  {
    var qs := QuoteAll(EscapeAll(items));
    assert QuoteAll(EscapeAll(items[1..])) == qs[1..];
    Regroup(qs[0], Sep, Join(qs[1..], Sep), Close);
  }

  lemma {:induction false} ReadEscapedItems(items: seq<string>)
    requires items != []
    ensures ReadItems(Join(QuoteAll(EscapeAll(items)), Sep) + Close) == Some(items)
    decreases |items|
  {
    if |items| == 1 {
      assert Join(QuoteAll(EscapeAll(items)), Sep) == Quote(Escape(items[0]));
      ReadLastItem(items[0]);
      assert items == [items[0]];
    } else {
      ReadEscapedItems(items[1..]);
      BodySplit(items);
      ReadNextItem(items[0], Join(QuoteAll(EscapeAll(items[1..])), Sep) + Close);
      assert items == [items[0]] + items[1..];
    }
  }

  /** Reading back what `format_sql_array` wrote for escaped items gives
      the original texts, in order, for every list. */
  lemma ArrayRoundTrip(items: seq<string>)
    ensures ParseSqlArray(FormatSqlArray(EscapeAll(items))) == Some(items)
  {
    if items != [] {
      var s := FormatSqlArray(EscapeAll(items));
      var body := Join(QuoteAll(EscapeAll(items)), Sep) + Close;
      assert s == Open + body;
      OpenFacts();
      assert s != EmptyArray by {
        assert s[6] == '\n';
      }
      assert s[..|Open|] == Open;
      assert s[|Open|..] == body;
      ReadEscapedItems(items);
    }
  }

  // ---------------------------------------------------------------------
  // One article's step of scrape_article.

  /** What one image selector finds: no element, or an element whose
      `src` (`None` when absent or unreadable). */
  datatype ImageLookup = NoElement | Element(src: Option<string>)

  /** What the browser shows for one link: the page did not load or its
      title did not appear in time, or the title's text (`None` when
      reading it raises), the paragraph texts (`None` when finding them
      raises) and the image lookups, one per selector in order. */
  datatype ArticlePage =
    | Unreachable
    | TitleTimeout
    | Loaded(title: Option<string>, paragraphs: Option<seq<Option<string>>>, images: seq<ImageLookup>)

  /** The image URL the selector loop settles on: the first non-empty
      escaped `src`, or `''`. */
  function FirstImage(lookups: seq<ImageLookup>): (r: string)
    ensures r == [] <==> forall i :: 0 <= i < |lookups| ==> SafeGetAttributeOf(lookups[i]) == []
    decreases |lookups|
  {
    if lookups == [] then []
    else if SafeGetAttributeOf(lookups[0]) != [] then SafeGetAttributeOf(lookups[0])
    else
      var r := FirstImage(lookups[1..]);
      assert forall i :: 1 <= i < |lookups| ==> lookups[i] == lookups[1..][i - 1];
      r
  }

  function SafeGetAttributeOf(l: ImageLookup): string {
    if l.Element? then SafeGetAttribute(l.src) else []
  }

  /** The selector loop as written: a found element's value replaces the
      URL, and the loop stops at the first non-empty one. */
  method PickImage(lookups: seq<ImageLookup>) returns (url: string)
    ensures url == FirstImage(lookups)
  {
    url := [];
    var i := 0;
    while i < |lookups|
      invariant 0 <= i <= |lookups|
      invariant url == []
      invariant FirstImage(lookups) == FirstImage(lookups[i..])
    {
      assert lookups[i..][1..] == lookups[i + 1..];
      match lookups[i] {
        case NoElement =>
        case Element(src) =>
          url := SafeGetAttribute(src);
          if url != [] {
            return;
          }
      }
      i := i + 1;
    }
  }

  function SafeTexts(ps: seq<Option<string>>): (r: seq<string>)
    ensures |r| == |ps| && forall i :: 0 <= i < |ps| ==> r[i] == SafeGetText(ps[i])
  {
    seq(|ps|, i requires 0 <= i < |ps| => SafeGetText(ps[i]))
  }

  /** The non-empty texts, in order. */
  function NonEmpty(texts: seq<string>): (r: seq<string>)
    ensures forall t :: t in r <==> t in texts && t != []
    decreases |texts|
  {
    if texts == [] then []
    else (if texts[0] != [] then [texts[0]] else []) + NonEmpty(texts[1..])
  }

  /** Subtitle and joined content of the paragraphs. */
  function SubtitleAndContent(paragraphs: Option<seq<Option<string>>>): (string, string) {
    match paragraphs
    case None => ([], [])
    case Some(ps) =>
      if ps == [] then ([], [])
      else (SafeGetText(ps[0]), Join(NonEmpty(SafeTexts(ps)), " "))
  }

  /** The four lists the scraper fills. */
  datatype Lists = Lists(titles: seq<string>, subtitles: seq<string>, contents: seq<string>, images: seq<string>)

  predicate Aligned(l: Lists) {
    |l.titles| == |l.subtitles| == |l.contents| == |l.images|
  }

  /** The page yields an article: it loaded and its title is not blank. */
  predicate Accepted(page: ArticlePage) {
    page.Loaded? && SafeGetText(page.title) != []
  }

  /** `scrape_article` after the browser work: an article with a
      non-blank title is appended to all four lists, with the paragraphs'
      joined text as content or the subtitle when that is empty;
      otherwise no list changes. Returns whether it appended. */
  method ScrapeArticle(l: Lists, page: ArticlePage) returns (l': Lists, ok: bool)
    ensures ok <==> Accepted(page)
    ensures !ok ==> l' == l
    ensures ok ==>
      var (subtitle, content) := SubtitleAndContent(page.paragraphs);
      l' == Lists(l.titles + [SafeGetText(page.title)], l.subtitles + [subtitle],
                  l.contents + [if content != [] then content else subtitle],
                  l.images + [FirstImage(page.images)])
  {
    if !page.Loaded? {
      return l, false;
    }
    var title := SafeGetText(page.title);
    var (subtitle, content) := SubtitleAndContent(page.paragraphs);
    var image := PickImage(page.images);
    if title != [] {
      l' := Lists(l.titles + [title], l.subtitles + [subtitle],
                  l.contents + [if content != [] then content else subtitle], l.images + [image]);
      ok := true;
    } else {
      l', ok := l, false;
    }
  }

  /** The lists after scraping every page in turn. */
  method ScrapeAll(l: Lists, pages: seq<ArticlePage>) returns (l': Lists)
    requires Aligned(l)
    ensures Aligned(l')
    ensures |l'.titles| == |l.titles| + Count(pages)
  {
    l' := l;
    var i := 0;
    while i < |pages|
      invariant 0 <= i <= |pages|
      invariant Aligned(l')
      invariant |l'.titles| == |l.titles| + Count(pages[..i])
    {
      var ok;
      l', ok := ScrapeArticle(l', pages[i]);
      CountSnoc(pages[..i], pages[i]);
      assert pages[..i + 1] == pages[..i] + [pages[i]];
      i := i + 1;
    }
    assert pages[..|pages|] == pages;
  }

  /** How many pages yield an article. */
  function Count(pages: seq<ArticlePage>): nat
    decreases |pages|
  {
    if pages == [] then 0 else (if Accepted(pages[0]) then 1 else 0) + Count(pages[1..])
  }

  lemma {:induction false} CountSnoc(pages: seq<ArticlePage>, p: ArticlePage)
    ensures Count(pages + [p]) == Count(pages) + (if Accepted(p) then 1 else 0)
    decreases |pages|
  {
    if pages == [] {
      assert [] + [p] == [p];
      assert [p][1..] == [];
    } else {
      assert (pages + [p])[1..] == pages[1..] + [p];
      CountSnoc(pages[1..], p);
    }
  }

  /** The stored content is empty only when there were no non-blank
      paragraphs and no subtitle. */
  lemma ContentFallback(paragraphs: Option<seq<Option<string>>>)
    ensures var (subtitle, content) := SubtitleAndContent(paragraphs);
      (if content != [] then content else subtitle) == [] <==> content == [] && subtitle == []
  {
  }

  /** Joining non-empty texts with a space is empty only for no texts. */
  lemma JoinNonEmpty(texts: seq<string>)
    requires forall i :: 0 <= i < |texts| ==> texts[i] != []
    ensures Join(texts, " ") == [] <==> texts == []
  {
    if texts != [] {
      assert |Join(texts, " ")| >= |texts[0]| by {
        if |texts| > 1 {
          assert Join(texts, " ") == texts[0] + " " + Join(texts[1..], " ");
        }
      }
    }
  }

  /** Undoubling works piece by piece when the second piece does not
      start with a quote. */
  lemma {:induction false} UndoubleConcat(x: string, z: string)
    requires z == [] || z[0] != '\''
    ensures Undouble(x + z) == Undouble(x) + Undouble(z)
    decreases |x|
  {
    if x == [] {
      assert x + z == z;
    } else if |x| >= 2 && x[0] == '\'' && x[1] == '\'' {
      assert (x + z)[2..] == x[2..] + z;
      UndoubleConcat(x[2..], z);
    } else {
      assert (x + z)[1..] == x[1..] + z;
      UndoubleConcat(x[1..], z);
    }
  }

  function UndoubleAll(texts: seq<string>): (r: seq<string>)
    ensures |r| == |texts| && forall i :: 0 <= i < |texts| ==> r[i] == Undouble(texts[i])
  {
    seq(|texts|, i requires 0 <= i < |texts| => Undouble(texts[i]))
  }

  /** Undoubling a space-joined text undoubles each part. */
  lemma {:induction false} UndoubleJoin(texts: seq<string>)
    ensures Undouble(Join(texts, " ")) == Join(UndoubleAll(texts), " ")
    decreases |texts|
  {
    if |texts| > 1 {
      UndoubleJoin(texts[1..]);
      var tail := Join(texts[1..], " ");
      UndoubleConcat(texts[0], " " + tail);
      assert (" " + tail)[1..] == tail;
      assert texts[0] + " " + tail == texts[0] + (" " + tail);
      assert Undouble(" ") == " ";
      assert UndoubleAll(texts)[1..] == UndoubleAll(texts[1..]);
    }
  }

  /** A paragraph's text before quoting: stripped, line breaks as
      spaces, or nothing when reading it raises. */
  function FlatText(p: Option<string>): string {
    if p.Some? then Flattened(p.value) else []
  }

  function FlatTexts(ps: seq<Option<string>>): (r: seq<string>)
    ensures |r| == |ps| && forall i :: 0 <= i < |ps| ==> r[i] == FlatText(ps[i])
  {
    seq(|ps|, i requires 0 <= i < |ps| => FlatText(ps[i]))
  }

  /** A paragraph's escaped text undoubles to its flat text, and one is
      empty exactly when the other is. */
  lemma SafeTextFlat(p: Option<string>)
    ensures Undouble(SafeGetText(p)) == FlatText(p)
    ensures SafeGetText(p) == [] <==> FlatText(p) == []
  {
    if p.Some? {
      SafeTextUndoubles(p.value);
    }
  }

  lemma UndoubleAllConcat(a: seq<string>, b: seq<string>)
    ensures UndoubleAll(a + b) == UndoubleAll(a) + UndoubleAll(b)
  {
  }

  /** Texts that undouble one by one to others, empty exactly when
      those are, keep that relation after dropping the empty ones. */
  lemma {:induction false} NonEmptyPaired(xs: seq<string>, ys: seq<string>)
    requires |xs| == |ys|
    requires forall i :: 0 <= i < |xs| ==> Undouble(xs[i]) == ys[i] && (xs[i] == [] <==> ys[i] == [])
    ensures UndoubleAll(NonEmpty(xs)) == NonEmpty(ys)
    decreases |xs|
  {
    if xs != [] {
      NonEmptyPaired(xs[1..], ys[1..]);
      var head := if xs[0] != [] then [xs[0]] else [];
      UndoubleAllConcat(head, NonEmpty(xs[1..]));
    }
  }

  /** The non-empty escaped paragraph texts undouble, in order, to the
      non-empty flat ones. */
  lemma NonEmptyUndoubled(ps: seq<Option<string>>)
    ensures UndoubleAll(NonEmpty(SafeTexts(ps))) == NonEmpty(FlatTexts(ps))
  {
    forall i | 0 <= i < |ps| ensures Undouble(SafeTexts(ps)[i]) == FlatTexts(ps)[i]
      && (SafeTexts(ps)[i] == [] <==> FlatTexts(ps)[i] == [])
    {
      SafeTextFlat(ps[i]);
    }
    NonEmptyPaired(SafeTexts(ps), FlatTexts(ps));
  }

  /** The stored content, with its doubled quotes read back, is the
      space-joined flat text of the paragraphs that have any. */
  lemma ContentUndoubles(ps: seq<Option<string>>)
    requires ps != []
    ensures Undouble(SubtitleAndContent(Some(ps)).1) == Join(NonEmpty(FlatTexts(ps)), " ")
  {
    UndoubleJoin(NonEmpty(SafeTexts(ps)));
    NonEmptyUndoubled(ps);
  }

  /** A list of `safe_get_text` outputs, written as a `TEXT[]` literal,
      reads back as the flat texts they came from. */
  lemma TextsRoundTrip(ps: seq<Option<string>>)
    ensures ParseSqlArray(FormatSqlArray(SafeTexts(ps))) == Some(FlatTexts(ps))
  {
    forall i | 0 <= i < |ps| ensures SafeTexts(ps)[i] == Escape(FlatTexts(ps)[i]) {
      if ps[i].Some? {
        SafeTextUndoubles(ps[i].value);
      }
    }
    assert SafeTexts(ps) == EscapeAll(FlatTexts(ps));
    ArrayRoundTrip(FlatTexts(ps));
  }
}
