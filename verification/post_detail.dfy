/** The article page (app.js, `GET /post/:slug`): look the post up by
    slug, count the view, and pick related posts of the same category. */
module PostDetail {
  import opened Wrappers
  import opened Records
  import opened Store

  /** Where the handler's storage calls fail, if anywhere.
      `LookupFails` is a failure before any row changed: the slug lookup
      or the `UPDATE ... views + 1` itself, which the handler answers
      with 500 and the table as it was. `LaterQueryFails` is a failure of
      a query after the view was counted. */
  datatype Fault = NoFault | LookupFails | LaterQueryFails

  /** The handler's answer. `post` is the row as read before its view
      was counted; `related` the ids of the related posts, in page order. */
  datatype Detail =
    | Article(id: nat, post: Post, related: seq<nat>)
    | NotFound
    | LoadFailed

  function DetailResponse(d: Detail): Response
    requires !d.Article?
  {
    if d.NotFound? then Reply("Post not found") else Send(500, "Error loading post")
  }

  predicate HasSlug(slug: string, p: Post) {
    p.slug == slug
  }

  /** JavaScript truthiness of the category column. */
  predicate HasCategory(p: Post) {
    p.category.Some? && p.category.value != []
  }

  /** The rows `WHERE category=$1 AND id != $2`, as a set of ids, or
      nothing when the post has no category. */
  function Candidates(posts: Table<Post>, id: nat, p: Post): (r: set<nat>)
    ensures !HasCategory(p) ==> r == {}
    ensures forall k :: k in r <==> HasCategory(p) && k in posts.rows && k != id && posts.rows[k].category == p.category
  {
    if HasCategory(p) then set k | k in posts.rows && k != id && posts.rows[k].category == p.category else {}
  }

  /** `ORDER BY created_at DESC`: a later creation time first, and a
      missing one before every present one (PostgreSQL puts nulls first
      in a descending order). The database leaves the order of equal
      times open; the model puts the smaller id first. */
  predicate Precedes(posts: Table<Post>, a: nat, b: nat)
    requires a in posts.rows && b in posts.rows
  {
    var x := posts.rows[a].createdAt;
    var y := posts.rows[b].createdAt;
    if x == y then a < b else x.None? || (y.Some? && x.value > y.value)
  }

  /** The order is strict, total and transitive. */
  lemma PrecedesOrder(posts: Table<Post>, a: nat, b: nat, c: nat)
    requires a in posts.rows && b in posts.rows && c in posts.rows
    ensures !Precedes(posts, a, a)
    ensures a != b ==> Precedes(posts, a, b) || Precedes(posts, b, a)
    ensures Precedes(posts, a, b) ==> !Precedes(posts, b, a)
    ensures Precedes(posts, a, b) && Precedes(posts, b, c) ==> Precedes(posts, a, c)
  {
  }

  /** The id of `s` that sorts first. */
  function Newest(posts: Table<Post>, s: set<nat>): (m: nat)
    requires s != {} && s <= posts.rows.Keys
    ensures m in s && forall k :: k in s && k != m ==> Precedes(posts, m, k)
    decreases s
  {
    var x := Least(s);
    var rest := s - {x};
    assert forall k :: k in s ==> k == x || k in rest;
    if rest == {} then x
    else
      var y := Newest(posts, rest);
      PrecedesOrder(posts, x, y, y);
      if Precedes(posts, x, y) then
        assert forall k :: k in rest && k != y ==> Precedes(posts, x, k) by {
          forall k | k in rest && k != y ensures Precedes(posts, x, k) {
            PrecedesOrder(posts, x, y, k);
          }
        }
        x
      else
        y
  }

  /** The first `n` ids of `s` in that order: as many as `s` has, up to
      `n`, sorted, and none left out that sorts before one kept. */
  function Latest(posts: Table<Post>, s: set<nat>, n: nat): (r: seq<nat>)
    requires s <= posts.rows.Keys
    ensures |r| == if |s| < n then |s| else n
    ensures forall i :: 0 <= i < |r| ==> r[i] in s
    ensures forall i, j :: 0 <= i < j < |r| ==> Precedes(posts, r[i], r[j])
    ensures forall k, i :: k in s && k !in r && 0 <= i < |r| ==> Precedes(posts, r[i], k)
    decreases n
  {
    if n == 0 || s == {} then []
    else
      var m := Newest(posts, s);
      [m] + Latest(posts, s - {m}, n - 1)
  }

  /** `SELECT * FROM posts WHERE category=$1 AND id != $2 ORDER BY
      created_at DESC LIMIT 4`, as ids, or nothing when the post has no
      category. */
  function Related(posts: Table<Post>, id: nat, p: Post): (r: seq<nat>)
    ensures !HasCategory(p) ==> r == []
    ensures |r| == if |Candidates(posts, id, p)| < 4 then |Candidates(posts, id, p)| else 4
    ensures forall i :: 0 <= i < |r| ==>
      r[i] in posts.rows && r[i] != id && posts.rows[r[i]].category == p.category
    ensures forall i, j :: 0 <= i < j < |r| ==> Precedes(posts, r[i], r[j])
    ensures forall k, i :: k in Candidates(posts, id, p) && k !in r && 0 <= i < |r| ==> Precedes(posts, r[i], k)
  {
    Latest(posts, Candidates(posts, id, p), 4)
  }

  /** The row with `views` one higher. */
  function Viewed(p: Post): (q: Post)
    ensures q.views == p.views + 1 && q.(views := p.views) == p
  {
    p.(views := p.views + 1)
  }

  /** The detail page: a slug nobody has answers `Post not found` and
      changes nothing; otherwise the first post with that slug gets one
      more view (and no other row changes), and the page shows the post
      as read before the update with its related posts. A failing lookup
      changes nothing; a failure after the update keeps the counted view
      and answers 500. */
  function ShowPost(posts: Table<Post>, slug: string, fault: Fault): (r: (Detail, Table<Post>))
    ensures fault == LookupFails ==> r == (LoadFailed, posts)
    ensures FindFirst(posts, p => HasSlug(slug, p)).None? && fault != LookupFails ==> r == (NotFound, posts)
    ensures r.1.rows.Keys == posts.rows.Keys && r.1.nextId == posts.nextId
    ensures fault != LookupFails && FindFirst(posts, p => HasSlug(slug, p)).Some? ==>
      var id := FindFirst(posts, p => HasSlug(slug, p)).value;
      && r.1.rows[id].views == posts.rows[id].views + 1
      && r.1.rows[id].(views := posts.rows[id].views) == posts.rows[id]
      && (forall k :: k in posts.rows && k != id ==> r.1.rows[k] == posts.rows[k])
      && (fault == NoFault ==> r.0 == Article(id, posts.rows[id], Related(posts, id, posts.rows[id])))
      && (fault == LaterQueryFails ==> r.0 == LoadFailed)
  {
    if fault == LookupFails then (LoadFailed, posts)
    else
      match FindFirst(posts, p => HasSlug(slug, p))
      case None => (NotFound, posts)
      case Some(id) =>
        var p := posts.rows[id];
        var posts' := Update(posts, id, Viewed(p));
        if fault == LaterQueryFails then (LoadFailed, posts')
        else (Article(id, p, Related(posts, id, p)), posts')
  }

  /** Opening the same article twice counts two views and nothing else. */
  lemma TwoVisits(posts: Table<Post>, slug: string)
    requires FindFirst(posts, p => HasSlug(slug, p)).Some?
    ensures var id := FindFirst(posts, p => HasSlug(slug, p)).value;
      var twice := ShowPost(ShowPost(posts, slug, NoFault).1, slug, NoFault).1;
      && twice.rows.Keys == posts.rows.Keys
      && twice.rows[id].views == posts.rows[id].views + 2
      && (forall k :: k in posts.rows && k != id ==> twice.rows[k] == posts.rows[k])
  {
    var id := FindFirst(posts, p => HasSlug(slug, p)).value;
    var once := ShowPost(posts, slug, NoFault).1;
    assert forall k :: k in once.rows ==> once.rows[k].slug == posts.rows[k].slug;
    assert FindFirst(once, p => HasSlug(slug, p)) == Some(id);
  }

  /** The post itself is never among its related posts. */
  lemma NotRelatedToItself(posts: Table<Post>, slug: string)
    requires ShowPost(posts, slug, NoFault).0.Article?
    ensures var a := ShowPost(posts, slug, NoFault).0; a.id !in a.related
  {
  }
}
