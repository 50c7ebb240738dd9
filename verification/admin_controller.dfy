/** Article writes of the admin panel (controllers/adminController.js):
    add, edit page, update and delete over the posts table. */
module AdminController {
  import opened Wrappers
  import opened Records
  import opened Store

  /** The submitted article form. */
  datatype ArticleForm = ArticleForm(title: string, subtitle: string, content: string,
                                     category: Option<string>, tags: Option<string>)

  /** The row `addPost` inserts: the uploaded image or none, the session
      user as author, the slug of the title, created now. The statement
      names no `views` column, so the row takes the column's default,
      which the model takes to be 0 (the schema is not part of this
      model). */
  function NewArticle(form: ArticleForm, file: Option<string>, author: SessionUser,
                      slugify: string -> string, now: int): Post {
    Post(form.title, form.subtitle, form.content, UploadedImage(file), Some(author.id), None,
         form.category, form.tags, slugify(form.title), 0, Some(now), None)
  }

  /** `addPost`: stores the new row and goes to the dashboard; the author
      is always the logged-in user, whatever the form says. A storage
      fault sends its text and stores nothing. `slugify` is the slug
      library and `now` the database clock. */
  function AddPost(posts: Table<Post>, form: ArticleForm, file: Option<string>, author: SessionUser,
                   slugify: string -> string, now: int, fault: bool): (r: (Response, Table<Post>))
    ensures fault ==> r == (Reply("Error adding post"), posts)
    ensures !fault ==> r.0 == Redirect("/admin/dashboard")
    ensures !fault ==> posts.nextId in r.1.rows && r.1 == Insert(posts, r.1.rows[posts.nextId])
    ensures !fault ==>
      var p := r.1.rows[posts.nextId];
      && p.authorId == Some(author.id) && p.author.None?
      && (file.Some? ==> p.image == Some("/uploads/" + file.value)) && (file.None? ==> p.image.None?)
      && p.slug == slugify(form.title) && p.views == 0 && p.createdAt == Some(now)
      && p.title == form.title && p.subtitle == form.subtitle && p.content == form.content
      && p.category == form.category && p.tags == form.tags
  {
    if fault then (Reply("Error adding post"), posts)
    else (Redirect("/admin/dashboard"), Insert(posts, NewArticle(form, file, author, slugify, now)))
  }

  /** The edit form's row: the post and the username of its author, when
      the author row exists (`LEFT JOIN users`). */
  datatype PostWithAuthor = PostWithAuthor(post: Post, authorName: Option<string>)

  function AuthorName(users: Table<User>, authorId: Option<nat>): (name: Option<string>)
    ensures name.Some? <==> authorId.Some? && authorId.value in users.rows
    ensures name.Some? ==> name.value == users.rows[authorId.value].username
  {
    if authorId.Some? && authorId.value in users.rows then Some(users.rows[authorId.value].username) else None
  }

  /** `editPage`: the form for the post with that id, or `Post not found`;
      a storage fault answers with its own text. */
  function EditArticlePage(posts: Table<Post>, users: Table<User>, id: nat, fault: bool): (r: EditPage<PostWithAuthor>)
    ensures r.Form? <==> !fault && id in posts.rows
    ensures r.Form? ==> r.view == "admin/edit-post" && r.item.post == posts.rows[id]
    ensures r.Form? ==> r.item.authorName == AuthorName(users, posts.rows[id].authorId)
    ensures r.Other? ==> r.response == Reply(if fault then "Error loading post" else "Post not found")
  {
    var found := match Lookup(posts, id)
      case None => None
      case Some(p) => Some(PostWithAuthor(p, AuthorName(users, p.authorId)));
    ShowForm(found, "admin/edit-post", "Post not found", "Error loading post", fault)
  }

  /** The edit page of a post just added names the logged-in user as its
      author, when that user's row still exists. */
  lemma AddedPostShowsAuthor(posts: Table<Post>, users: Table<User>, form: ArticleForm, file: Option<string>,
                             author: SessionUser, slugify: string -> string, now: int)
    requires author.id in users.rows
    ensures var added := AddPost(posts, form, file, author, slugify, now, false).1;
      var page := EditArticlePage(added, users, posts.nextId, false);
      page.Form? && page.item.authorName == Some(users.rows[author.id].username)
  {
  }

  /** The row after an update: the form's fields, the new image only
      when a file came with the form, updated now; author, slug, views
      and creation time as they were. */
  function Revised(p: Post, form: ArticleForm, file: Option<string>, now: int): Post {
    p.(title := form.title, subtitle := form.subtitle, content := form.content,
       image := if file.Some? then UploadedImage(file) else p.image,
       category := form.category, tags := form.tags, updatedAt := Some(now))
  }

  /** `updatePost`: the row with that id is revised (the slug is not
      recomputed from the new title); no other row changes, and an
      absent id changes nothing. A storage fault sends its text. */
  function UpdatePost(posts: Table<Post>, id: nat, form: ArticleForm, file: Option<string>, now: int, fault: bool)
    : (r: (Response, Table<Post>))
    ensures fault ==> r == (Reply("Error updating post"), posts)
    ensures !fault ==> r.0 == Redirect("/admin/dashboard")
    ensures r.1.rows.Keys == posts.rows.Keys && r.1.nextId == posts.nextId
    ensures forall k :: k in posts.rows && k != id ==> r.1.rows[k] == posts.rows[k]
    ensures !fault && id in posts.rows ==>
      var before, after := posts.rows[id], r.1.rows[id];
      && after.authorId == before.authorId && after.author == before.author && after.slug == before.slug
      && after.views == before.views && after.createdAt == before.createdAt && after.updatedAt == Some(now)
      && after.title == form.title && after.subtitle == form.subtitle && after.content == form.content
      && after.category == form.category && after.tags == form.tags
      && after.image == (if file.Some? then Some("/uploads/" + file.value) else before.image)
  {
    if fault then (Reply("Error updating post"), posts)
    else if id in posts.rows then (Redirect("/admin/dashboard"), Update(posts, id, Revised(posts.rows[id], form, file, now)))
    else (Redirect("/admin/dashboard"), posts)
  }

  /** Re-submitting the same form without a file changes nothing but the
      update time. */
  lemma UpdateIdempotent(posts: Table<Post>, id: nat, form: ArticleForm, now1: int, now2: int)
    requires id in posts.rows
    ensures var once := UpdatePost(posts, id, form, None, now1, false).1;
      UpdatePost(once, id, form, None, now2, false).1 == UpdatePost(posts, id, form, None, now2, false).1
  {
  }

  /** `deletePost`: only the row with that id goes; a storage fault sends
      its text and changes nothing. */
  function DeletePost(posts: Table<Post>, id: nat, fault: bool): (r: (Response, Table<Post>))
    ensures fault ==> r == (Reply("Error deleting post"), posts)
    ensures !fault ==> r.0 == Redirect("/admin/dashboard")
    ensures !fault ==> id !in r.1.rows && forall k :: k != id && k in posts.rows ==> k in r.1.rows && r.1.rows[k] == posts.rows[k]
    ensures r.1.rows.Keys <= posts.rows.Keys
  {
    if fault then (Reply("Error deleting post"), posts) else (Redirect("/admin/dashboard"), Delete(posts, id))
  }
}
