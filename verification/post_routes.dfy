/** The article router (routes/posts.js, mounted at `/api/posts`): its
    own session guard and its add and edit handlers, which take the
    author's name from the form. Its delete handler is the admin panel's
    (`AdminController.DeletePost`). */
module PostRoutes {
  import opened Wrappers
  import opened Records
  import opened Store
  import opened Gate
  import AdminController

  /** The local `auth` guard. */
  function Auth(user: Option<SessionUser>): (d: Decision)
    ensures d == ToLogin <==> user.None?
    ensures d == Next <==> user.Some?
  {
    if user.Some? then Next else ToLogin
  }

  /** It decides as `requireLogin` does, for every request. */
  lemma AuthIsRequireLogin(user: Option<SessionUser>)
    ensures Auth(user) == RequireLogin(user)
  {
  }

  /** The form of this router, with a free-text author. */
  datatype PostForm = PostForm(title: string, subtitle: string, content: string, author: string,
                               category: Option<string>, tags: Option<string>)

  /** Add: stores the form with the author as typed, no author id, the
      uploaded image or none, and the slug of the title. The statement
      names neither `views` nor `created_at`, so both take their column
      defaults: `now` is the database clock the creation-time default
      reads (`DEFAULT CURRENT_TIMESTAMP`), and 0 is the model's choice for
      the views default (the schema is not part of this model). A storage
      fault sends its text and stores nothing. */
  function Add(posts: Table<Post>, form: PostForm, file: Option<string>, slugify: string -> string,
               now: int, fault: bool)
    : (r: (Response, Table<Post>))
    ensures fault ==> r == (Reply("Error adding post"), posts)
    ensures !fault ==> r.0 == Redirect("/admin/dashboard")
    ensures !fault ==> posts.nextId in r.1.rows && r.1 == Insert(posts, r.1.rows[posts.nextId])
    ensures !fault ==>
      var p := r.1.rows[posts.nextId];
      && p.author == Some(form.author) && p.authorId.None? && p.createdAt == Some(now)
      && p.image == UploadedImage(file) && p.slug == slugify(form.title) && p.views == 0
      && p.title == form.title && p.subtitle == form.subtitle && p.content == form.content
      && p.category == form.category && p.tags == form.tags
  {
    if fault then (Reply("Error adding post"), posts)
    else
      var p := Post(form.title, form.subtitle, form.content, UploadedImage(file), None, Some(form.author),
                    form.category, form.tags, slugify(form.title), 0, Some(now), None);
      (Redirect("/admin/dashboard"), Insert(posts, p))
  }

  /** Edit page: the form for the post with that id, or `Post not found`;
      a storage fault answers with its own text. */
  function EditPage(posts: Table<Post>, id: nat, fault: bool): (r: Records.EditPage<Post>)
    ensures r.Form? <==> !fault && id in posts.rows
    ensures r.Form? ==> r.view == "admin/edit-post" && r.item == posts.rows[id]
    ensures r.Other? ==> r.response == Reply(if fault then "Error fetching post" else "Post not found")
  {
    ShowForm(Lookup(posts, id), "admin/edit-post", "Post not found", "Error fetching post", fault)
  }

  /** Edit: the row with that id takes the form's fields, the author as
      typed, and the new image only when a file came with the form; the
      slug, views, author id and timestamps stay. A storage fault sends
      its text. */
  function Update(posts: Table<Post>, id: nat, form: PostForm, file: Option<string>, fault: bool)
    : (r: (Response, Table<Post>))
    ensures fault ==> r == (Reply("Error updating post"), posts)
    ensures !fault ==> r.0 == Redirect("/admin/dashboard")
    ensures r.1.rows.Keys == posts.rows.Keys && r.1.nextId == posts.nextId
    ensures forall k :: k in posts.rows && k != id ==> r.1.rows[k] == posts.rows[k]
    ensures !fault && id in posts.rows ==>
      var before, after := posts.rows[id], r.1.rows[id];
      && after.title == form.title && after.subtitle == form.subtitle && after.content == form.content
      && after.author == Some(form.author) && after.category == form.category && after.tags == form.tags
      && after.image == (if file.Some? then UploadedImage(file) else before.image)
      && after.slug == before.slug && after.views == before.views && after.authorId == before.authorId
      && after.createdAt == before.createdAt && after.updatedAt == before.updatedAt
  {
    if fault then (Reply("Error updating post"), posts)
    else if id !in posts.rows then (Redirect("/admin/dashboard"), posts)
    else
      var p := posts.rows[id];
      var p' := p.(title := form.title, subtitle := form.subtitle, content := form.content,
                   image := if file.Some? then UploadedImage(file) else p.image,
                   author := Some(form.author), category := form.category, tags := form.tags);
      (Redirect("/admin/dashboard"), Store.Update(posts, id, p'))
  }

  /** Adding a post and deleting it again leaves the rows as they were.
      The delete handler runs the same statement and answers as the admin
      panel's `deletePost`, so it is `AdminController.DeletePost`. */
  lemma AddThenRemove(posts: Table<Post>, form: PostForm, file: Option<string>, slugify: string -> string, now: int)
    requires Valid(posts)
    ensures var added := Add(posts, form, file, slugify, now, false).1;
      AdminController.DeletePost(added, posts.nextId, false).1.rows == posts.rows
  {
  }

  /** The edit page of a post just added shows the row as added. */
  lemma AddThenEditPage(posts: Table<Post>, form: PostForm, file: Option<string>, slugify: string -> string, now: int)
    ensures var page := EditPage(Add(posts, form, file, slugify, now, false).1, posts.nextId, false);
      && page.Form? && page.view == "admin/edit-post"
      && page.item.title == form.title && page.item.subtitle == form.subtitle && page.item.content == form.content
      && page.item.author == Some(form.author) && page.item.category == form.category && page.item.tags == form.tags
      && page.item.image == UploadedImage(file) && page.item.slug == slugify(form.title)
      && page.item.createdAt == Some(now)
  {
  }

  /** After an edit, the edit page of that post shows the submitted
      fields, the new image when a file came with the form, and the slug
      it had before. */
  lemma UpdateThenEditPage(posts: Table<Post>, id: nat, form: PostForm, file: Option<string>)
    requires id in posts.rows
    ensures var page := EditPage(Update(posts, id, form, file, false).1, id, false);
      && page.Form? && page.view == "admin/edit-post"
      && page.item.title == form.title && page.item.subtitle == form.subtitle && page.item.content == form.content
      && page.item.author == Some(form.author) && page.item.category == form.category && page.item.tags == form.tags
      && page.item.image == (if file.Some? then UploadedImage(file) else posts.rows[id].image)
      && page.item.slug == posts.rows[id].slug
  {
  }

  /** Submitting the same edit twice leaves the table as submitting it
      once does. */
  lemma UpdateIdempotent(posts: Table<Post>, id: nat, form: PostForm, file: Option<string>)
    ensures var once := Update(posts, id, form, file, false).1;
      Update(once, id, form, file, false) == Update(posts, id, form, file, false)
  {
    var once := Update(posts, id, form, file, false).1;
    if id in posts.rows {
      var p := once.rows[id];
      assert p.(title := form.title, subtitle := form.subtitle, content := form.content,
                image := if file.Some? then UploadedImage(file) else p.image,
                author := Some(form.author), category := form.category, tags := form.tags) == p;
      assert once.rows[id := p] == once.rows;
    }
  }
}
