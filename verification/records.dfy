/** The rows, session data and responses the handlers work with. */
module Records {
  import opened Wrappers
  import opened Crypto

  /** A row of `users`. */
  datatype User = User(username: string, password: Digest, role: Option<string>, namaLengkap: Option<string>)

  /** `req.session.user` after a login: the row's id, username, role and
      full name, never the password digest. */
  datatype SessionUser = SessionUser(id: nat, username: string, role: Option<string>, namaLengkap: Option<string>)

  /** A row of `posts`. `createdAt` and `updatedAt` are `None` where the
      column holds NULL; a creation time the database fills in from its
      clock is `Some` of that clock's value. */
  datatype Post = Post(
    title: string,
    subtitle: string,
    content: string,
    image: Option<string>,
    authorId: Option<nat>,
    author: Option<string>,
    category: Option<string>,
    tags: Option<string>,
    slug: string,
    views: nat,
    createdAt: Option<int>,
    updatedAt: Option<int>)

  /** What a handler sends back. `NoResponse` is a handler whose promise
      rejects without a `catch`: the handler rejects without answering.
      What the server does next is outside this model. */
  datatype Response =
    | Redirect(location: string)
    | Render(view: string, error: Option<string>)
    | Send(status: nat, body: string)
    | NoResponse

  /** `res.send(body)`, which answers with status 200. */
  function Reply(body: string): (r: Response)
    ensures r.Send? && r.status == 200 && r.body == body
  {
    Send(200, body)
  }

  /** An edit page: the form filled with a row, or another response. */
  datatype EditPage<T> = Form(view: string, item: T) | Other(response: Response)

  /** How every edit-page handler answers: the `failed` text when the
      lookup throws, the `missing` text when it finds no row, otherwise
      the `view` filled with the row. */
  function ShowForm<T>(found: Option<T>, view: string, missing: string, failed: string, fault: bool)
    : (r: EditPage<T>)
    ensures r.Form? <==> !fault && found.Some?
    ensures r.Form? ==> r.view == view && r.item == found.value
    ensures r.Other? ==> r.response == Reply(if fault then failed else missing)
  {
    if fault then Other(Reply(failed))
    else if found.None? then Other(Reply(missing))
    else Form(view, found.value)
  }

  /** The public path of an uploaded file, or `null` without one. */
  function UploadedImage(file: Option<string>): (image: Option<string>)
    ensures image.Some? <==> file.Some?
    ensures file.Some? ==> image.value == "/uploads/" + file.value
  {
    match file
    case None => None
    case Some(name) => Some("/uploads/" + name)
  }
}
