/** The route tables: the admin router of routes/admin.js, mounted at
    `/admin`, and the article router of routes/posts.js, mounted at
    `/api/posts`, each route with its middleware chain. */
module Routes {
  import opened Wrappers
  import opened Records
  import opened Gate

  datatype Verb = Get | PostVerb

  datatype Endpoint =
    // routes/admin.js
    | Dashboard | Articles | AddPage | AddPost | EditPage | UpdatePost | DeletePost | ArticlesList
    | Users | UsersAddPage | UsersAdd | UsersDelete | UsersEditPage | UsersUpdate
    // routes/posts.js
    | ApiDashboard | ApiAddPage | ApiAdd | ApiEditPage | ApiUpdate | ApiDelete

  predicate IsAdmin(e: Endpoint) {
    !(e.ApiDashboard? || e.ApiAddPage? || e.ApiAdd? || e.ApiEditPage? || e.ApiUpdate? || e.ApiDelete?)
  }

  function VerbOf(e: Endpoint): Verb {
    if e.AddPost? || e.UpdatePost? || e.UsersAdd? || e.UsersUpdate? || e.ApiAdd? || e.ApiUpdate?
    then PostVerb else Get
  }

  function PathOf(e: Endpoint): string {
    match e
    case Dashboard => "/admin/dashboard"
    case Articles => "/admin/articles"
    case AddPage | AddPost => "/admin/add"
    case EditPage | UpdatePost => "/admin/edit/:id"
    case DeletePost => "/admin/delete/:id"
    case ArticlesList => "/admin/articles-list"
    case Users => "/admin/users"
    case UsersAddPage | UsersAdd => "/admin/users/add"
    case UsersDelete => "/admin/users/delete/:id"
    case UsersEditPage | UsersUpdate => "/admin/users/edit/:id"
    case ApiDashboard => "/api/posts/dashboard"
    case ApiAddPage | ApiAdd => "/api/posts/add"
    case ApiEditPage | ApiUpdate => "/api/posts/edit/:id"
    case ApiDelete => "/api/posts/delete/:id"
  }

  const Writers := ["superadmin", "admin", "penulis"]
  const Editors := ["superadmin", "admin"]
  const Owners := ["superadmin"]

  /** The middleware chain each route is registered with, in order. */
  function Chain(e: Endpoint): seq<Stage> {
    match e
    case Dashboard => [Login, Handler]
    case Articles | AddPage | EditPage | ArticlesList => [Login, Roles(Writers), Handler]
    case AddPost | UpdatePost => [Login, Roles(Writers), Upload, Handler]
    case DeletePost => [Login, Roles(Editors), Handler]
    case Users | UsersAddPage | UsersAdd | UsersDelete | UsersEditPage | UsersUpdate =>
      [Login, Roles(Owners), Handler]
    case ApiDashboard | ApiAddPage | ApiEditPage | ApiDelete => [Login, Handler]
    case ApiAdd | ApiUpdate => [Login, Upload, Handler]
  }

  // ---------------------------------------------------------------------
  // The access policy, stated independently of the chains.

  datatype Role = Superadmin | Admin | Penulis

  function RoleName(r: Role): string {
    match r
    case Superadmin => "superadmin"
    case Admin => "admin"
    case Penulis => "penulis"
  }

  /** The roles a route admits; `None` for routes open to any session. */
  function Policy(e: Endpoint): Option<set<Role>> {
    if e.Dashboard? || !IsAdmin(e) then None
    else if e.DeletePost? then Some({Superadmin, Admin})
    else if e.Users? || e.UsersAddPage? || e.UsersAdd? || e.UsersDelete? || e.UsersEditPage? || e.UsersUpdate?
    then Some({Superadmin})
    else Some({Superadmin, Admin, Penulis})
  }

  /** The session user holds one of the roles. */
  predicate Holds(user: SessionUser, roles: set<Role>) {
    exists r :: r in roles && user.role == Some(RoleName(r))
  }

  /** What the policy says about a request. */
  function Expected(e: Endpoint, user: Option<SessionUser>): Outcome {
    if user.None? then Refused(ToLogin, false)
    else if Policy(e).Some? && !Holds(user.value, Policy(e).value) then Refused(Forbidden, false)
    else Reached(TakesUpload(e))
  }

  /** The routes that accept an image upload. */
  predicate TakesUpload(e: Endpoint) {
    e.AddPost? || e.UpdatePost? || e.ApiAdd? || e.ApiUpdate?
  }

  lemma HasRoleWriters(user: SessionUser)
    ensures HasRole(user, Writers) <==> Holds(user, {Superadmin, Admin, Penulis})
  {
    if HasRole(user, Writers) {
      var name := user.role.value;
      assert name == "superadmin" || name == "admin" || name == "penulis";
      if name == "superadmin" { assert RoleName(Superadmin) == name; }
      else if name == "admin" { assert RoleName(Admin) == name; }
      else { assert RoleName(Penulis) == name; }
    }
  }

  lemma HasRoleEditors(user: SessionUser)
    ensures HasRole(user, Editors) <==> Holds(user, {Superadmin, Admin})
  {
    if HasRole(user, Editors) {
      var name := user.role.value;
      if name == "superadmin" { assert RoleName(Superadmin) == name; }
      else { assert RoleName(Admin) == name; }
    }
  }

  lemma HasRoleOwners(user: SessionUser)
    ensures HasRole(user, Owners) <==> Holds(user, {Superadmin})
  {
    if HasRole(user, Owners) {
      assert RoleName(Superadmin) == user.role.value;
    }
  }

  /** Every route, run for any request, ends exactly where the policy
      says: the login page without a session, 403 for a session without
      an admitted role, the handler otherwise; and the upload runs only
      on the way to the handler. */
  lemma ChainsFollowPolicy(e: Endpoint, user: Option<SessionUser>)
    ensures Run(Chain(e), user, false) == Expected(e, user)
  {
    if !IsAdmin(e) || e.Dashboard? {
      SessionOnlyFollow(e, user);
    } else if e.DeletePost? {
      RunWithRoles(Editors, user);
      if user.Some? { HasRoleEditors(user.value); }
    } else if Policy(e) == Some({Superadmin}) {
      OwnersFollow(e, user);
    } else {
      WritersFollow(e, user);
    }
  }

  lemma SessionOnlyFollow(e: Endpoint, user: Option<SessionUser>)
    requires !IsAdmin(e) || e.Dashboard?
    ensures Run(Chain(e), user, false) == Expected(e, user)
  {
    if TakesUpload(e) {
      RunSessionUpload(user);
    } else {
      RunSessionOnly(user);
    }
  }

  lemma OwnersFollow(e: Endpoint, user: Option<SessionUser>)
    requires e.Users? || e.UsersAddPage? || e.UsersAdd? || e.UsersDelete? || e.UsersEditPage? || e.UsersUpdate?
    ensures Run(Chain(e), user, false) == Expected(e, user)
  {
    assert Policy(e) == Some({Superadmin});
    assert Chain(e) == [Login, Roles(Owners), Handler];
    RunWithRoles(Owners, user);
    if user.Some? { HasRoleOwners(user.value); }
  }

  lemma WritersFollow(e: Endpoint, user: Option<SessionUser>)
    requires e.Articles? || e.AddPage? || e.EditPage? || e.ArticlesList? || e.AddPost? || e.UpdatePost?
    ensures Run(Chain(e), user, false) == Expected(e, user)
  {
    assert Policy(e) == Some({Superadmin, Admin, Penulis});
    if user.Some? { HasRoleWriters(user.value); }
    if TakesUpload(e) {
      assert Chain(e) == [Login, Roles(Writers), Upload, Handler];
      RunWithRolesUpload(Writers, user);
    } else {
      assert Chain(e) == [Login, Roles(Writers), Handler];
      RunWithRoles(Writers, user);
    }
  }

  lemma RunSessionOnly(user: Option<SessionUser>)
    ensures Run([Login, Handler], user, false) == if user.None? then Refused(ToLogin, false) else Reached(false)
  {
    assert [Login, Handler][1..] == [Handler];
  }

  lemma RunSessionUpload(user: Option<SessionUser>)
    ensures Run([Login, Upload, Handler], user, false) == if user.None? then Refused(ToLogin, false) else Reached(true)
  {
    assert [Login, Upload, Handler][1..] == [Upload, Handler];
    assert [Upload, Handler][1..] == [Handler];
    assert Run([Upload, Handler], user, false) == Reached(true);
  }

  lemma RunWithRoles(roles: seq<string>, user: Option<SessionUser>)
    ensures Run([Login, Roles(roles), Handler], user, false) ==
      if user.None? then Refused(ToLogin, false)
      else if !HasRole(user.value, roles) then Refused(Forbidden, false)
      else Reached(false)
  {
    assert [Login, Roles(roles), Handler][1..] == [Roles(roles), Handler];
    assert [Roles(roles), Handler][1..] == [Handler];
    assert Run([Handler], user, false) == Reached(false);
    if user.Some? {
      assert Run([Roles(roles), Handler], user, false) ==
        if HasRole(user.value, roles) then Reached(false) else Refused(Forbidden, false);
    }
  }

  lemma RunWithRolesUpload(roles: seq<string>, user: Option<SessionUser>)
    ensures Run([Login, Roles(roles), Upload, Handler], user, false) ==
      if user.None? then Refused(ToLogin, false)
      else if !HasRole(user.value, roles) then Refused(Forbidden, false)
      else Reached(true)
  {
    assert [Login, Roles(roles), Upload, Handler][1..] == [Roles(roles), Upload, Handler];
    assert [Roles(roles), Upload, Handler][1..] == [Upload, Handler];
    assert [Upload, Handler][1..] == [Handler];
    assert Run([Upload, Handler], user, false) == Reached(true);
    if user.Some? {
      assert Run([Roles(roles), Upload, Handler], user, false) ==
        if HasRole(user.value, roles) then Reached(true) else Refused(Forbidden, false);
    }
  }

  /** Every route checks for a session before anything else. */
  lemma LoginFirst(e: Endpoint)
    ensures Chain(e) != [] && Chain(e)[0] == Login
  {
  }

  /** On both routers the upload stage comes after every access check. */
  lemma UploadAfterChecks(e: Endpoint, i: nat, j: nat)
    requires i < j < |Chain(e)| && Chain(e)[j].Upload?
    ensures Chain(e)[i].Login? || Chain(e)[i].Roles?
  {
    match e
    case AddPost | UpdatePost => assert j == 2;
    case ApiAdd | ApiUpdate => assert j == 1;
    case _ =>
  }

  /** A refused request never stores an upload. */
  lemma RefusedBeforeUpload(e: Endpoint, user: Option<SessionUser>)
    ensures Run(Chain(e), user, false).Refused? ==> !Run(Chain(e), user, false).uploaded
  {
    ChainsFollowPolicy(e, user);
  }

  /** A `penulis` session is refused the admin delete route, while the
      article router's delete route, guarded by a session check only,
      lets it through. */
  lemma PenulisDeletes(user: SessionUser)
    requires user.role == Some("penulis")
    ensures Run(Chain(DeletePost), Some(user), false) == Refused(Forbidden, false)
    ensures Run(Chain(ApiDelete), Some(user), false) == Reached(false)
  {
  }

  /** The user-management routes admit `superadmin` only. */
  lemma UsersOwnersOnly(e: Endpoint, user: SessionUser)
    requires e.Users? || e.UsersAddPage? || e.UsersAdd? || e.UsersDelete? || e.UsersEditPage? || e.UsersUpdate?
    ensures Run(Chain(e), Some(user), false).Reached? <==> user.role == Some("superadmin")
  {
    ChainsFollowPolicy(e, Some(user));
    HasRoleOwners(user);
  }
}
