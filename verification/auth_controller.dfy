/** Login, registration and logout (controllers/authController.js). */
module AuthController {
  import opened Wrappers
  import opened Crypto
  import opened Records
  import opened Store
  import opened Gate

  const BadCredentials := "Username atau password salah"
  const NameTaken := "Username sudah digunakan"
  const ServerError := "Terjadi kesalahan server"

  /** The submitted login form; a missing password field is `None`. */
  datatype LoginForm = LoginForm(username: string, password: Option<string>)

  /** The response, and the session user after the request. */
  datatype AuthResult = AuthResult(response: Response, session: Option<SessionUser>)

  function LoginView(error: string): Response {
    Render("login", Some(error))
  }

  predicate Named(name: string, u: User) {
    u.username == name
  }

  /** The row `SELECT * FROM users WHERE username = $1` yields first. */
  function FindUser(users: Table<User>, name: string): (r: Option<nat>)
    ensures r.None? <==> forall id :: id in users.rows ==> users.rows[id].username != name
    ensures r.Some? ==> r.value in users.rows && users.rows[r.value].username == name
  {
    FindFirst(users, u => Named(name, u))
  }

  /** The session data taken from a user row. */
  function SessionOf(id: nat, u: User): SessionUser {
    SessionUser(id, u.username, u.role, u.namaLengkap)
  }

  /** `login`: an unknown username and a wrong password both render the
      same error and leave the session as it was; a match stores the
      row's id, username, role and full name in the session and goes to
      the dashboard. A storage fault, or a missing password (bcrypt
      rejects it), renders the server error. */
  function Login(users: Table<User>, form: LoginForm, session: Option<SessionUser>, fault: bool): (r: AuthResult)
    ensures r.session != session ==> r.response == Redirect("/admin/dashboard")
    ensures r.response == Redirect("/admin/dashboard") <==>
      !fault && FindUser(users, form.username).Some? && form.password.Some?
      && Compare(form.password.value, users.rows[FindUser(users, form.username).value].password)
    ensures r.response == Redirect("/admin/dashboard") ==>
      var id := FindUser(users, form.username).value;
      r.session == Some(SessionUser(id, form.username, users.rows[id].role, users.rows[id].namaLengkap))
    ensures r.response != Redirect("/admin/dashboard") ==>
      r.response == LoginView(if fault || (FindUser(users, form.username).Some? && form.password.None?)
                              then ServerError else BadCredentials)
  {
    if fault then AuthResult(LoginView(ServerError), session)
    else
      match FindUser(users, form.username)
      case None => AuthResult(LoginView(BadCredentials), session)
      case Some(id) =>
        var u := users.rows[id];
        if form.password.None? then AuthResult(LoginView(ServerError), session)
        else if !Compare(form.password.value, u.password) then AuthResult(LoginView(BadCredentials), session)
        else AuthResult(Redirect("/admin/dashboard"), Some(SessionOf(id, u)))
  }

  /** An unknown username and a wrong password cannot be told apart. */
  lemma FailuresAlike(users: Table<User>, other: Table<User>, form: LoginForm, session: Option<SessionUser>)
    requires FindUser(users, form.username).None?
    requires FindUser(other, form.username).Some? && form.password.Some?
    requires !Compare(form.password.value, other.rows[FindUser(other, form.username).value].password)
    ensures Login(users, form, session, false) == Login(other, form, session, false)
    ensures Login(users, form, session, false) == AuthResult(LoginView(BadCredentials), session)
  {
  }

  /** The submitted registration form. */
  datatype RegisterForm = RegisterForm(username: string, password: Option<string>, role: Option<string>, namaLengkap: Option<string>)

  /** `register`: a taken username renders its error and stores nothing;
      otherwise the row is stored with the digest of the password (never
      the password) and the role as submitted, and the browser goes to
      the login page. A storage fault, or a missing password, renders the
      server error and stores nothing. */
  function Register(users: Table<User>, form: RegisterForm, salt: nat, fault: bool): (r: (Response, Table<User>))
    ensures r.0 == Redirect("/login") <==> !fault && FindUser(users, form.username).None? && form.password.Some?
    ensures r.0 != Redirect("/login") ==> r.1 == users
    ensures r.0 != Redirect("/login") ==>
      r.0 == Render("register", Some(if !fault && FindUser(users, form.username).Some? then NameTaken else ServerError))
    ensures r.0 == Redirect("/login") ==>
      r.1 == Insert(users, User(form.username, Hash(form.password.value, salt), form.role, form.namaLengkap))
  {
    if fault then (Render("register", Some(ServerError)), users)
    else if FindUser(users, form.username).Some? then (Render("register", Some(NameTaken)), users)
    else if form.password.None? then (Render("register", Some(ServerError)), users)
    else (Redirect("/login"), Insert(users, User(form.username, Hash(form.password.value, salt), form.role, form.namaLengkap)))
  }

  /** Registering and then logging in with the same credentials succeeds,
      and the session holds the new row. */
  lemma RegisterThenLogin(users: Table<User>, form: RegisterForm, salt: nat, session: Option<SessionUser>)
    requires Valid(users)
    requires Register(users, form, salt, false).0 == Redirect("/login")
    ensures var users' := Register(users, form, salt, false).1;
      Login(users', LoginForm(form.username, form.password), session, false)
        == AuthResult(Redirect("/admin/dashboard"),
                      Some(SessionUser(users.nextId, form.username, form.role, form.namaLengkap)))
  {
    var users' := Register(users, form, salt, false).1;
    var u := User(form.username, Hash(form.password.value, salt), form.role, form.namaLengkap);
    assert users' == Insert(users, u);
    FindOnly(users', v => Named(form.username, v), users.nextId);
    CompareHash(form.password.value, form.password.value, salt);
  }

  /** Registering a taken username twice in a row stores it once. */
  lemma RegisterTwice(users: Table<User>, form: RegisterForm, salt1: nat, salt2: nat)
    requires Register(users, form, salt1, false).0 == Redirect("/login")
    ensures var users' := Register(users, form, salt1, false).1;
      Register(users', form, salt2, false) == (Render("register", Some(NameTaken)), users')
  {
    var users' := Register(users, form, salt1, false).1;
    assert users'.rows[users.nextId].username == form.username;
  }

  /** `logout`: the session is destroyed and the browser goes to the login
      page, after which every guarded route sends it there again. */
  function Logout(session: Option<SessionUser>): (r: AuthResult)
    ensures r.session.None? && r.response == Redirect("/login")
    ensures RequireLogin(r.session) == ToLogin
  {
    AuthResult(Redirect("/login"), None)
  }
}
