/** User management for superadmins (controllers/userController.js). */
module UserController {
  import opened Wrappers
  import opened Text
  import opened Crypto
  import opened Records
  import opened Store
  import AuthController

  /** The add-user form; a missing password field is `None`. */
  datatype NewUser = NewUser(username: string, password: Option<string>, namaLengkap: Option<string>, role: Option<string>)

  /** `addUser`: the row is stored with the password's digest, whether
      or not the username is taken, and the browser goes back to the user
      list. The handler has no `catch`: a missing password (bcrypt rejects
      it) or a storage fault makes the handler reject without answering, and stores
      nothing. */
  function AddUser(users: Table<User>, form: NewUser, salt: nat, fault: bool): (r: (Response, Table<User>))
    ensures r.0 == Redirect("/admin/users") <==> !fault && form.password.Some?
    ensures r.0 != Redirect("/admin/users") ==> r.0 == NoResponse && r.1 == users
    ensures r.0 == Redirect("/admin/users") ==>
      r.1 == Insert(users, User(form.username, Hash(form.password.value, salt), form.role, form.namaLengkap))
  {
    if fault || form.password.None? then (NoResponse, users)
    else (Redirect("/admin/users"), Insert(users, User(form.username, Hash(form.password.value, salt), form.role, form.namaLengkap)))
  }

  /** Unlike registration, adding a user whose name is taken stores a
      second row with that name. */
  lemma AddUserDuplicates(users: Table<User>, form: NewUser, salt: nat)
    requires Valid(users) && form.password.Some?
    requires AuthController.FindUser(users, form.username).Some?
    ensures var users' := AddUser(users, form, salt, false).1;
      var old_ := AuthController.FindUser(users, form.username).value;
      old_ in users'.rows && users.nextId in users'.rows && old_ != users.nextId
      && users'.rows[old_].username == form.username && users'.rows[users.nextId].username == form.username
  {
  }

  /** `deleteUser`: only the row with that id goes. Without a `catch`, a
      storage fault makes the handler reject without answering. */
  function DeleteUser(users: Table<User>, id: nat, fault: bool): (r: (Response, Table<User>))
    ensures fault ==> r == (NoResponse, users)
    ensures !fault ==> r.0 == Redirect("/admin/users")
    ensures !fault ==> id !in r.1.rows && forall k :: k != id && k in users.rows ==> k in r.1.rows && r.1.rows[k] == users.rows[k]
    ensures r.1.rows.Keys <= users.rows.Keys
  {
    if fault then (NoResponse, users) else (Redirect("/admin/users"), Delete(users, id))
  }

  /** Adding a user and deleting the id it was given leaves the table's
      rows as they were. */
  lemma AddThenDelete(users: Table<User>, form: NewUser, salt: nat)
    requires Valid(users) && form.password.Some?
    ensures var added := AddUser(users, form, salt, false).1;
      DeleteUser(added, users.nextId, false).1.rows == users.rows
  {
  }

  /** `editPage`: the form for the row with that id, or the not-found
      text; a storage fault answers with its own text. */
  function EditUserPage(users: Table<User>, id: nat, fault: bool): (r: EditPage<User>)
    ensures r.Form? <==> !fault && id in users.rows
    ensures r.Form? ==> r.view == "admin/edit-user" && r.item == users.rows[id]
    ensures r.Other? ==> r.response == Reply(if fault then "Error loading user" else "User tidak ditemukan")
  {
    ShowForm(Lookup(users, id), "admin/edit-user", "User tidak ditemukan", "Error loading user", fault)
  }

  /** The edit page of a user just added shows the row as added, its
      password as the digest. */
  lemma AddThenEditUserPage(users: Table<User>, form: NewUser, salt: nat)
    requires form.password.Some?
    ensures EditUserPage(AddUser(users, form, salt, false).1, users.nextId, false)
      == Form("admin/edit-user", User(form.username, Hash(form.password.value, salt), form.role, form.namaLengkap))
  {
  }

  /** The edit-user form; a missing password field is `None`. */
  datatype UserEdit = UserEdit(username: string, role: Option<string>, password: Option<string>)

  /** `password && password.trim() !== ''`. */
  predicate NewPassword(password: Option<string>) {
    password.Some? && Trim(password.value, JsWhitespace) != []
  }

  /** The row after the edit: username and role as submitted, the
      password replaced only by a new one, the full name kept. */
  function Edited(u: User, form: UserEdit, salt: nat): User {
    User(form.username, if NewPassword(form.password) then Hash(form.password.value, salt) else u.password,
         form.role, u.namaLengkap)
  }

  /** `updateUser`: the row with that id takes the submitted username and
      role, and a new password only when one with a non-blank character
      was typed; no other row, and no id, changes. A storage fault sends
      its text and changes nothing. */
  function UpdateUser(users: Table<User>, id: nat, form: UserEdit, salt: nat, fault: bool): (r: (Response, Table<User>))
    ensures fault ==> r == (Reply("Error updating user"), users)
    ensures !fault ==> r.0 == Redirect("/admin/users")
    ensures r.1.rows.Keys == users.rows.Keys && r.1.nextId == users.nextId
    ensures forall k :: k in users.rows && k != id ==> r.1.rows[k] == users.rows[k]
    ensures !fault && id in users.rows ==>
      var u := r.1.rows[id];
      u.username == form.username && u.role == form.role && u.namaLengkap == users.rows[id].namaLengkap
  {
    if fault then (Reply("Error updating user"), users)
    else if id in users.rows then (Redirect("/admin/users"), Update(users, id, Edited(users.rows[id], form, salt)))
    else (Redirect("/admin/users"), users)
  }

  /** A missing, empty or whitespace-only password leaves the stored
      digest as it was; any other password replaces it with its own
      digest, so it is the one that logs in afterwards. */
  lemma PasswordOnlyWhenGiven(users: Table<User>, id: nat, form: UserEdit, salt: nat)
    requires id in users.rows
    ensures var u := UpdateUser(users, id, form, salt, false).1.rows[id];
      && (form.password.None? || AllIn(form.password.value, JsWhitespace) ==> u.password == users.rows[id].password)
      && (form.password.Some? && !AllIn(form.password.value, JsWhitespace) ==>
            u.password == Hash(form.password.value, salt) && Compare(form.password.value, u.password))
  {
    if form.password.Some? {
      TrimEmptyIffBlank(form.password.value, JsWhitespace);
      CompareHash(form.password.value, form.password.value, salt);
    }
  }

  /** After an edit, the edit page of that user shows the submitted
      username and role and the full name it had. */
  lemma UpdateThenEditUserPage(users: Table<User>, id: nat, form: UserEdit, salt: nat)
    requires id in users.rows
    ensures var page := EditUserPage(UpdateUser(users, id, form, salt, false).1, id, false);
      && page.Form? && page.view == "admin/edit-user"
      && page.item.username == form.username && page.item.role == form.role
      && page.item.namaLengkap == users.rows[id].namaLengkap
  {
  }
}
