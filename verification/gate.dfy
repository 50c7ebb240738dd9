/** The access gate of middleware/authMiddleware.js and the way a
    route's middleware chain runs it. */
module Gate {
  import opened Wrappers
  import opened Records

  /** Where a middleware leaves the request. */
  datatype Decision = ToLogin | Forbidden | Next

  /** The response of a refusing middleware. */
  function Refusal(d: Decision): (r: Response)
    requires d != Next
    ensures d == ToLogin ==> r == Redirect("/login")
    ensures d == Forbidden ==> r == Send(403, "Akses ditolak.")
  {
    if d == ToLogin then Redirect("/login") else Send(403, "Akses ditolak.")
  }

  /** `requireLogin`: a request without a session user goes to the login
      page; any session user passes, whatever the role. */
  function RequireLogin(user: Option<SessionUser>): (d: Decision)
    ensures d == ToLogin <==> user.None?
    ensures d == Next <==> user.Some?
  {
    if user.None? then ToLogin else Next
  }

  /** The session role is truthy and one of `roles`. */
  predicate HasRole(user: SessionUser, roles: seq<string>) {
    user.role.Some? && user.role.value != [] && user.role.value in roles
  }

  /** `requireRole(roles)`: no session user goes to the login page before
      roles are looked at; a missing or empty role, or one not listed, is
      refused with 403; a listed role passes. */
  function RequireRole(roles: seq<string>, user: Option<SessionUser>): (d: Decision)
    ensures user.None? ==> d == ToLogin
    ensures user.Some? ==> d != ToLogin
    ensures user.Some? ==> (d == Next <==> HasRole(user.value, roles))
  {
    if user.None? then ToLogin
    else if user.value.role.None? || user.value.role.value == [] || user.value.role.value !in roles then Forbidden
    else Next
  }

  /** The role check never lets through what the login check stops, and
      lets through only users the login check lets through. */
  lemma RoleImpliesLogin(roles: seq<string>, user: Option<SessionUser>)
    ensures RequireRole(roles, user) == Next ==> RequireLogin(user) == Next
    ensures RequireLogin(user) == ToLogin ==> RequireRole(roles, user) == ToLogin
  {
  }

  /** `requireRole([])` refuses every session user. */
  lemma EmptyRolesDeny(user: SessionUser)
    ensures RequireRole([], Some(user)) == Forbidden
  {
  }

  /** Listing the empty role does not admit a user without a role. */
  lemma EmptyRoleNeverAdmits(roles: seq<string>, user: SessionUser)
    requires user.role.None? || user.role.value == []
    ensures RequireRole(roles + [""], Some(user)) == Forbidden
  {
  }

  /** One step of a route's middleware chain. */
  datatype Stage = Login | Roles(roles: seq<string>) | Upload | Handler

  /** How a request through a chain ends: refused by a middleware, at the
      handler, or past the end of a chain without one; `uploaded` says
      whether multer stored the file on the way. */
  datatype Outcome =
    | Refused(decision: Decision, uploaded: bool)
    | Reached(uploaded: bool)
    | FellThrough(uploaded: bool)

  /** Runs the chain in order for a request carrying `user`; stages after
      the handler are never reached. */
  function Run(stages: seq<Stage>, user: Option<SessionUser>, uploaded: bool): (o: Outcome)
    ensures o.Refused? ==> o.decision != Next
    ensures o.Reached? ==> Handler in stages
    decreases |stages|
  {
    if stages == [] then FellThrough(uploaded)
    else match stages[0]
      case Login =>
        var d := RequireLogin(user);
        if d != Next then Refused(d, uploaded) else Run(stages[1..], user, uploaded)
      case Roles(roles) =>
        var d := RequireRole(roles, user);
        if d != Next then Refused(d, uploaded) else Run(stages[1..], user, uploaded)
      case Upload => Run(stages[1..], user, true)
      case Handler => Reached(uploaded)
  }
}
