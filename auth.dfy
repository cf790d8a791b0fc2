/** The session the route handlers read and write, and the two guards
    placed in front of the protected routes. Both route files define the
    same guards. */
module Auth {
  import opened Base
  import opened Json

  /** What `UsersCRUD.findByUsername` gave: a stored user and the hex text
      of its ObjectId, no user, or an error of the driver. */
  datatype Lookup = Found(doc: Doc, oid: string) | Missing | LookupFailed

  /** What a successful login writes into the session and answers. */
  datatype Grant = Grant(userId: Value, sessionUser: Doc, response: Doc)

  /** The two session fields a login writes and the guards read. */
  class Session {
    var userId: Value
    var user: Option<Doc>

    /** A fresh session holds no user. */
    constructor ()
      ensures userId == Undefined && user == None
    {
      userId := Undefined;
      user := None;
    }

    /** `req.session.userId = id; req.session.user = u` */
    method SignIn(id: Value, u: Doc)
      modifies this
      ensures userId == id && user == Some(u)
    {
      userId := id;
      user := Some(u);
    }
  }

  /** `requireAuth`: a session without a (truthy) user id is refused with
      401. */
  function RequireAuth(userId: Value): (r: Outcome<()>)
    ensures r.Reject? <==> !Truthy(userId)
    ensures r.Reject? ==> r.status == Unauthorized
  {
    if !Truthy(userId) then Reject(Unauthorized, "Authentication required") else Accept(())
  }

  /** `requireAdmin`: refused with 403 unless the session user's role is
      exactly the string "admin". */
  function RequireAdmin(user: Option<Doc>): (r: Outcome<()>)
    ensures r.Accept? <==> user.Some? && Get(user.value, "role") == Str("admin")
    ensures r.Reject? ==> r.status == Forbidden
  {
    if user.None? || Get(user.value, "role") != Str("admin") then Reject(Forbidden, "Admin access required")
    else Accept(())
  }

  /** The fields a login copies into `req.session.user`. */
  const SessionFields: set<string> := {"username", "role", "firstName", "lastName"}

  /** `{ id, username: u.username, role: u.role, firstName: u.firstName,
      lastName: u.lastName }` */
  function SessionUser(id: Value, u: Doc): (r: Doc)
    ensures r.Keys == SessionFields + {"id"}
    ensures r["id"] == id && forall f | f in SessionFields :: r[f] == Get(u, f)
  {
    (map f | f in SessionFields :: Get(u, f))["id" := id]
  }

  /** A session set by a login with a truthy id passes `requireAuth`, and
      passes `requireAdmin` exactly when the account's role is "admin":
      the session carries the role of the account and nothing else decides
      it. */
  lemma SignedInGuards(id: Value, u: Doc)
    requires Truthy(id)
    ensures RequireAuth(id).Accept?
    ensures RequireAdmin(Some(SessionUser(id, u))).Accept? <==> Get(u, "role") == Str("admin")
    ensures RequireAdmin(Some(SessionUser(id, u))) == RequireAdmin(Some(u))
  {
    assert Get(SessionUser(id, u), "role") == Get(u, "role");
  }
}
