/** The handlers of `server/routes.js`, the older route file that keeps a
    plain-text fallback store of users beside the document store. Each
    handler is a decision over the request and the lookups it makes; the
    ones that write (login, registration, user deletion) are methods over
    the session or the users collection, specified by those decisions. */
module LegacyRoutes {
  import opened Base
  import opened Json
  import Text
  import opened Store
  import opened Auth
  import GeofileStore

  /** The user a login settled on: the document, and its ObjectId when it
      came from the document store rather than the fallback storage. */
  datatype Account = Account(doc: Doc, oid: Option<Id>)

  /** The request body once the login schema has accepted it. */
  datatype Credentials = Credentials(username: string, password: string)

  /** What the login schema makes of the request body: the credentials, or
      the messages of the checks it failed. */
  datatype LoginInput = Parsed(creds: Credentials) | Refused(messages: seq<string>)

  // ---------------------------------------------------------------- login

  /** The document store is asked first; only when it yields no user is
      the fallback storage asked. */
  function FoundAccount(mongo: Lookup, stored: Option<Doc>): Option<Account> {
    match mongo
    case Found(d, oid) => Some(Account(d, Some(oid)))
    case _ => if stored.Some? then Some(Account(stored.value, None)) else None
  }

  /** The plain-text rule for users of the fallback storage: the stored
      password, or "admin123" for the user named "admin". */
  predicate StoredPasswordAccepts(u: Doc, password: string) {
    Get(u, "password") == Str(password) || (Get(u, "username") == Str("admin") && password == "admin123")
  }

  /** Whether the password is accepted. For a stored user the hash is
      compared only when the document holds a password; `compare` is the
      answer of `bcrypt.compare`, `None` when it threw. */
  predicate PasswordValid(mongo: Lookup, stored: Option<Doc>, password: string, compare: Option<bool>) {
    match mongo
    case Found(d, _) => Truthy(Get(d, "password")) && compare == Some(true)
    case _ => stored.Some? && StoredPasswordAccepts(stored.value, password)
  }

  /** `user.id || user._id.toString()`; `None` when the account has neither
      (the call on `undefined` throws). */
  function AccountId(a: Account): Option<Value> {
    if Truthy(Get(a.doc, "id")) then Some(a.doc["id"])
    else if a.oid.Some? then Some(Str(a.oid.value))
    else None
  }

  /** `POST /api/auth/login`. `input` is what the login schema made of the
      body. A refused body is answered with the schema's messages; an
      account without any id makes the handler throw, which is answered
      with the bare "Invalid input". */
  function LoginDecision(input: LoginInput, mongo: Lookup, compare: Option<bool>, stored: Option<Doc>): (r: Outcome<Grant>)
    ensures input.Refused? ==> r == Reject(BadRequest, "Invalid input: " + Text.Join(input.messages, ", "))
    ensures r.Accept? ==> "password" !in r.value.response
    ensures r.Accept? ==> "id" in r.value.response && "id" in r.value.sessionUser && r.value.response["id"] == r.value.userId == r.value.sessionUser["id"]
  {
    match input
    case Refused(messages) => Reject(BadRequest, "Invalid input: " + Text.Join(messages, ", "))
    case Parsed(c) =>
      match FoundAccount(mongo, stored)
      case None => Reject(Unauthorized, "Invalid credentials")
      case Some(a) =>
        if !PasswordValid(mongo, stored, c.password, compare) then Reject(Unauthorized, "Invalid credentials")
        else if !Truthy(Get(a.doc, "isActive")) then Reject(Forbidden, "Account is deactivated")
        else
          match AccountId(a)
          case None => Reject(BadRequest, "Invalid input")
          case Some(id) => Accept(Grant(id, SessionUser(id, a.doc), Without(a.doc, {"password"})["id" := id]))
  }

  /** The login checks run in order: no user, then a refused password
      (both 401), then a deactivated account (403); a login that passes
      them all found an active account whose password was accepted. */
  lemma LoginCheckOrder(c: Credentials, mongo: Lookup, compare: Option<bool>, stored: Option<Doc>)
    ensures var r := LoginDecision(Parsed(c), mongo, compare, stored);
      var a := FoundAccount(mongo, stored);
      && (a.None? ==> r == Reject(Unauthorized, "Invalid credentials"))
      && (a.Some? && !PasswordValid(mongo, stored, c.password, compare) ==> r == Reject(Unauthorized, "Invalid credentials"))
      && (a.Some? && PasswordValid(mongo, stored, c.password, compare) && !Truthy(Get(a.value.doc, "isActive"))
          ==> r == Reject(Forbidden, "Account is deactivated"))
      && (r.Accept? ==> a.Some? && PasswordValid(mongo, stored, c.password, compare) && Truthy(Get(a.value.doc, "isActive")))
  {
  }

  /** A user of the fallback storage named "admin" gets in with the
      password "admin123" whatever password the storage holds, once the
      account is active and has an id. */
  lemma AdminFallbackPassword(u: Doc, mongo: Lookup)
    requires !mongo.Found?
    requires Get(u, "username") == Str("admin") && Truthy(Get(u, "isActive")) && Truthy(Get(u, "id"))
    ensures LoginDecision(Parsed(Credentials("admin", "admin123")), mongo, None, Some(u)).Accept?
  {
  }

  /** Any other user of the fallback storage needs its stored password
      exactly. */
  lemma StoredPasswordRequired(u: Doc, mongo: Lookup, c: Credentials)
    requires !mongo.Found?
    requires Get(u, "password") != Str(c.password)
    requires Get(u, "username") != Str("admin") || c.password != "admin123"
    ensures LoginDecision(Parsed(c), mongo, None, Some(u)) == Reject(Unauthorized, "Invalid credentials")
  {
  }

  /** A stored user without a password field is never let in, whatever
      bcrypt would say, and the fallback storage is then not asked. */
  lemma NoPasswordNoLogin(d: Doc, oid: Id, c: Credentials, compare: Option<bool>, stored: Option<Doc>)
    requires !Truthy(Get(d, "password"))
    ensures LoginDecision(Parsed(c), Found(d, oid), compare, stored) == Reject(Unauthorized, "Invalid credentials")
  {
  }

  /** The session a login sets passes `requireAuth`, and passes
      `requireAdmin` exactly when the account's role is "admin". */
  lemma LoginGrantsAccess(c: Credentials, mongo: Lookup, compare: Option<bool>, stored: Option<Doc>)
    requires mongo.Found? ==> mongo.oid != ""
    ensures var r := LoginDecision(Parsed(c), mongo, compare, stored);
      r.Accept? ==>
        && RequireAuth(r.value.userId).Accept?
        && (RequireAdmin(Some(r.value.sessionUser)).Accept? <==> Get(FoundAccount(mongo, stored).value.doc, "role") == Str("admin"))
  {
    var r := LoginDecision(Parsed(c), mongo, compare, stored);
    if r.Accept? {
      SignedInGuards(r.value.userId, FoundAccount(mongo, stored).value.doc);
    }
  }

  /** The login handler: the session is written only when the login is
      granted. */
  method Login(s: Session, input: LoginInput, mongo: Lookup, compare: Option<bool>, stored: Option<Doc>)
    returns (r: Outcome<Doc>)
    modifies s
    ensures var d := LoginDecision(input, mongo, compare, stored);
      && (d.Accept? ==> s.userId == d.value.userId && s.user == Some(d.value.sessionUser) && r == Accept(d.value.response))
      && (d.Reject? ==> s.userId == old(s.userId) && s.user == old(s.user) && r == Reject(d.status, d.message))
  {
    var d := LoginDecision(input, mongo, compare, stored);
    match d
    case Accept(g) =>
      s.SignIn(g.userId, g.sessionUser);
      r := Accept(g.response);
    case Reject(st, m) =>
      r := Reject(st, m);
  }

  // --------------------------------------------------------- registration

  /** The fields a registration must carry. */
  const Required: seq<string> := ["username", "email", "password", "firstName", "lastName"]

  /** The fields a registration copies only when they are truthy. */
  const Optional: set<string> := {"badgeNumber", "department", "position", "phone"}

  /** `password.length < 6` for the values that have a length. */
  predicate TooShort(v: Value) {
    (v.Str? && |v.s| < 6) || (v.Arr? && |v.items| < 6)
  }

  /** The 400 checks of `POST /api/auth/register`, in their order. */
  function RegisterInputCheck(body: Doc): Outcome<()> {
    if |body| == 0 then Reject(BadRequest, "Request body is empty")
    else if exists i | 0 <= i < |Required| :: !Truthy(Get(body, Required[i])) then
      Reject(BadRequest, "Missing required fields: username, email, password, firstName, lastName")
    else if TooShort(Get(body, "password")) then Reject(BadRequest, "Password must be at least 6 characters long")
    else if !Text.MatchesEmailPattern(ToText(Get(body, "email"))) then Reject(BadRequest, "Invalid email format")
    else Accept(())
  }

  /** A registration passes the input checks exactly when the body is not
      empty, every required field is truthy, the password is not short and
      the e-mail matches the pattern; the e-mail then holds an '@' and is
      at least five characters long. */
  lemma RegisterInputAccepts(body: Doc)
    ensures RegisterInputCheck(body).Accept? <==>
      && |body| > 0
      && (forall f | f in Required :: Truthy(Get(body, f)))
      && !TooShort(Get(body, "password"))
      && Text.MatchesEmailPattern(ToText(Get(body, "email")))
    ensures RegisterInputCheck(body).Accept? ==> '@' in ToText(Get(body, "email")) && |ToText(Get(body, "email"))| >= 5
    ensures RegisterInputCheck(body).Reject? ==> RegisterInputCheck(body).status == BadRequest
  {
    if RegisterInputCheck(body).Accept? {
      Text.EmailPatternNeedsAt(ToText(Get(body, "email")));
    }
  }

  /** `role = 'user'` in the destructuring: the default applies only when
      the field is absent. */
  function Role(body: Doc): Value {
    if Get(body, "role").Undefined? then Str("user") else body["role"]
  }

  /** The optional fields the body carries with a truthy value. */
  function OptionalFields(body: Doc): Doc {
    map f | f in Optional && f in body && Truthy(body[f]) :: body[f]
  }

  /** The fields every new user gets. */
  const CoreFields: set<string> := {"username", "email", "password", "firstName", "lastName", "role", "isActive"}

  /** The required fields, the hashed password, the role and an active
      flag. */
  function CoreUserData(body: Doc, hashed: string): (r: Doc)
    ensures r.Keys == CoreFields
  {
    map[
      "username" := Get(body, "username"),
      "email" := Get(body, "email"),
      "password" := Str(hashed),
      "firstName" := Get(body, "firstName"),
      "lastName" := Get(body, "lastName"),
      "role" := Role(body),
      "isActive" := Bool(true)]
  }

  /** `userData`: the core fields, then the truthy optional fields. */
  function UserData(body: Doc, hashed: string): Doc {
    Merge(CoreUserData(body, hashed), OptionalFields(body))
  }

  /** A new user holds the hash, never the password as sent, is active,
      and has role "user" unless the body names one. */
  lemma UserDataCore(body: Doc, hashed: string)
    ensures var u := UserData(body, hashed);
      && u["password"] == Str(hashed)
      && u["isActive"] == Bool(true)
      && (Get(body, "role").Undefined? ==> u["role"] == Str("user"))
      && (!Get(body, "role").Undefined? ==> u["role"] == body["role"])
      && u["username"] == Get(body, "username") && u["email"] == Get(body, "email")
      && u["firstName"] == Get(body, "firstName") && u["lastName"] == Get(body, "lastName")
  {
    var c := CoreUserData(body, hashed);
    assert Optional !! CoreFields;
    assert c["password"] == Str(hashed) && c["isActive"] == Bool(true) && c["role"] == Role(body);
    assert c["username"] == Get(body, "username") && c["email"] == Get(body, "email");
    assert c["firstName"] == Get(body, "firstName") && c["lastName"] == Get(body, "lastName");
  }

  /** A new user has an optional field exactly when the body gives it a
      truthy value, and then holds that value; it has no field beyond the
      core and optional ones. */
  lemma UserDataOptional(body: Doc, hashed: string)
    ensures var u := UserData(body, hashed);
      && (forall f | f in Optional :: (f in u <==> Truthy(Get(body, f))))
      && (forall f | f in Optional && f in u :: u[f] == body[f])
      && u.Keys <= CoreFields + Optional
  {
    assert Optional !! CoreFields;
  }

  /** The fields the registration answers with, copied from what
      `UsersCRUD.create` returned: the data it was given, without the
      timestamps it stored. */
  const ResponseFields: set<string> := {"username", "email", "firstName", "lastName", "badgeNumber", "department",
    "position", "phone", "role", "isActive", "createdAt", "updatedAt"}

  function UserResponse(id: Id, data: Doc): (r: Doc)
    ensures "password" !in r
    ensures "id" in r && "_id" in r && r["id"] == r["_id"] == Str(id)
  {
    (map f | f in ResponseFields :: Get(data, f))["id" := Str(id)]["_id" := Str(id)]
  }

  /** How a failed `create` is answered: a duplicate key names its field
      with 409, anything else is 500. */
  function CreateFailure(e: Fault): (r: Outcome<Doc>)
    ensures r.Reject? && (r.status == Conflict <==> e.DuplicateKey?)
  {
    if e.DuplicateKey? then Reject(Conflict, (if e.field == "" then "Field" else e.field) + " already exists")
    else Reject(ServerError, "Failed to create user")
  }

  /** `POST /api/auth/register` on the users table `docs`: the input
      checks, the username and then the e-mail lookup, the hash (`None`
      when bcrypt threw), and the insert under the generated id. */
  function Registration(docs: map<Id, Doc>, unique: seq<string>, id: Id, body: Doc, hash: Option<string>, now: int): Answered<Doc> {
    match RegisterInputCheck(body)
    case Reject(s, m) => Answered(docs, Reject(s, m))
    case Accept(_) =>
      if HasMatch(docs, "username", Get(body, "username")) then Answered(docs, Reject(Conflict, "Username already exists"))
      else if HasMatch(docs, "email", Get(body, "email")) then Answered(docs, Reject(Conflict, "Email already exists"))
      else
        match hash
        case None => Answered(docs, Reject(ServerError, "Error processing password"))
        case Some(h) =>
          var data := UserData(body, h);
          var step := InsertOne(docs, unique, id, Stamped(data, now));
          Answered(step.docs, if step.result.Success? then Accept(UserResponse(id, data)) else CreateFailure(step.result.error))
  }

  /** A refused registration changes nothing; a taken username is refused
      with 409 before the e-mail is looked at, and a taken e-mail with 409
      too. */
  lemma RegistrationRefusals(docs: map<Id, Doc>, unique: seq<string>, id: Id, body: Doc, hash: Option<string>, now: int)
    ensures var a := Registration(docs, unique, id, body, hash, now);
      && (a.outcome.Reject? ==> a.docs == docs)
      && (RegisterInputCheck(body).Reject? ==> a.outcome == Reject(RegisterInputCheck(body).status, RegisterInputCheck(body).message))
      && (RegisterInputCheck(body).Accept? && HasMatch(docs, "username", Get(body, "username"))
          ==> a.outcome == Reject(Conflict, "Username already exists"))
      && (RegisterInputCheck(body).Accept? && !HasMatch(docs, "username", Get(body, "username"))
          && HasMatch(docs, "email", Get(body, "email"))
          ==> a.outcome == Reject(Conflict, "Email already exists"))
  {
    var a := Registration(docs, unique, id, body, hash, now);
    var c := RegisterInputCheck(body);
    if c.Accept? && !HasMatch(docs, "username", Get(body, "username")) && !HasMatch(docs, "email", Get(body, "email")) && hash.Some? {
      var data := UserData(body, hash.value);
      var step := InsertOne(docs, unique, id, Stamped(data, now));
      assert a == Answered(step.docs, if step.result.Success? then Accept(UserResponse(id, data)) else CreateFailure(step.result.error));
      InsertOneFailureKeeps(docs, unique, id, Stamped(data, now));
    } else {
      assert a.docs == docs;
    }
  }

  /** A registration that succeeds stored exactly one new user, under the
      generated id, holding the user data with both timestamps; neither its
      username nor its e-mail was in use; and the answer leaves out the
      password. */
  lemma RegistrationStores(docs: map<Id, Doc>, unique: seq<string>, id: Id, body: Doc, hash: Option<string>, now: int)
    requires UniqueHolds(docs, unique)
    ensures var a := Registration(docs, unique, id, body, hash, now);
      a.outcome.Accept? ==>
        && hash.Some?
        && id !in docs
        && a.docs == docs[id := Stamped(UserData(body, hash.value), now)]
        && !HasMatch(docs, "username", Get(body, "username"))
        && !HasMatch(docs, "email", Get(body, "email"))
        && "password" !in a.outcome.value
        && UniqueHolds(a.docs, unique)
  {
    var a := Registration(docs, unique, id, body, hash, now);
    if a.outcome.Accept? {
      InsertOneEffect(docs, unique, id, Stamped(UserData(body, hash.value), now));
    }
  }

  /** The registration handler over the users collection. */
  method Register(users: Collection, id: Id, body: Doc, hash: Option<string>, now: int) returns (r: Outcome<Doc>)
    requires users.Valid()
    modifies users
    ensures users.Valid()
    ensures Answered(users.docs, r) == Registration(old(users.docs), users.unique, id, body, hash, now)
  {
    var check := RegisterInputCheck(body);
    if check.Reject? {
      return Reject(check.status, check.message);
    }
    if HasMatch(users.docs, "username", Get(body, "username")) {
      return Reject(Conflict, "Username already exists");
    }
    if HasMatch(users.docs, "email", Get(body, "email")) {
      return Reject(Conflict, "Email already exists");
    }
    if hash.None? {
      return Reject(ServerError, "Error processing password");
    }
    var data := UserData(body, hash.value);
    var created := users.Create(id, data, now);
    if created.Success? {
      r := Accept(UserResponse(id, data));
    } else {
      r := CreateFailure(created.error);
    }
  }

  // ------------------------------------------------------------ user list

  /** The fields `GET /api/users` sets on each entry. */
  const ListingFields: set<string> := {"id", "_id", "firstName", "lastName", "email", "badgeNumber", "department",
    "position", "phone", "role", "isActive", "createdAt", "updatedAt"}

  /** The display value of one listing field: the id twice, the role
      defaulting to "user", the active flag to true when absent, the
      timestamps as stored, and every other field defaulting to "". */
  function ListingValue(id: Id, u: Doc, f: string): Value {
    if f == "id" || f == "_id" then Str(id)
    else if f == "role" then Or(Get(u, f), Str("user"))
    else if f == "isActive" then (if Get(u, f).Undefined? then Bool(true) else u[f])
    else if f == "createdAt" || f == "updatedAt" then Get(u, f)
    else Or(Get(u, f), Str(""))
  }

  /** The display defaults of one entry of the users list. */
  function ListingDefaults(id: Id, u: Doc): (r: Doc)
    ensures r.Keys == ListingFields
  {
    map f | f in ListingFields :: ListingValue(id, u, f)
  }

  /** One entry of `GET /api/users` as the handler builds it: every field
      of the stored user, then the display defaults. */
  function ListedUserAsWritten(id: Id, u: Doc): Doc {
    Merge(u, ListingDefaults(id, u))
  }

  /** The list as written hands out every stored password hash, although
      the handler means to remove them. */
  lemma ListedUserLeaksPassword(id: Id, u: Doc)
    requires "password" in u
    ensures "password" in ListedUserAsWritten(id, u)
    ensures ListedUserAsWritten(id, u)["password"] == u["password"]
  {
    assert "password" !in ListingFields;
    assert "password" !in ListingDefaults(id, u);
  }

  /** The entry with the password removed, as the handler intends and as
      the live users list does. */
  function ListedUser(id: Id, u: Doc): (r: Doc)
    ensures "password" !in r
    ensures "id" in r && r["id"] == Str(id)
  {
    ListingIdField(id, u);
    Without(ListedUserAsWritten(id, u), {"password"})
  }

  /** The display defaults hold the id. */
  lemma ListingIdField(id: Id, u: Doc)
    ensures "id" in ListingDefaults(id, u) && ListingDefaults(id, u)["id"] == Str(id)
  {
    assert "id" in ListingFields;
  }

  /** The corrected entry differs from the one as written only by the
      password. */
  lemma ListedUserKeepsTheRest(id: Id, u: Doc)
    ensures var r := ListedUser(id, u);
      var w := ListedUserAsWritten(id, u);
      && r.Keys == w.Keys - {"password"}
      && (forall k | k in r :: r[k] == w[k])
      && (forall k | k in u && k != "password" && k !in ListingFields :: r[k] == u[k])
  {
    assert "password" !in ListingFields;
  }

  /** `GET /api/users`: one corrected entry per user, in scan order. */
  function UserList(docs: map<Id, Doc>, ids: seq<Id>): (r: seq<Doc>)
    requires forall i | 0 <= i < |ids| :: ids[i] in docs
    ensures |r| == |ids|
    ensures forall i | 0 <= i < |r| :: "password" !in r[i] && "id" in r[i] && r[i]["id"] == Str(ids[i])
  {
    seq(|ids|, i requires 0 <= i < |ids| => ListedUser(ids[i], docs[ids[i]]))
  }

  // -------------------------------------------------------- user deletion

  /** `DELETE /api/users/:id`: 404 for an unknown id, 400 for the account
      named "admin", otherwise the user is removed. */
  function UserDeletion(docs: map<Id, Doc>, id: Id): Answered<()> {
    if id !in docs then Answered(docs, Reject(NotFound, "User not found"))
    else if Get(docs[id], "username") == Str("admin") then Answered(docs, Reject(BadRequest, "Cannot delete admin account"))
    else Answered(docs - {id}, Accept(()))
  }

  /** A deletion removes exactly the named user or nothing, and never
      removes an account named "admin". */
  lemma UserDeletionEffect(docs: map<Id, Doc>, id: Id)
    ensures var a := UserDeletion(docs, id);
      && (a.outcome.Accept? <==> id in docs && Get(docs[id], "username") != Str("admin"))
      && (a.outcome.Accept? ==> a.docs == docs - {id})
      && (a.outcome.Reject? ==> a.docs == docs)
      && (forall k | k in docs && Get(docs[k], "username") == Str("admin") :: k in a.docs)
      && (forall k | k in docs && k != id :: k in a.docs && a.docs[k] == docs[k])
  {
  }

  /** The deletion handler over the users collection. */
  method DeleteUser(users: Collection, id: Id) returns (r: Outcome<()>)
    requires users.Valid()
    modifies users
    ensures users.Valid()
    ensures Answered(users.docs, r) == UserDeletion(old(users.docs), id)
  {
    var found := users.FindById(id);
    if found.None? {
      return Reject(NotFound, "User not found");
    }
    if Get(found.value, "username") == Str("admin") {
      return Reject(BadRequest, "Cannot delete admin account");
    }
    var deleted := users.Delete(id);
    r := if deleted then Accept(()) else Reject(NotFound, "User not found after delete attempt");
  }

  // ---------------------------------------------------- geofiles, vehicles

  /** The file types `POST /api/geofiles` accepts, compared lower-cased. */
  const GeofileTypes: seq<string> := ["kml", "gpx", "shp", "geojson", "kmz", "gml", "other"]

  /** The type check of `POST /api/geofiles`. A truthy type that is not a
      string has no `toLowerCase`; the handler's catch answers 400 too. */
  function GeofileCheck(body: Doc, sessionUserId: Value, now: int): Outcome<Doc> {
    var data := GeofileStore.SubmittedGeofile(body, sessionUserId, now);
    var t := Get(data, "fileType");
    if !Truthy(t) then Reject(BadRequest, "Invalid file type provided or file type is missing")
    else if !t.Str? then Reject(BadRequest, "Invalid geofile data")
    else if Text.Lower(t.s) !in GeofileTypes then Reject(BadRequest, "Invalid file type provided or file type is missing")
    else Accept(data)
  }

  /** A geofile is accepted exactly when its type is a string whose lower
      case is on the list; every refusal is a 400. */
  lemma GeofileCheckAccepts(body: Doc, sessionUserId: Value, now: int)
    ensures var r := GeofileCheck(body, sessionUserId, now);
      && (r.Accept? <==> Get(body, "fileType").Str? && Text.Lower(Get(body, "fileType").s) in GeofileTypes)
      && (r.Reject? ==> r.status == BadRequest)
  {
    SubmittedKeepsType(body, sessionUserId, now);
    ListedTypeTruthy(Get(body, "fileType"));
  }

  /** The submitted record carries the body's type. */
  lemma SubmittedKeepsType(body: Doc, sessionUserId: Value, now: int)
    ensures Get(GeofileStore.SubmittedGeofile(body, sessionUserId, now), "fileType") == Get(body, "fileType")
  {
    assert "fileType" !in {"uploadedBy", "lastAccessedAt", "downloadCount"};
  }

  /** A type whose lower case is on the list is not empty. */
  lemma ListedTypeTruthy(t: Value)
    ensures t.Str? && Text.Lower(t.s) in GeofileTypes ==> Truthy(t)
  {
    if t.Str? && Text.Lower(t.s) in GeofileTypes {
      assert "" !in GeofileTypes;
    }
  }

  /** The statuses a vehicle may be given. */
  const VehicleStatuses: seq<string> := ["available", "on_patrol", "responding", "out_of_service"]

  /** `PATCH /api/police-vehicles/:id/status`: the status is one of the
      four, compared strictly. */
  function VehicleStatus(body: Doc): (r: Outcome<string>)
    ensures r.Accept? <==> Get(body, "status").Str? && Get(body, "status").s in VehicleStatuses
    ensures r.Accept? ==> Get(body, "status") == Str(r.value)
  {
    var s := Get(body, "status");
    assert "" !in VehicleStatuses;
    if !Truthy(s) || !s.Str? || s.s !in VehicleStatuses then
      Reject(BadRequest, "Invalid status. Must be one of: available, on_patrol, responding, out_of_service")
    else Accept(s.s)
  }

  /** `PATCH /api/police-vehicles/:id/location`: the location is an array
      of exactly two elements. */
  function VehicleLocation(body: Doc): (r: Outcome<seq<Value>>)
    ensures r.Accept? <==> Get(body, "location").Arr? && |Get(body, "location").items| == 2
    ensures r.Accept? ==> Get(body, "location") == Arr(r.value)
  {
    var l := Get(body, "location");
    if !Truthy(l) || !l.Arr? || |l.items| != 2 then
      Reject(BadRequest, "Invalid location format. Expected [longitude, latitude]")
    else Accept(l.items)
  }
}
