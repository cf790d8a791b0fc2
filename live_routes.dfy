/** The handlers of `server/mongodb-routes.js`, the route file the server
    runs: the login, the users and record listings, the geofile routes
    (query, create, upload, update, delete, download) and the profile
    update. Each check is a decision function; the handlers that write
    are methods over the session or the collection they change,
    specified by those decisions and by the store's operations. */
module LiveRoutes {
  import opened Base
  import opened Json
  import Text
  import opened Store
  import opened Auth
  import opened GeofileStore
  import Paths

  // ---------------------------------------------------------------- login

  /** The fields the login answers with besides the id. */
  const LoginFields: set<string> := {"username", "role", "firstName", "lastName", "email", "badgeNumber"}

  /** `POST /api/auth/login`: a missing or disabled user is refused before
      any password is compared; `compare` is the answer of
      `bcrypt.compare`, `None` when it threw (no stored hash, or a password
      that is not a string). */
  function LiveLoginDecision(lookup: Lookup, compare: Option<bool>): (r: Outcome<Grant>)
    ensures r.Accept? ==> "password" !in r.value.response && r.value.response.Keys == LoginFields + {"id"}
  {
    match lookup
    case LookupFailed => Reject(ServerError, "Login failed")
    case Missing => Reject(Unauthorized, "Invalid credentials or account disabled")
    case Found(u, oid) =>
      if !Truthy(Get(u, "isActive")) then Reject(Unauthorized, "Invalid credentials or account disabled")
      else
        match compare
        case None => Reject(ServerError, "Login failed")
        case Some(false) => Reject(Unauthorized, "Invalid credentials")
        case Some(true) =>
          var id := Str(oid);
          Accept(Grant(id, SessionUser(id, u), (map f | f in LoginFields :: Get(u, f))["id" := id]))
  }

  /** A missing or disabled account is refused with 401 whatever the
      password: the answer does not depend on the password comparison. A
      wrong password is 401 too, and a login is granted exactly for an
      active account whose password compares equal. */
  lemma LiveLoginOrder(lookup: Lookup, compare: Option<bool>, other: Option<bool>)
    ensures lookup.Missing? || (lookup.Found? && !Truthy(Get(lookup.doc, "isActive"))) ==>
      && LiveLoginDecision(lookup, compare) == Reject(Unauthorized, "Invalid credentials or account disabled")
      && LiveLoginDecision(lookup, compare) == LiveLoginDecision(lookup, other)
    ensures lookup.Found? && Truthy(Get(lookup.doc, "isActive")) && compare == Some(false) ==>
      LiveLoginDecision(lookup, compare) == Reject(Unauthorized, "Invalid credentials")
    ensures LiveLoginDecision(lookup, compare).Accept? <==>
      lookup.Found? && Truthy(Get(lookup.doc, "isActive")) && compare == Some(true)
  {
  }

  /** The session a login sets names the account by its ObjectId, passes
      `requireAuth`, and passes `requireAdmin` exactly when the account's
      role is "admin". */
  lemma LiveLoginGrantsAccess(lookup: Lookup, compare: Option<bool>)
    requires lookup.Found? ==> lookup.oid != ""
    ensures var r := LiveLoginDecision(lookup, compare);
      r.Accept? ==>
        && r.value.userId == Str(lookup.oid)
        && RequireAuth(r.value.userId).Accept?
        && (RequireAdmin(Some(r.value.sessionUser)).Accept? <==> Get(lookup.doc, "role") == Str("admin"))
  {
    var r := LiveLoginDecision(lookup, compare);
    if r.Accept? {
      SignedInGuards(r.value.userId, lookup.doc);
    }
  }

  /** The live login handler: the session is written only when the login
      is granted. */
  method LiveLogin(s: Session, lookup: Lookup, compare: Option<bool>) returns (r: Outcome<Doc>)
    modifies s
    ensures var d := LiveLoginDecision(lookup, compare);
      && (d.Accept? ==> s.userId == d.value.userId && s.user == Some(d.value.sessionUser) && r == Accept(d.value.response))
      && (d.Reject? ==> s.userId == old(s.userId) && s.user == old(s.user) && r == Reject(d.status, d.message))
  {
    var d := LiveLoginDecision(lookup, compare);
    match d
    case Accept(g) =>
      s.SignIn(g.userId, g.sessionUser);
      r := Accept(g.response);
    case Reject(st, m) =>
      r := Reject(st, m);
  }

  // ------------------------------------------------------------- listings

  /** One entry of `GET /api/users`: the stored user without its password,
      with its id. */
  function ListedUser(id: Id, u: Doc): (r: Doc)
    ensures "password" !in r
    ensures "id" in r && r["id"] == Str(id)
    ensures forall k | k in u && k != "password" && k != "id" :: k in r && r[k] == u[k]
    ensures r.Keys == u.Keys - {"password"} + {"id"}
  {
    Without(u, {"password"})["id" := Str(id)]
  }

  /** `GET /api/users`: one entry per user, in scan order, none holding a
      password. */
  function UserList(docs: map<Id, Doc>, ids: seq<Id>): (r: seq<Doc>)
    requires forall i | 0 <= i < |ids| :: ids[i] in docs
    ensures |r| == |ids|
    ensures forall i | 0 <= i < |r| :: "password" !in r[i]
  {
    seq(|ids|, i requires 0 <= i < |ids| => ListedUser(ids[i], docs[ids[i]]))
  }

  /** `id.slice(-3)`: the last three characters, or the whole id when it
      is shorter. */
  function Last3(id: Id): (r: string)
    ensures |r| == Min(3, |id|)
  {
    if |id| <= 3 then id else id[|id| - 3..]
  }

  /** `slice(-3)` ends the id: its characters are the id's last ones. */
  lemma Last3EndsId(id: Id)
    ensures forall i | 0 <= i < |Last3(id)| :: Last3(id)[i] == id[|id| - |Last3(id)| + i]
  {
  }

  /** `d[field] || `${prefix}-${year}-${last3.toUpperCase()}``: the stored
      number, or one made up from the id for display. */
  function NumberOr(d: Doc, field: string, prefix: string, year: int, id: Id): Value {
    Or(Get(d, field), Str(RefNumber(prefix, year, Last3(id))))
  }

  /** A stored number is shown as it is; a missing one is shown as the
      prefix, the year and the upper-cased end of the id; either way every
      listed record shows a number. */
  lemma NumberOrFallback(d: Doc, field: string, prefix: string, year: int, id: Id)
    ensures Truthy(Get(d, field)) ==> NumberOr(d, field, prefix, year, id) == d[field]
    ensures !Truthy(Get(d, field)) ==>
      var s := NumberOr(d, field, prefix, year, id).s;
      && NumberOr(d, field, prefix, year, id).Str?
      && Text.StartsWith(s, prefix + "-" + Text.IntToString(year) + "-")
      && |s| >= |Last3(id)|
      && s[|s| - |Last3(id)|..] == Text.Upper(Last3(id))
    ensures Truthy(NumberOr(d, field, prefix, year, id))
  {
    var s := RefNumber(prefix, year, Last3(id));
    var head := prefix + "-" + Text.IntToString(year) + "-";
    assert s == head + Text.Upper(Last3(id));
    assert s[..|head|] == head;
    assert s[|s| - |Last3(id)|..] == Text.Upper(Last3(id));
  }

  /** An entry of `GET /api/cases`. */
  function ListedCase(id: Id, d: Doc, year: int): Doc {
    d["id" := Str(id)]["caseNumber" := NumberOr(d, "caseNumber", "CASE", year, id)]
  }

  /** An entry of `GET /api/ob-entries`: the officer defaults to "Officer
      Smith". */
  function ListedObEntry(id: Id, d: Doc, year: int): Doc {
    d["id" := Str(id)]["obNumber" := NumberOr(d, "obNumber", "OB", year, id)]
      ["officer" := Or(Get(d, "officer"), Str("Officer Smith"))]
  }

  /** An entry of `GET /api/reports`. */
  function ListedReport(id: Id, d: Doc, year: int): Doc {
    d["id" := Str(id)]["reportNumber" := NumberOr(d, "reportNumber", "RPT", year, id)]
  }

  /** The listings keep every stored field they do not fill in, always show
      a number, and show an officer for every occurrence-book entry. */
  lemma ListingsKeepRecords(id: Id, d: Doc, year: int)
    ensures forall k | k in d && k !in {"id", "caseNumber"} :: ListedCase(id, d, year)[k] == d[k]
    ensures forall k | k in d && k !in {"id", "obNumber", "officer"} :: ListedObEntry(id, d, year)[k] == d[k]
    ensures forall k | k in d && k !in {"id", "reportNumber"} :: ListedReport(id, d, year)[k] == d[k]
    ensures Truthy(ListedCase(id, d, year)["caseNumber"]) && Truthy(ListedReport(id, d, year)["reportNumber"])
    ensures Truthy(ListedObEntry(id, d, year)["obNumber"]) && Truthy(ListedObEntry(id, d, year)["officer"])
    ensures !Truthy(Get(d, "officer")) ==> ListedObEntry(id, d, year)["officer"] == Str("Officer Smith")
  {
    NumberOrFallback(d, "caseNumber", "CASE", year, id);
    NumberOrFallback(d, "obNumber", "OB", year, id);
    NumberOrFallback(d, "reportNumber", "RPT", year, id);
  }

  // ------------------------------------------------- 404 on update/delete

  /** How the update routes answer what the CRUD `update` returned: false
      is 404, an error 500, and true the record as it now reads, with its
      id. */
  function UpdateAnswer(step: Step<bool>, id: Id, notFound: string, failed: string): (r: Outcome<Doc>)
    ensures r.Reject? && r.status == NotFound <==> step.result == Success(false)
    ensures r.Accept? <==> step.result == Success(true) && id in step.docs
    ensures r.Accept? ==> r.value == step.docs[id]["id" := Str(id)]
  {
    match step.result
    case Failure(_) => Reject(ServerError, failed)
    case Success(modified) =>
      if !modified then Reject(NotFound, notFound)
      else if id in step.docs then Accept(step.docs[id]["id" := Str(id)])
      else Reject(ServerError, failed)
  }

  /** How the delete routes answer what the CRUD `delete` returned. */
  function DeleteStatus(deleted: bool): (s: Status)
    ensures s == NotFound <==> !deleted
    ensures s == Ok <==> deleted
  {
    if deleted then Ok else NotFound
  }

  /** Every update `$set`s a fresh `updatedAt`, so an update route answers
      404 exactly when the id is unknown, and answers a known record with
      the record as updated whenever the store accepts the change. */
  lemma UpdateNotFoundIffMissing(docs: map<Id, Doc>, unique: seq<string>, id: Id, cs: seq<Change>, now: int,
                                 notFound: string, failed: string)
    requires UniqueHolds(docs, unique)
    requires LastSets(cs, "updatedAt", Date(now))
    requires id in docs ==> Get(docs[id], "updatedAt") != Date(now)
    ensures var s := UpdateOne(docs, unique, id, cs);
      var r := UpdateAnswer(s, id, notFound, failed);
      && (r.Reject? && r.status == NotFound <==> id !in docs)
      && (id in docs && s.result.Success? ==> 
            && r.Accept? && ApplyChanges(docs[id], cs).Success?
            && r.value == ApplyChanges(docs[id], cs).value["id" := Str(id)])
  {
    UpdateOneEffect(docs, unique, id, cs);
    if id in docs {
      FreshStampModifies(docs, unique, id, cs, "updatedAt", Date(now));
    }
  }

  /** `PUT /api/cases/:id`, `/api/ob-entries/:id`, `/api/reports/:id`. */
  method UpdateRoute(c: Collection, id: Id, body: Doc, now: int, notFound: string, failed: string) returns (r: Outcome<Doc>)
    requires c.Valid()
    modifies c
    ensures c.Valid()
    ensures var step := UpdateOne(old(c.docs), c.unique, id, StampedSet(body, now));
      c.docs == step.docs && r == UpdateAnswer(step, id, notFound, failed)
  {
    var u := c.Update(id, body, now);
    r := UpdateAnswer(Step(c.docs, u), id, notFound, failed);
  }

  /** `DELETE /api/ob-entries/:id`, `/api/reports/:id`. */
  method DeleteRoute(c: Collection, id: Id) returns (s: Status)
    requires c.Valid()
    modifies c
    ensures c.Valid()
    ensures c.docs == old(c.docs) - {id}
    ensures s == NotFound <==> id !in old(c.docs)
  {
    var deleted := c.Delete(id);
    s := DeleteStatus(deleted);
  }

  // ------------------------------------------------------ geofile routes

  /** The query string of `GET /api/geofiles`; an absent parameter is the
      empty string, and the dates are already in milliseconds. */
  datatype GeofileQuery = GeofileQuery(
    search: string, fileType: string, accessLevel: string, tags: string,
    dateFrom: Option<int>, dateTo: Option<int>)

  /** The filters the route hands to `findAll`: the tags parameter split on
      commas. */
  function QueryFilters(q: GeofileQuery): (f: Filters)
    ensures f.search == q.search && f.fileType == q.fileType && f.accessLevel == q.accessLevel
    ensures f.dateFrom == q.dateFrom && f.dateTo == q.dateTo
  {
    Filters(q.search, q.fileType, q.accessLevel, if q.tags != "" then Text.Split(q.tags, ',') else [],
      q.dateFrom, q.dateTo)
  }

  /** No tags parameter filters on no tag; otherwise the tags filtered on
      are the comma-separated pieces of the parameter, which join back to
      it. */
  lemma QueryTags(q: GeofileQuery)
    ensures q.tags == "" <==> QueryFilters(q).tags == []
    ensures q.tags != "" ==> Text.Join(QueryFilters(q).tags, ",") == q.tags
    ensures forall i | 0 <= i < |QueryFilters(q).tags| :: ',' !in QueryFilters(q).tags[i]
  {
    if q.tags != "" {
      Text.JoinSplit(q.tags, ',');
    }
  }

  /** The file types `POST /api/geofiles` accepts, compared lower-cased. */
  const GeofileTypes: seq<string> := ["shp", "kml", "geojson", "csv", "gpx", "kmz", "gml"]

  /** The checks of `POST /api/geofiles`. A truthy type that is not a
      string has no `toLowerCase`; the handler's catch answers 500. */
  function GeofilePostCheck(body: Doc, uploader: Value, now: int): Outcome<Doc> {
    var data := SubmittedGeofile(body, uploader, now);
    var t := Get(data, "fileType");
    if !Truthy(Get(data, "filename")) || !Truthy(t) then Reject(BadRequest, "Filename and file type are required")
    else if !t.Str? then Reject(ServerError, "Failed to create geofile record")
    else if Text.Lower(t.s) !in GeofileTypes then
      Reject(BadRequest, "Invalid file type. Allowed types: shp, kml, geojson, csv, gpx, kmz, gml")
    else Accept(data)
  }

  /** A geofile is accepted exactly when it has a file name and a string
      type whose lower case is on the list, and an accepted record counts
      no downloads, whatever the body said. */
  lemma GeofilePostAccepts(body: Doc, uploader: Value, now: int)
    ensures var r := GeofilePostCheck(body, uploader, now);
      && (r.Accept? <==> (Truthy(Get(body, "filename")) && Get(body, "fileType").Str?
                          && Text.Lower(Get(body, "fileType").s) in GeofileTypes))
      && (r.Accept? ==> r.value["downloadCount"] == Num(0))
  {
    SubmittedKeepsNames(body, uploader, now);
    assert "" !in GeofileTypes;
    var r := GeofilePostCheck(body, uploader, now);
    if r.Accept? {
      assert r.value == SubmittedGeofile(body, uploader, now);
    }
  }

  /** Without a file name or a type, or with a string type off the list,
      the answer is 400. */
  lemma GeofilePostRefusals(body: Doc, uploader: Value, now: int)
    ensures var r := GeofilePostCheck(body, uploader, now);
      && (!Truthy(Get(body, "filename")) || !Truthy(Get(body, "fileType")) ==> r.Reject? && r.status == BadRequest)
      && ((Get(body, "fileType").Str? && Truthy(Get(body, "filename"))
           && Text.Lower(Get(body, "fileType").s) !in GeofileTypes) ==> r.Reject? && r.status == BadRequest)
  {
    SubmittedKeepsNames(body, uploader, now);
  }

  /** The record submitted keeps the body's file name and type. */
  lemma SubmittedKeepsNames(body: Doc, uploader: Value, now: int)
    ensures var data := SubmittedGeofile(body, uploader, now);
      Get(data, "fileType") == Get(body, "fileType") && Get(data, "filename") == Get(body, "filename")
  {
    assert "fileType" !in {"uploadedBy", "lastAccessedAt", "downloadCount"};
    assert "filename" !in {"uploadedBy", "lastAccessedAt", "downloadCount"};
  }

  // The form fields of `POST /api/geofiles/upload` are a `Form`: all text.

  /** `form[k] || fallback` */
  function FieldOr(form: Form, k: string, fallback: string): (r: string)
    ensures fallback != "" ==> r != ""
  {
    if Field(form, k) != "" then Field(form, k) else fallback
  }

  /** `fileType || 'GEOJSON'` */
  function UploadType(form: Form): string {
    FieldOr(form, "fileType", "GEOJSON")
  }

  /** The tag names of an upload: the comma-separated pieces, each
      trimmed, none when the field is empty. */
  function UploadTagNames(form: Form): (r: seq<string>)
    ensures Field(form, "tags") == "" <==> r == []
  {
    var t := Field(form, "tags");
    if t == "" then [] else TrimAll(Text.Split(t, ','))
  }

  /** Each piece, trimmed. */
  function TrimAll(pieces: seq<string>): (r: seq<string>)
    ensures |r| == |pieces|
  {
    seq(|pieces|, i requires 0 <= i < |pieces| => Text.Trim(pieces[i]))
  }

  /** Trimming pieces free of commas gives pieces free of commas that
      neither start nor end with white space. */
  lemma TrimAllClean(pieces: seq<string>)
    requires forall i | 0 <= i < |pieces| :: ',' !in pieces[i]
    ensures var names := TrimAll(pieces);
      && (forall i | 0 <= i < |names| :: ',' !in names[i])
      && (forall i | 0 <= i < |names| :: names[i] == [] || (!Text.IsSpace(names[i][0]) && !Text.IsSpace(names[i][|names[i]| - 1])))
  {
    var names := TrimAll(pieces);
    forall i | 0 <= i < |names|
      ensures ',' !in names[i]
      ensures names[i] == [] || (!Text.IsSpace(names[i][0]) && !Text.IsSpace(names[i][|names[i]| - 1]))
    {
      assert names[i] == Text.Trim(pieces[i]);
      TrimClean(pieces[i]);
    }
  }

  /** A piece free of commas stays free of them once trimmed, and then
      neither starts nor ends with white space. */
  lemma TrimClean(p: string)
    requires ',' !in p
    ensures var t := Text.Trim(p); ',' !in t && (t == [] || (!Text.IsSpace(t[0]) && !Text.IsSpace(t[|t| - 1])))
  {
    TrimShape(p);
  }

  /** The fixed coordinates and bounding box every upload is given. */
  const Coordinates: string := "[-122.4194,37.7749]"
  const BoundingBox: string := "[[-122.45,37.75],[-122.38,37.8]]"

  /** The metadata text an upload stores: `JSON.stringify` of the creator,
      the coordinate system and the upload method. */
  function MetadataText(cs: string): string {
    "{\"creator\":\"Police Department\",\"coordinateSystem\":" + Quote(cs) + ",\"uploadMethod\":\"web_interface\"}"
  }

  /** `form[k] || null` */
  function FieldOrNull(form: Form, k: string): Value {
    if Field(form, k) != "" then Str(Field(form, k)) else Null
  }

  /** The values an upload derives from its form, before they are laid out
      as a record. */
  datatype Derived = Derived(
    filename: string, filepath: string, fileType: string, fileSize: int, description: string,
    tags: seq<string>, coordinateSystem: string, accessLevel: string, isPublic: bool,
    caseId: Value, obId: Value, evidenceId: Value, address: string, locationName: string,
    metadata: string, uploadedBy: Value)

  /** The derivation of an upload. `sizeDraw` stands for
      `Math.floor(Math.random() * 100000)`. */
  function Derive(form: Form, uploader: Value, sizeDraw: int): Derived {
    var name := Field(form, "filename");
    var ext := Text.Lower(UploadType(form));
    var cs := FieldOr(form, "coordinateSystem", "WGS84");
    Derived(
      name + "." + ext, "/geofiles/" + name + "." + ext, Text.Upper(UploadType(form)), sizeDraw + 10000,
      Field(form, "description"), UploadTagNames(form), cs, FieldOr(form, "accessLevel", "internal"),
      Field(form, "isPublic") == "true",
      FieldOrNull(form, "caseId"), FieldOrNull(form, "obId"), FieldOrNull(form, "evidenceId"),
      name + " Location", name, MetadataText(cs), Or(uploader, Num(1)))
  }

  /** The strings as a JSON array. */
  function StrArray(items: seq<string>): (r: Value)
    ensures r.Arr? && |r.items| == |items| && forall i | 0 <= i < |items| :: r.items[i] == Str(items[i])
  {
    Arr(seq(|items|, i requires 0 <= i < |items| => Str(items[i])))
  }

  /** The fields of an uploaded record. */
  const UploadFields: set<string> := {"filename", "filepath", "fileType", "fileSize", "description", "tags",
    "coordinateSystem", "accessLevel", "isPublic", "caseId", "obId", "evidenceId", "address", "locationName",
    "coordinates", "boundingBox", "metadata", "uploadedBy", "downloadCount"}

  /** One field of an uploaded record. */
  function UploadValue(u: Derived, f: string): Value {
    if f == "filename" then Str(u.filename)
    else if f == "filepath" then Str(u.filepath)
    else if f == "fileType" then Str(u.fileType)
    else if f == "fileSize" then Num(u.fileSize)
    else if f == "description" then Str(u.description)
    else if f == "tags" then StrArray(u.tags)
    else if f == "coordinateSystem" then Str(u.coordinateSystem)
    else if f == "accessLevel" then Str(u.accessLevel)
    else if f == "isPublic" then Bool(u.isPublic)
    else if f == "caseId" then u.caseId
    else if f == "obId" then u.obId
    else if f == "evidenceId" then u.evidenceId
    else if f == "address" then Str(u.address)
    else if f == "locationName" then Str(u.locationName)
    else if f == "coordinates" then Str(Coordinates)
    else if f == "boundingBox" then Str(BoundingBox)
    else if f == "metadata" then Str(u.metadata)
    else if f == "uploadedBy" then u.uploadedBy
    else Num(0)  // "downloadCount"
  }

  /** The record laid out from the derived values: every field of an
      upload, each holding its value. */
  function UploadRecord(u: Derived): (d: Doc)
    ensures d.Keys == UploadFields
  {
    map f | f in UploadFields :: UploadValue(u, f)
  }

  /** `POST /api/geofiles/upload`: a name that is empty or only white
      space is refused; otherwise the record is derived from the form. */
  function UploadCheck(form: Form, uploader: Value, sizeDraw: int): (r: Outcome<Doc>)
    ensures r.Reject? <==> Text.AllSpace(Field(form, "filename"))
    ensures r.Reject? ==> r == Reject(BadRequest, "Name/Label is required")
    ensures r.Accept? ==> r.value.Keys == UploadFields
  {
    Text.TrimEmptyIffAllSpace(Field(form, "filename"));
    if Text.Trim(Field(form, "filename")) == "" then Reject(BadRequest, "Name/Label is required")
    else
      Accept(UploadRecord(Derive(form, uploader, sizeDraw)))
  }

  /** The value each field of an upload takes, field by field. */
  lemma UploadValueOf(u: Derived)
    ensures UploadValue(u, "filename") == Str(u.filename) && UploadValue(u, "filepath") == Str(u.filepath)
    ensures UploadValue(u, "fileType") == Str(u.fileType) && UploadValue(u, "fileSize") == Num(u.fileSize)
    ensures UploadValue(u, "tags") == StrArray(u.tags)
    ensures UploadValue(u, "isPublic") == Bool(u.isPublic) && UploadValue(u, "accessLevel") == Str(u.accessLevel)
    ensures UploadValue(u, "coordinateSystem") == Str(u.coordinateSystem)
    ensures UploadValue(u, "uploadedBy") == u.uploadedBy && UploadValue(u, "downloadCount") == Num(0)
  {
    UploadNameValues(u);
    UploadSettingValues(u);
    UploadOwnerValues(u);
  }

  /** The name, path, type, size and tags fields of an upload. */
  lemma UploadNameValues(u: Derived)
    ensures UploadValue(u, "filename") == Str(u.filename) && UploadValue(u, "filepath") == Str(u.filepath)
    ensures UploadValue(u, "fileType") == Str(u.fileType) && UploadValue(u, "fileSize") == Num(u.fileSize)
    ensures UploadValue(u, "tags") == StrArray(u.tags)
  {
  }

  /** The public flag, access level and coordinate system of an upload. */
  lemma UploadSettingValues(u: Derived)
    ensures UploadValue(u, "isPublic") == Bool(u.isPublic) && UploadValue(u, "accessLevel") == Str(u.accessLevel)
    ensures UploadValue(u, "coordinateSystem") == Str(u.coordinateSystem)
  {
  }

  /** The uploader and the download count of an upload. */
  lemma UploadOwnerValues(u: Derived)
    ensures UploadValue(u, "uploadedBy") == u.uploadedBy && UploadValue(u, "downloadCount") == Num(0)
  {
  }

  /** Each field of an accepted upload is the value derived for it. */
  lemma UploadRecordField(form: Form, uploader: Value, sizeDraw: int, f: string)
    requires f in UploadFields
    ensures var r := UploadCheck(form, uploader, sizeDraw);
      r.Accept? ==> f in r.value && r.value[f] == UploadValue(Derive(form, uploader, sizeDraw), f)
  {
  }

  /** The stored file name and path are the name, a dot and the
      lower-cased type, which defaults to GEOJSON. */
  lemma UploadNaming(form: Form, uploader: Value, sizeDraw: int)
    ensures var r := UploadCheck(form, uploader, sizeDraw);
      var name := Field(form, "filename");
      r.Accept? ==>
        && r.value["filename"] == Str(name + "." + Text.Lower(UploadType(form)))
        && r.value["filepath"] == Str("/geofiles/" + name + "." + Text.Lower(UploadType(form)))
  {
    var r := UploadCheck(form, uploader, sizeDraw);
    if r.Accept? {
      var u := Derive(form, uploader, sizeDraw);
      UploadValueOf(u);
      UploadRecordField(form, uploader, sizeDraw, "filename");
      UploadRecordField(form, uploader, sizeDraw, "filepath");
    }
  }

  /** The type is stored upper-cased; the size lies in [10000, 110000). */
  lemma UploadTypeAndSize(form: Form, uploader: Value, sizeDraw: int)
    requires 0 <= sizeDraw < 100000
    ensures var r := UploadCheck(form, uploader, sizeDraw);
      r.Accept? ==>
        && r.value["fileType"] == Str(Text.Upper(UploadType(form)))
        && r.value["fileSize"].Num? && 10000 <= r.value["fileSize"].n < 110000
  {
    var r := UploadCheck(form, uploader, sizeDraw);
    if r.Accept? {
      var u := Derive(form, uploader, sizeDraw);
      UploadValueOf(u);
      UploadRecordField(form, uploader, sizeDraw, "fileType");
      UploadRecordField(form, uploader, sizeDraw, "fileSize");
    }
  }

  /** The tags are stored as the array of the tag names. */
  lemma UploadTags(form: Form, uploader: Value, sizeDraw: int)
    ensures var r := UploadCheck(form, uploader, sizeDraw);
      r.Accept? ==> r.value["tags"] == StrArray(UploadTagNames(form))
  {
    var r := UploadCheck(form, uploader, sizeDraw);
    if r.Accept? {
      var u := Derive(form, uploader, sizeDraw);
      UploadValueOf(u);
      UploadRecordField(form, uploader, sizeDraw, "tags");
    }
  }

  /** The tag names are the trimmed comma-separated pieces of the field,
      none when it is empty; no tag holds a comma or begins or ends with
      white space. */
  lemma UploadTagNamesShape(form: Form)
    ensures var names := UploadTagNames(form);
      && (Field(form, "tags") == "" <==> names == [])
      && (forall i | 0 <= i < |names| :: ',' !in names[i])
      && (forall i | 0 <= i < |names| :: names[i] == [] || (!Text.IsSpace(names[i][0]) && !Text.IsSpace(names[i][|names[i]| - 1])))
  {
    var t := Field(form, "tags");
    if t != "" {
      TrimAllClean(Text.Split(t, ','));
    }
  }

  /** The public flag is set only by the text "true"; access level and
      coordinate system fall back to "internal" and "WGS84". */
  lemma UploadDefaults(form: Form, uploader: Value, sizeDraw: int)
    ensures var r := UploadCheck(form, uploader, sizeDraw);
      r.Accept? ==>
        && r.value["isPublic"] == Bool(Field(form, "isPublic") == "true")
        && (Field(form, "accessLevel") != "" ==> r.value["accessLevel"] == Str(Field(form, "accessLevel")))
        && (Field(form, "accessLevel") == "" ==> r.value["accessLevel"] == Str("internal"))
        && (Field(form, "coordinateSystem") != "" ==> r.value["coordinateSystem"] == Str(Field(form, "coordinateSystem")))
        && (Field(form, "coordinateSystem") == "" ==> r.value["coordinateSystem"] == Str("WGS84"))
  {
    var r := UploadCheck(form, uploader, sizeDraw);
    if r.Accept? {
      var u := Derive(form, uploader, sizeDraw);
      UploadValueOf(u);
      UploadRecordField(form, uploader, sizeDraw, "isPublic");
      UploadRecordField(form, uploader, sizeDraw, "accessLevel");
      UploadRecordField(form, uploader, sizeDraw, "coordinateSystem");
    }
  }

  /** The uploader defaults to user 1, and the record starts with no
      downloads. */
  lemma UploadOwnerAndCount(form: Form, uploader: Value, sizeDraw: int)
    ensures var r := UploadCheck(form, uploader, sizeDraw);
      r.Accept? ==>
        && r.value["uploadedBy"] == Or(uploader, Num(1))
        && r.value["downloadCount"] == Num(0)
  {
    var r := UploadCheck(form, uploader, sizeDraw);
    if r.Accept? {
      var u := Derive(form, uploader, sizeDraw);
      UploadValueOf(u);
      UploadRecordField(form, uploader, sizeDraw, "uploadedBy");
      UploadRecordField(form, uploader, sizeDraw, "downloadCount");
    }
  }

  /** `trim` gives a piece of the string that neither starts nor ends with
      white space. */
  lemma TrimShape(s: string)
    ensures forall c | c in Text.Trim(s) :: c in s
    ensures var t := Text.Trim(s); t == [] || (!Text.IsSpace(t[0]) && !Text.IsSpace(t[|t| - 1]))
  {
    var a := Text.TrimStart(s);
    var t := Text.TrimEnd(a);
    Text.TrimStartShape(s);
    Text.TrimEndShape(a);
    forall c | c in t ensures c in s {
      var i :| 0 <= i < |t| && t[i] == c;
      assert a[i] == s[|s| - |a| + i];
    }
    if t != [] {
      assert t[0] == a[0];
    }
  }

  /** A tags field free of white space is stored as its comma-separated
      pieces exactly, and they join back to the field. */
  lemma UploadTagsRoundTrip(form: Form)
    requires Field(form, "tags") != ""
    requires forall i | 0 <= i < |Field(form, "tags")| :: !Text.IsSpace(Field(form, "tags")[i])
    ensures UploadTagNames(form) == Text.Split(Field(form, "tags"), ',')
    ensures Text.Join(UploadTagNames(form), ",") == Field(form, "tags")
  {
    var t := Field(form, "tags");
    var pieces := Text.Split(t, ',');
    Text.SplitPiecesFromString(t, ',');
    forall i | 0 <= i < |pieces|
      ensures Text.Trim(pieces[i]) == pieces[i]
    {
      var p := pieces[i];
      if p != [] {
        NoSpaceIn(t, p[0]);
        NoSpaceIn(t, p[|p| - 1]);
      }
      Text.TrimKeeps(p);
    }
    assert UploadTagNames(form) == pieces;
    Text.JoinSplit(t, ',');
  }

  /** A character of a string free of white space is not white space. */
  lemma NoSpaceIn(t: string, c: char)
    requires c in t
    requires forall i | 0 <= i < |t| :: !Text.IsSpace(t[i])
    ensures !Text.IsSpace(c)
  {
  }

  /** The record `create` stores for an upload keeps the derived file
      name, path, type, tags, public flag, access level and zero count:
      the creation defaults override none of them. */
  lemma UploadStored(form: Form, uploader: Value, sizeDraw: int, parse: Parser, now: int)
    ensures var r := UploadCheck(form, uploader, sizeDraw);
      r.Accept? && GeofileDoc(r.value, parse, now).Success? ==>
        var d := GeofileDoc(r.value, parse, now).value;
        && (forall f | f in {"filename", "filepath", "fileType", "tags", "isPublic", "accessLevel", "downloadCount"} ::
              Get(d, f) == r.value[f])
        && Get(d, "createdAt") == Date(now)
  {
    var r := UploadCheck(form, uploader, sizeDraw);
    if r.Accept? {
      UploadRecordKinds(form, uploader, sizeDraw);
      CreateKeepsUpload(r.value, parse, now);
    }
  }

  /** An accepted upload's tags are an array, its flag a boolean, its
      access level a non-empty string and its count zero. */
  lemma UploadRecordKinds(form: Form, uploader: Value, sizeDraw: int)
    ensures var r := UploadCheck(form, uploader, sizeDraw);
      r.Accept? ==>
        && "tags" in r.value && r.value["tags"].Arr?
        && "isPublic" in r.value && r.value["isPublic"].Bool?
        && "accessLevel" in r.value && r.value["accessLevel"].Str? && r.value["accessLevel"].s != ""
        && "downloadCount" in r.value && r.value["downloadCount"] == Num(0)
  {
    UploadTags(form, uploader, sizeDraw);
    UploadDefaults(form, uploader, sizeDraw);
    UploadOwnerAndCount(form, uploader, sizeDraw);
  }

  /** `create` keeps a record's names, its array of tags, its flag, its
      non-empty access level and its zero count. */
  lemma CreateKeepsUpload(data: Doc, parse: Parser, now: int)
    requires "filename" in data && "filepath" in data && "fileType" in data
    requires "tags" in data && data["tags"].Arr?
    requires "isPublic" in data && data["isPublic"].Bool?
    requires "accessLevel" in data && data["accessLevel"].Str? && data["accessLevel"].s != ""
    requires "downloadCount" in data && data["downloadCount"] == Num(0)
    ensures GeofileDoc(data, parse, now).Success? ==>
      var d := GeofileDoc(data, parse, now).value;
      && (forall f | f in {"filename", "filepath", "fileType", "tags", "isPublic", "accessLevel", "downloadCount"} ::
            Get(d, f) == data[f])
      && Get(d, "createdAt") == Date(now)
  {
    GeofileDocDefaults(data, parse, now);
    GeofileDocKeeps(data, parse, now);
    assert "filename" !in CreateWritten;
    assert "filepath" !in CreateWritten;
    assert "fileType" !in CreateWritten;
  }

  /** Creates a checked record and answers 201 with it, or 500 when the
      store refuses it. */
  method CreateGeofile(g: GeofileCollection, id: Id, data: Doc, parse: Parser, now: int, failed: string)
    returns (r: Outcome<Doc>)
    requires g.Valid()
    modifies g
    ensures g.Valid()
    ensures GeofileDoc(data, parse, now).Failure? ==> g.docs == old(g.docs) && r == Reject(ServerError, failed)
    ensures GeofileDoc(data, parse, now).Success? ==>
      var s := InsertOne(old(g.docs), g.unique, id, GeofileDoc(data, parse, now).value);
      && g.docs == s.docs
      && r == (if s.result.Success? then Accept(s.result.value["id" := Str(id)]) else Reject(ServerError, failed))
  {
    var c := g.Create(id, data, parse, now);
    r := if c.Success? then Accept(c.value) else Reject(ServerError, failed);
  }

  /** `POST /api/geofiles` */
  method GeofilePost(g: GeofileCollection, id: Id, body: Doc, uploader: Value, parse: Parser, now: int)
    returns (r: Outcome<Doc>)
    requires g.Valid()
    modifies g
    ensures g.Valid()
    ensures GeofilePostCheck(body, uploader, now).Reject? ==>
      g.docs == old(g.docs) && r == Reject(GeofilePostCheck(body, uploader, now).status, GeofilePostCheck(body, uploader, now).message)
    ensures GeofilePostCheck(body, uploader, now).Accept? ==>
      var data := GeofilePostCheck(body, uploader, now).value;
      && (GeofileDoc(data, parse, now).Failure? ==>
            g.docs == old(g.docs) && r == Reject(ServerError, "Failed to create geofile record"))
      && (GeofileDoc(data, parse, now).Success? ==>
            var s := InsertOne(old(g.docs), g.unique, id, GeofileDoc(data, parse, now).value);
            && g.docs == s.docs
            && r == (if s.result.Success? then Accept(s.result.value["id" := Str(id)])
                     else Reject(ServerError, "Failed to create geofile record")))
  {
    var check := GeofilePostCheck(body, uploader, now);
    if check.Reject? {
      return Reject(check.status, check.message);
    }
    r := CreateGeofile(g, id, check.value, parse, now, "Failed to create geofile record");
  }

  /** `POST /api/geofiles/upload` */
  method Upload(g: GeofileCollection, id: Id, form: Form, uploader: Value, sizeDraw: int, parse: Parser, now: int)
    returns (r: Outcome<Doc>)
    requires g.Valid()
    requires 0 <= sizeDraw < 100000
    modifies g
    ensures g.Valid()
    ensures UploadCheck(form, uploader, sizeDraw).Reject? ==>
      g.docs == old(g.docs) && r == Reject(BadRequest, "Name/Label is required")
    ensures UploadCheck(form, uploader, sizeDraw).Accept? ==>
      var data := UploadCheck(form, uploader, sizeDraw).value;
      && (GeofileDoc(data, parse, now).Failure? ==>
            g.docs == old(g.docs) && r == Reject(ServerError, "Failed to upload geofile"))
      && (GeofileDoc(data, parse, now).Success? ==>
            var s := InsertOne(old(g.docs), g.unique, id, GeofileDoc(data, parse, now).value);
            && g.docs == s.docs
            && r == (if s.result.Success? then Accept(s.result.value["id" := Str(id)])
                     else Reject(ServerError, "Failed to upload geofile")))
  {
    var check := UploadCheck(form, uploader, sizeDraw);
    if check.Reject? {
      return Reject(check.status, check.message);
    }
    r := CreateGeofile(g, id, check.value, parse, now, "Failed to upload geofile");
  }

  /** `GET /api/geofiles/:id`: 404 for an unknown id; otherwise the record
      as it was read, while its access time is brought up to now. */
  method GetGeofile(g: GeofileCollection, id: Id, now: int) returns (r: Outcome<Doc>)
    requires g.Valid()
    modifies g
    ensures g.Valid()
    ensures id !in old(g.docs) ==> g.docs == old(g.docs) && r == Reject(NotFound, "Geofile not found")
    ensures id in old(g.docs) ==>
      var s := UpdateOne(old(g.docs), g.unique, id, [Set(map["lastAccessedAt" := Date(now)])]);
      && g.docs == s.docs
      && r == (if s.result.Success? then Accept(old(g.docs)[id]["id" := Str(id)]) else Reject(ServerError, "Failed to fetch geofile"))
  {
    var found := g.FindById(id);
    if found.None? {
      return Reject(NotFound, "Geofile not found");
    }
    var touched := g.UpdateAccess(id, now);
    r := if touched.Success? then Accept(found.value["id" := Str(id)]) else Reject(ServerError, "Failed to fetch geofile");
  }

  /** `PUT /api/geofiles/:id` */
  method GeofileUpdateRoute(g: GeofileCollection, id: Id, body: Doc, parse: Parser, now: int) returns (r: Outcome<Doc>)
    requires g.Valid()
    modifies g
    ensures g.Valid()
    ensures ProcessedPatch(body, parse).None? ==> g.docs == old(g.docs) && r == Reject(ServerError, "Failed to update geofile")
    ensures ProcessedPatch(body, parse).Some? ==>
      var step := UpdateOne(old(g.docs), g.unique, id, StampedSet(ProcessedPatch(body, parse).value, now));
      g.docs == step.docs && r == UpdateAnswer(step, id, "Geofile not found", "Failed to update geofile")
  {
    var u := g.Update(id, body, parse, now);
    r := UpdateAnswer(Step(g.docs, u), id, "Geofile not found", "Failed to update geofile");
  }

  /** `DELETE /api/geofiles/:id` */
  method GeofileDeleteRoute(g: GeofileCollection, id: Id) returns (s: Status)
    requires g.Valid()
    modifies g
    ensures g.Valid()
    ensures g.docs == old(g.docs) - {id}
    ensures s == NotFound <==> id !in old(g.docs)
  {
    var deleted := g.Delete(id);
    s := DeleteStatus(deleted);
  }

  /** `POST /api/geofiles/:id/download`: what `incrementDownload` answered
      is not looked at, so an unknown id is answered 200 as well; only an
      error of the store gives 500. */
  method RecordDownload(g: GeofileCollection, id: Id, now: int) returns (s: Status)
    requires g.Valid()
    modifies g
    ensures g.Valid()
    ensures var step := UpdateOne(old(g.docs), g.unique, id, DownloadChanges(now));
      g.docs == step.docs && (s == Ok <==> step.result.Success?) && (s != Ok ==> s == ServerError)
    ensures id !in old(g.docs) ==> s == Ok && g.docs == old(g.docs)
  {
    var r := g.IncrementDownload(id, now);
    s := if r.Success? then Ok else ServerError;
  }

  // ------------------------------------------------------- profile update

  /** The fields a profile update may not set. */
  const ProfileProtected: set<string> := {"password", "_id", "id", "userId"}

  /** `updateData = { ...req.body }` and the four `delete`s. */
  method StripProfilePatch(body: Doc) returns (updateData: Doc)
    ensures updateData.Keys == body.Keys - ProfileProtected
    ensures forall k | k in updateData :: updateData[k] == body[k]
  {
    updateData := body;
    updateData := updateData - {"password"};
    updateData := updateData - {"_id"};
    updateData := updateData - {"id"};
    updateData := updateData - {"userId"};
  }

  /** The fields a profile update answers with besides the id. */
  const ProfileResponseFields: set<string> := {"userId", "username", "firstName", "lastName", "email", "badgeNumber",
    "department", "position", "phone", "role", "isActive", "createdAt", "updatedAt"}

  /** The answer of a profile update: the listed fields of the stored
      profile and its id. */
  function ProfileResponse(pid: Id, p: Doc): (r: Doc)
    ensures r.Keys == ProfileResponseFields + {"id"}
    ensures "password" !in r && r["id"] == Str(pid)
    ensures forall f | f in ProfileResponseFields :: r[f] == Get(p, f)
  {
    (map f | f in ProfileResponseFields :: Get(p, f))["id" := Str(pid)]
  }

  /** The user a profile update is for: the hex text of its id and the
      stored user. */
  datatype Owner = Owner(userId: Id, user: Doc)

  /** The profile created for a user who has none: the owner's id, name,
      role and active flag, then the patch. */
  function NewProfile(o: Owner, patch: Doc): Doc {
    Merge(map[
      "userId" := Str(o.userId),
      "username" := Get(o.user, "username"),
      "role" := Get(o.user, "role"),
      "isActive" := Get(o.user, "isActive")], patch)
  }

  /** The patch a profile update writes: the body without every key
      whose field, before the first dot, is protected, so that neither
      `password` nor `password.x` gets through. */
  function ProfilePatch(body: Doc): (r: Doc)
    ensures forall f | f in ProfileProtected :: f !in Paths.Heads(r)
    ensures forall k | k in r :: k in body && r[k] == body[k]
    ensures forall k | k in body && Paths.Head(k) !in ProfileProtected :: k in r
  {
    Paths.WithoutPathsHeads(body, ProfileProtected);
    Paths.WithoutPaths(body, ProfileProtected)
  }

  /** `PUT /api/profile` on the profiles table. The owner is the session's
      user when it is found, else the user named "admin"; `profile` is the
      id of the owner's profile, when `findByUserId` found one. */
  function ProfileUpdate(docs: map<Id, Doc>, unique: seq<string>, sessionOwner: Option<Owner>, adminOwner: Option<Owner>,
                         profile: Option<Id>, newId: Id, body: Doc, now: int): Answered<Doc> {
    var owner := if sessionOwner.Some? then sessionOwner else adminOwner;
    if owner.None? then Answered(docs, Reject(NotFound, "User not found"))
    else
      var patch := ProfilePatch(body);
      match profile
      case Some(pid) =>
        var s := UpdateOne(docs, unique, pid, StampedSet(patch, now));
        Answered(s.docs,
          if s.result.Failure? then Reject(ServerError, "Failed to update profile")
          else if !s.result.value then Reject(NotFound, "Failed to update profile")
          else if pid in s.docs then Accept(ProfileResponse(pid, s.docs[pid]))
          else Reject(ServerError, "Failed to update profile"))
      case None =>
        var s := InsertOne(docs, unique, newId, Stamped(NewProfile(owner.value, patch), now));
        Answered(s.docs, if s.result.Success? then Accept(ProfileResponse(newId, s.result.value))
                         else Reject(ServerError, "Failed to update profile"))
  }

  /** Without a user nothing changes and the answer is 404; no answer
      holds a password. An existing profile keeps its password, its ids and
      its owner, whatever the body says, dotted paths included. */
  lemma ProfileUpdateProtects(docs: map<Id, Doc>, unique: seq<string>, sessionOwner: Option<Owner>, adminOwner: Option<Owner>,
                              pid: Id, newId: Id, body: Doc, now: int)
    requires UniqueHolds(docs, unique)
    ensures var a := ProfileUpdate(docs, unique, sessionOwner, adminOwner, Some(pid), newId, body, now);
      && (sessionOwner.None? && adminOwner.None? ==> a == Answered(docs, Reject(NotFound, "User not found")))
      && (a.outcome.Accept? ==> "password" !in a.outcome.value)
      && a.docs.Keys == docs.Keys
      && (forall k | k in docs && k != pid :: a.docs[k] == docs[k])
      && (pid in docs ==> forall f | f in ProfileProtected :: Get(a.docs[pid], f) == Get(docs[pid], f))
  {
    var owner := if sessionOwner.Some? then sessionOwner else adminOwner;
    if owner.Some? {
      var patch := ProfilePatch(body);
      var cs := StampedSet(patch, now);
      UpdateOneEffect(docs, unique, pid, cs);
      if pid in docs {
        StampedSetKeeps(docs[pid], patch, ProfileProtected, now);
      }
    }
  }

  /** A stamped `$set` whose keys start with none of `names` leaves the
      fields `names` of the document as they were. */
  lemma StampedSetKeeps(d: Doc, patch: Doc, names: set<string>, now: int)
    requires "updatedAt" !in names
    requires forall f | f in names :: f !in Paths.Heads(patch)
    ensures var r := ApplyChanges(d, StampedSet(patch, now));
      r.Success? ==> forall f | f in names :: Get(r.value, f) == Get(d, f)
  {
    var p := patch["updatedAt" := Date(now)];
    ApplyOne(d, Set(p));
    if ApplyChange(d, Set(p)).Success? {
      Paths.HeadOfPlain("updatedAt");
      Paths.HeadsWith(patch, "updatedAt", Date(now));
      SetEffect(d, p);
    }
  }

  /** The strip as written lets a path under the password through: on a
      profile without a password, the body `{"password.x": v}` gives it
      one. */
  lemma TopLevelStripSetsPassword(docs: map<Id, Doc>, unique: seq<string>, pid: Id, v: Value, now: int)
    requires UniqueHolds(docs, unique) && "password" !in unique && "updatedAt" !in unique
    requires pid in docs && "password" !in docs[pid]
    ensures var s := UpdateOne(docs, unique, pid, StampedSet(Without(map["password.x" := v], ProfileProtected), now));
      && s.result == Success(true)
      && Get(s.docs[pid], "password") == Obj(map["x" := v])
  {
    var d := docs[pid];
    var nd := d["updatedAt" := Date(now)]["password" := Obj(map["x" := v])];
    PasswordPathUpdate(d, v, now);
    KeptKeysNoClash(docs, unique, pid, nd);
    assert nd != d by {
      assert "password" in nd;
    }
  }

  /** The update as written on one profile: `"password.x"` creates the
      password field as an object. */
  lemma PasswordPathUpdate(d: Doc, v: Value, now: int)
    requires "password" !in d
    ensures ApplyChanges(d, StampedSet(Without(map["password.x" := v], ProfileProtected), now)) ==
      Success(d["updatedAt" := Date(now)]["password" := Obj(map["x" := v])])
  {
    assert Without(map["password.x" := v], ProfileProtected) == map["password.x" := v];
    PasswordSet(d, v, now);
  }

  /** The stamped `$set` of `"password.x"` on a profile without a
      password. */
  lemma PasswordSet(d: Doc, v: Value, now: int)
    requires "password" !in d
    ensures ApplyChanges(d, StampedSet(map["password.x" := v], now)) ==
      Success(d["updatedAt" := Date(now)]["password" := Obj(map["x" := v])])
  {
    PasswordPath();
    assert Get(d, "password") == Undefined;
    StampedPathSet(d, "password.x", v, Obj(map["x" := v]), now);
  }

  /** "password.x" writes field "x" inside the password, and "updatedAt"
      is a plain name. */
  lemma PasswordPath()
    ensures Paths.Dotted("password.x") && Paths.Head("password.x") == "password"
    ensures Paths.Tail("password.x") == "x" && !Paths.Dotted("x")
    ensures !Paths.Dotted("updatedAt") && Paths.Head("updatedAt") == "updatedAt"
  {
    Paths.HeadOfPath("password", "x");
    assert "password" + "." + "x" == "password.x";
    Paths.HeadOfPlain("updatedAt");
  }

  /** A user without a profile gets a new one that belongs to them,
      whatever the body says, under the new id; nothing else changes. */
  lemma ProfileCreateOwned(docs: map<Id, Doc>, unique: seq<string>, sessionOwner: Option<Owner>, adminOwner: Option<Owner>,
                           newId: Id, body: Doc, now: int)
    requires UniqueHolds(docs, unique)
    ensures var a := ProfileUpdate(docs, unique, sessionOwner, adminOwner, None, newId, body, now);
      var owner := if sessionOwner.Some? then sessionOwner else adminOwner;
      && (a.outcome.Accept? ==>
            && owner.Some?
            && a.docs == docs[newId := a.docs[newId]]
            && newId !in docs
            && Get(a.docs[newId], "userId") == Str(owner.value.userId)
            && a.outcome.value["userId"] == Str(owner.value.userId)
            && "password" !in a.docs[newId])
      && (a.outcome.Reject? ==> a.docs == docs)
  {
    var owner := if sessionOwner.Some? then sessionOwner else adminOwner;
    if owner.Some? {
      var d := Stamped(NewProfile(owner.value, ProfilePatch(body)), now);
      NewProfileOwned(owner.value, body, now);
      InsertOneEffect(docs, unique, newId, d);
    }
  }

  /** A new profile belongs to its owner and holds no password, whatever
      the body says. */
  lemma NewProfileOwned(o: Owner, body: Doc, now: int)
    ensures var d := Stamped(NewProfile(o, ProfilePatch(body)), now);
      Get(d, "userId") == Str(o.userId) && "password" !in d
  {
    var patch := ProfilePatch(body);
    assert "userId" !in patch && "password" !in patch by {
      Paths.HeadOfPlain("userId");
      Paths.HeadOfPlain("password");
    }
    var np := NewProfile(o, patch);
    assert np["userId"] == Str(o.userId);
    assert "password" !in np;
  }

  /** The profile update handler over the profiles collection. */
  method UpdateProfile(profiles: Collection, sessionOwner: Option<Owner>, adminOwner: Option<Owner>,
                       profile: Option<Id>, newId: Id, body: Doc, now: int) returns (r: Outcome<Doc>)
    requires profiles.Valid()
    modifies profiles
    ensures profiles.Valid()
    ensures Answered(profiles.docs, r) ==
      ProfileUpdate(old(profiles.docs), profiles.unique, sessionOwner, adminOwner, profile, newId, body, now)
  {
    var owner := if sessionOwner.Some? then sessionOwner else adminOwner;
    if owner.None? {
      return Reject(NotFound, "User not found");
    }
    var updateData := ProfilePatch(body);
    match profile
    case Some(pid) =>
      var updated := profiles.Update(pid, updateData, now);
      if updated.Failure? {
        r := Reject(ServerError, "Failed to update profile");
      } else if !updated.value {
        r := Reject(NotFound, "Failed to update profile");
      } else {
        var p := profiles.FindById(pid);
        r := if p.Some? then Accept(ProfileResponse(pid, p.value)) else Reject(ServerError, "Failed to update profile");
      }
    case None =>
      var created := profiles.Create(newId, NewProfile(owner.value, updateData), now);
      r := if created.Success? then Accept(ProfileResponse(newId, created.value)) else Reject(ServerError, "Failed to update profile");
  }
}
