/** The handlers of `server/evidence-routes.js`: they check the required
    fields of a request, fill in defaults, and hand the record to the
    evidence collection, answering 404 when it reports an unknown id. */
module EvidenceRoutes {
  import opened Base
  import opened Json
  import opened Store
  import opened EvidenceStore

  /** `{ id, ...doc }`: the id first, so a stored `id` field wins. */
  function WithIdFirst(id: Id, d: Doc): (r: Doc)
    ensures r.Keys == d.Keys + {"id"}
    ensures "id" !in d ==> r["id"] == Str(id)
    ensures forall k | k in d :: r[k] == d[k]
  {
    Merge(map["id" := Str(id)], d)
  }

  // ------------------------------------------------------------- creation

  /** `{ ...req.body, collectedBy: req.body.collectedBy || 'Unknown Officer' }` */
  function EvidenceInput(body: Doc): (r: Doc)
    ensures r.Keys == body.Keys + {"collectedBy"}
    ensures r["collectedBy"] == Or(Get(body, "collectedBy"), Str("Unknown Officer"))
    ensures forall k | k in body && k != "collectedBy" :: r[k] == body[k]
  {
    body["collectedBy" := Or(Get(body, "collectedBy"), Str("Unknown Officer"))]
  }

  /** `POST /api/evidence` before the store: type, description and
      location are required. */
  function EvidenceCheck(body: Doc): (r: Outcome<Doc>)
    ensures r.Reject? <==> !Truthy(Get(body, "type")) || !Truthy(Get(body, "description")) || !Truthy(Get(body, "location"))
    ensures r.Reject? ==> r == Reject(BadRequest, "Missing required fields: type, description, location")
    ensures r.Accept? ==> r.value == EvidenceInput(body)
  {
    var data := EvidenceInput(body);
    if !Truthy(Get(data, "type")) || !Truthy(Get(data, "description")) || !Truthy(Get(data, "location")) then
      Reject(BadRequest, "Missing required fields: type, description, location")
    else Accept(data)
  }

  /** How a failed `create` is answered: a duplicate key (error code
      11000) is a conflict, anything else 500. */
  function CreateFailure(e: Fault): (r: Outcome<Doc>)
    ensures r.Reject? && (r.status == Conflict <==> e.DuplicateKey?)
    ensures r.Reject? && (r.status == ServerError <==> !e.DuplicateKey?)
  {
    if e.DuplicateKey? then Reject(Conflict, "Evidence number already exists")
    else Reject(ServerError, "Failed to create evidence")
  }

  /** The whole of `POST /api/evidence`: the check, then `create`. */
  function EvidenceCreation(docs: map<Id, Doc>, unique: seq<string>, id: Id, body: Doc,
                            year: int, random: string, now: int): Answered<Doc> {
    match EvidenceCheck(body)
    case Reject(st, m) => Answered(docs, Reject(st, m))
    case Accept(data) =>
      var s := InsertOne(docs, unique, id, EvidenceDoc(data, year, random, now));
      Answered(s.docs, if s.result.Success? then Accept(WithIdFirst(id, s.result.value)) else CreateFailure(s.result.error))
  }

  /** A refused request creates nothing; an evidence number already taken
      (or any other unique value) is a conflict and creates nothing; an
      accepted one stores exactly the document `create` builds from the
      defaulted input, under its id, and answers it with that id. */
  lemma EvidenceCreationEffect(docs: map<Id, Doc>, unique: seq<string>, id: Id, body: Doc,
                               year: int, random: string, now: int)
    requires UniqueHolds(docs, unique)
    ensures var a := EvidenceCreation(docs, unique, id, body, year, random, now);
      var d := EvidenceDoc(EvidenceInput(body), year, random, now);
      && UniqueHolds(a.docs, unique)
      && (a.outcome.Reject? ==> a.docs == docs)
      && (a.outcome.Reject? && a.outcome.status == BadRequest <==> EvidenceCheck(body).Reject?)
      && (a.outcome.Reject? && a.outcome.status == Conflict <==>
            EvidenceCheck(body).Accept? && (id in docs || FirstClash(docs, unique, d).Some?))
      && (a.outcome.Accept? <==> EvidenceCheck(body).Accept? && id !in docs && FirstClash(docs, unique, d).None?)
      && (a.outcome.Accept? ==> a.docs == docs[id := d] && a.outcome.value == WithIdFirst(id, d))
  {
    if EvidenceCheck(body).Accept? {
      InsertOneEffect(docs, unique, id, EvidenceDoc(EvidenceInput(body), year, random, now));
    }
  }

  /** The item a creation stores has a one-entry custody log whose officer
      is the collecting officer, or "Unknown Officer" when none is given. */
  lemma EvidenceCreationCustody(body: Doc, year: int, random: string, now: int)
    ensures var d := EvidenceDoc(EvidenceInput(body), year, random, now);
      var officer := Or(Get(body, "collectedBy"), Str("Unknown Officer"));
      && WellFormed(d)
      && |CustodyLog(d)| == 1
      && CustodyLog(d)[0].Obj?
      && Get(CustodyLog(d)[0].fields, "officer") == officer
      && Get(CustodyLog(d)[0].fields, "action") == Str("collected")
  {
    var data := EvidenceInput(body);
    EvidenceDocCustodySeed(data, year, random, now);
    assert Get(data, "collectedBy") == Or(Get(body, "collectedBy"), Str("Unknown Officer"));
  }

  /** The item a creation stores names the same officer as collector, never
      a falsy one, and keeps a given evidence number. */
  lemma EvidenceCreationCollector(body: Doc, year: int, random: string, now: int)
    ensures var d := EvidenceDoc(EvidenceInput(body), year, random, now);
      var officer := Or(Get(body, "collectedBy"), Str("Unknown Officer"));
      && d["collectedBy"] == officer && Truthy(officer)
      && (Truthy(Get(body, "evidenceNumber")) ==> d["evidenceNumber"] == body["evidenceNumber"])
  {
    var data := EvidenceInput(body);
    EvidenceDocDefaults(data, year, random, now);
    assert Get(data, "evidenceNumber") == Get(body, "evidenceNumber");
    assert "collectedBy" !in EvidenceFields(data, year, random, now);
  }

  /** The handler of `POST /api/evidence`. */
  method CreateEvidence(ev: EvidenceCollection, id: Id, body: Doc, year: int, random: string, now: int)
    returns (r: Outcome<Doc>)
    requires ev.Valid()
    modifies ev
    ensures ev.Valid()
    ensures Answered(ev.docs, r) == EvidenceCreation(old(ev.docs), ev.unique, id, body, year, random, now)
  {
    var check := EvidenceCheck(body);
    if check.Reject? {
      return Reject(check.status, check.message);
    }
    var created := ev.Create(id, check.value, year, random, now);
    r := if created.Success? then Accept(WithIdFirst(id, created.value)) else CreateFailure(created.error);
  }

  // -------------------------------------------------------------- custody

  /** `POST /api/evidence/:id/custody` before the store: action and
      officer are required, notes and location default to "". */
  function CustodyEntryCheck(body: Doc, now: int): (r: Outcome<Doc>)
    ensures r.Reject? <==> !Truthy(Get(body, "action")) || !Truthy(Get(body, "officer"))
    ensures r.Reject? ==> r == Reject(BadRequest, "Missing required fields: action, officer")
    ensures r.Accept? ==>
      && r.value.Keys == {"action", "officer", "notes", "location", "timestamp"}
      && r.value["action"] == body["action"] && r.value["officer"] == body["officer"]
      && r.value["notes"] == Or(Get(body, "notes"), Str(""))
      && r.value["location"] == Or(Get(body, "location"), Str(""))
  {
    if !Truthy(Get(body, "action")) || !Truthy(Get(body, "officer")) then
      Reject(BadRequest, "Missing required fields: action, officer")
    else
      Accept(map[
        "action" := body["action"],
        "officer" := body["officer"],
        "notes" := Or(Get(body, "notes"), Str("")),
        "location" := Or(Get(body, "location"), Str("")),
        "timestamp" := Date(now)])
  }

  /** How an `addCustodyEntry` or `addMedia` answer becomes the response. */
  function AppendAnswer(r: Result<bool>, failed: string): (o: Outcome<()>)
    ensures o.Accept? <==> r == Success(true)
    ensures o.Reject? && o.status == NotFound <==> r == Success(false)
  {
    match r
    case Failure(_) => Reject(ServerError, failed)
    case Success(true) => Accept(())
    case Success(false) => Reject(NotFound, "Evidence not found")
  }

  /** The handler of `POST /api/evidence/:id/custody`. */
  method AddCustody(ev: EvidenceCollection, id: Id, body: Doc, now: int) returns (r: Outcome<()>)
    requires ev.Valid()
    modifies ev
    ensures ev.Valid()
    ensures CustodyEntryCheck(body, now).Reject? ==>
      ev.docs == old(ev.docs) && r == Reject(BadRequest, "Missing required fields: action, officer")
    ensures CustodyEntryCheck(body, now).Accept? ==>
      var s := UpdateOne(old(ev.docs), ev.unique, id, CustodyChanges(CustodyEntryCheck(body, now).value, now));
      ev.docs == s.docs && r == AppendAnswer(s.result, "Failed to add custody entry")
  {
    var check := CustodyEntryCheck(body, now);
    if check.Reject? {
      return Reject(check.status, check.message);
    }
    var added := ev.AddCustodyEntry(id, check.value, now);
    r := AppendAnswer(added, "Failed to add custody entry");
  }

  /** A custody request with action and officer on a stored item appends
      exactly one entry to its log, carrying that action and officer, and
      is answered 200; on an unknown id it changes nothing and is answered
      404. */
  lemma CustodyRouteEffect(docs: map<Id, Doc>, unique: seq<string>, id: Id, body: Doc, now: int)
    requires UniqueHolds(docs, unique) && WritableUnique(unique)
    requires forall k | k in docs :: WellFormed(docs[k])
    requires Truthy(Get(body, "action")) && Truthy(Get(body, "officer"))
    ensures var entry := CustodyEntryCheck(body, now).value;
      var s := UpdateOne(docs, unique, id, CustodyChanges(entry, now));
      var r := AppendAnswer(s.result, "Failed to add custody entry");
      && (id !in docs ==> r == Reject(NotFound, "Evidence not found") && s.docs == docs)
      && (id in docs ==>
            && r == Accept(())
            && |CustodyLog(s.docs[id])| == |CustodyLog(docs[id])| + 1
            && CustodyLog(s.docs[id])[..|CustodyLog(docs[id])|] == CustodyLog(docs[id])
            && var last := CustodyLog(s.docs[id])[|CustodyLog(docs[id])|];
               last.Obj? && Get(last.fields, "action") == body["action"] && Get(last.fields, "officer") == body["officer"])
  {
    var entry := CustodyEntryCheck(body, now).value;
    AddCustodyEntryEffect(docs, unique, id, entry, now);
    if id in docs {
      var s := UpdateOne(docs, unique, id, CustodyChanges(entry, now));
      var e := Obj(entry["timestamp" := Date(now)]);
      assert CustodyLog(s.docs[id]) == CustodyLog(docs[id]) + [e];
      assert CustodyLog(s.docs[id])[|CustodyLog(docs[id])|] == e;
    }
  }

  // ---------------------------------------------------------------- media

  /** `POST /api/evidence/:id/media` before the store: name, url and type
      are required, the uploader defaults to "Unknown". */
  function MediaCheck(body: Doc, now: int): (r: Outcome<Doc>)
    ensures r.Reject? <==> !Truthy(Get(body, "name")) || !Truthy(Get(body, "url")) || !Truthy(Get(body, "type"))
    ensures r.Reject? ==> r == Reject(BadRequest, "Missing required fields: name, url, type")
    ensures r.Accept? ==>
      && r.value.Keys == {"name", "url", "type", "uploadedBy", "uploadedAt"}
      && r.value["name"] == body["name"] && r.value["url"] == body["url"] && r.value["type"] == body["type"]
      && r.value["uploadedBy"] == Or(Get(body, "uploadedBy"), Str("Unknown"))
  {
    if !Truthy(Get(body, "name")) || !Truthy(Get(body, "url")) || !Truthy(Get(body, "type")) then
      Reject(BadRequest, "Missing required fields: name, url, type")
    else
      Accept(map[
        "name" := body["name"],
        "url" := body["url"],
        "type" := body["type"],
        "uploadedBy" := Or(Get(body, "uploadedBy"), Str("Unknown")),
        "uploadedAt" := Date(now)])
  }

  /** The handler of `POST /api/evidence/:id/media`. */
  method AddMediaRoute(ev: EvidenceCollection, id: Id, body: Doc, now: int) returns (r: Outcome<()>)
    requires ev.Valid()
    modifies ev
    ensures ev.Valid()
    ensures MediaCheck(body, now).Reject? ==>
      ev.docs == old(ev.docs) && r == Reject(BadRequest, "Missing required fields: name, url, type")
    ensures MediaCheck(body, now).Accept? ==>
      var s := UpdateOne(old(ev.docs), ev.unique, id, MediaChanges(MediaCheck(body, now).value, now));
      ev.docs == s.docs && r == AppendAnswer(s.result, "Failed to add media")
  {
    var check := MediaCheck(body, now);
    if check.Reject? {
      return Reject(check.status, check.message);
    }
    var added := ev.AddMedia(id, check.value, now);
    r := AppendAnswer(added, "Failed to add media");
  }

  /** A media request with name, url and type is answered 404 exactly for
      an unknown id, which it leaves unchanged; on a stored item whose
      media is an array (or absent) it appends the file and leaves the
      custody log as it was. */
  lemma MediaRouteEffect(docs: map<Id, Doc>, unique: seq<string>, id: Id, body: Doc, now: int)
    requires UniqueHolds(docs, unique) && WritableUnique(unique)
    requires forall k | k in docs :: WellFormed(docs[k])
    requires MediaCheck(body, now).Accept?
    ensures var media := MediaCheck(body, now).value;
      var s := UpdateOne(docs, unique, id, MediaChanges(media, now));
      var r := AppendAnswer(s.result, "Failed to add media");
      && (r.Reject? && r.status == NotFound <==> id !in docs)
      && (id !in docs ==> s.docs == docs)
      && (id in docs && ("media" !in docs[id] || docs[id]["media"].Arr?) ==>
            r == Accept(()) && CustodyLog(s.docs[id]) == CustodyLog(docs[id]))
  {
    AddMediaEffect(docs, unique, id, MediaCheck(body, now).value, now);
  }

  // -------------------------------------------------------------- listing

  /** The fields of an entry of `GET /api/evidence` besides the id. */
  const ListFields: set<string> := {"evidenceNumber", "type", "description", "location", "chain_of_custody",
    "status", "collectedAt", "collectedBy", "caseId", "obId", "media", "custodyLog", "tags", "weight",
    "dimensions", "serialNumber", "condition", "storageLocation", "evidenceRoom", "priority", "isSealed",
    "bagsSealed", "photographed", "fingerprinted", "dnaCollected", "notes", "createdAt", "updatedAt"}

  /** One field of a listed item: the collecting officer defaults to
      "Unknown Officer" and the three lists to empty. */
  function ListedValue(item: Doc, f: string): Value {
    if f == "collectedBy" then Or(Get(item, f), Str("Unknown Officer"))
    else if f == "media" || f == "custodyLog" || f == "tags" then Or(Get(item, f), Arr([]))
    else Get(item, f)
  }

  /** An entry of `GET /api/evidence`. */
  function ListedEvidence(id: Id, item: Doc): (r: Doc)
    ensures r.Keys == ListFields + {"id"}
    ensures r["id"] == Str(id)
  {
    (map f | f in ListFields :: ListedValue(item, f))["id" := Str(id)]
  }

  /** Every listed item names its collecting officer and carries arrays of
      media, custody entries and tags: given values are kept, missing ones
      become "Unknown Officer" and empty arrays; the custody log of a
      well-formed item is listed as stored. */
  lemma ListedEvidenceDefaults(id: Id, item: Doc)
    ensures var r := ListedEvidence(id, item);
      && r["collectedBy"] == Or(Get(item, "collectedBy"), Str("Unknown Officer")) && Truthy(r["collectedBy"])
      && r["media"] == Or(Get(item, "media"), Arr([]))
      && r["tags"] == Or(Get(item, "tags"), Arr([]))
      && (!Truthy(Get(item, "media")) ==> r["media"] == Arr([]))
      && (!Truthy(Get(item, "tags")) ==> r["tags"] == Arr([]))
      && (WellFormed(item) ==> r["custodyLog"] == item["custodyLog"])
  {
    var r := ListedEvidence(id, item);
    assert r["collectedBy"] == ListedValue(item, "collectedBy");
    assert r["media"] == ListedValue(item, "media");
    assert r["tags"] == ListedValue(item, "tags");
    assert r["custodyLog"] == ListedValue(item, "custodyLog");
  }

  /** `GET /api/evidence`: one entry per item, in scan order. */
  function EvidenceList(docs: map<Id, Doc>, ids: seq<Id>): (r: seq<Doc>)
    requires forall i | 0 <= i < |ids| :: ids[i] in docs
    ensures |r| == |ids|
    ensures forall i | 0 <= i < |r| :: r[i] == ListedEvidence(ids[i], docs[ids[i]])
  {
    seq(|ids|, i requires 0 <= i < |ids| => ListedEvidence(ids[i], docs[ids[i]]))
  }

  // ------------------------------------------------- lookup, update, delete

  /** `GET /api/evidence/:id` */
  function GetEvidence(docs: map<Id, Doc>, id: Id): (r: Outcome<Doc>)
    ensures r.Reject? <==> id !in docs
    ensures r.Reject? ==> r == Reject(NotFound, "Evidence not found")
    ensures r.Accept? ==> r.value == WithIdFirst(id, docs[id])
  {
    if id !in docs then Reject(NotFound, "Evidence not found") else Accept(WithIdFirst(id, docs[id]))
  }

  /** How `PUT /api/evidence/:id` answers what `update` returned. */
  function UpdateAnswer(s: Step<bool>, id: Id): (r: Outcome<Doc>)
    ensures r.Reject? && r.status == NotFound <==> s.result == Success(false)
    ensures r.Accept? <==> s.result == Success(true) && id in s.docs
  {
    match s.result
    case Failure(_) => Reject(ServerError, "Failed to update evidence")
    case Success(false) => Reject(NotFound, "Evidence not found")
    case Success(true) =>
      if id in s.docs then Accept(WithIdFirst(id, s.docs[id])) else Reject(ServerError, "Failed to update evidence")
  }

  /** The handler of `PUT /api/evidence/:id`. */
  method UpdateEvidence(ev: EvidenceCollection, id: Id, body: Doc, now: int) returns (r: Outcome<Doc>)
    requires ev.Valid()
    modifies ev
    ensures ev.Valid()
    ensures var s := UpdateOne(old(ev.docs), ev.unique, id, SafeUpdate(body, now));
      ev.docs == s.docs && r == UpdateAnswer(s, id)
  {
    var updated := ev.Update(id, body, now);
    r := UpdateAnswer(Step(ev.docs, updated), id);
  }

  /** An evidence update is answered 404 exactly for an unknown id; an
      accepted one answers the item with its custody log, evidence number
      and creation time as they were. */
  lemma UpdateEvidenceAnswer(docs: map<Id, Doc>, unique: seq<string>, id: Id, body: Doc, now: int)
    requires UniqueHolds(docs, unique)
    requires forall k | k in docs :: WellFormed(docs[k])
    requires id in docs ==> Get(docs[id], "updatedAt") != Date(now)
    ensures var s := UpdateOne(docs, unique, id, SafeUpdate(body, now));
      var r := UpdateAnswer(s, id);
      && (r.Reject? && r.status == NotFound <==> id !in docs)
      && (r.Accept? ==> forall f | f in Protected :: Get(r.value, f) == Get(docs[id], f))
  {
    var cs := SafeUpdate(body, now);
    var s := UpdateOne(docs, unique, id, cs);
    assert LastSets(cs, "updatedAt", Date(now));
    UpdateOneEffect(docs, unique, id, cs);
    if id in docs {
      FreshStampModifies(docs, unique, id, cs, "updatedAt", Date(now));
    }
    if UpdateAnswer(s, id).Accept? {
      UpdateProtects(docs, unique, id, body, now);
      ProtectedBesideId(id, s.docs[id]);
    }
  }

  /** Putting the id in front changes none of the protected fields. */
  lemma ProtectedBesideId(id: Id, d: Doc)
    ensures forall f | f in Protected :: Get(WithIdFirst(id, d), f) == Get(d, f)
  {
    assert "id" !in Protected;
  }

  /** The handler of `DELETE /api/evidence/:id`: 404 exactly when nothing
      was deleted. */
  method DeleteEvidence(ev: EvidenceCollection, id: Id) returns (r: Outcome<()>)
    requires ev.Valid()
    modifies ev
    ensures ev.Valid()
    ensures ev.docs == old(ev.docs) - {id}
    ensures r.Reject? <==> id !in old(ev.docs)
    ensures r.Reject? ==> r == Reject(NotFound, "Evidence not found")
  {
    var deleted := ev.Delete(id);
    r := if deleted then Accept(()) else Reject(NotFound, "Evidence not found");
  }
}
