/** The document store as the CRUD layer uses it: a collection is a table
    from document id to document. `insertOne`, `updateOne` with the `$set`,
    `$push` and `$inc` operators, and `deleteOne` are given as functions
    from the old table to the new table and the answer; `Collection` is the
    table the generic CRUD objects (users, cases, occurrence-book entries,
    licence plates, vehicles, profiles, officers, reports) change in place. */
module Store {
  import opened Base
  import opened Json
  import Text
  import Paths

  /** The hexadecimal text of a document's ObjectId. */
  type Id = string

  /** The errors the store raises; the route handlers answer them with 500,
      except where they look for the duplicate-key code 11000. */
  datatype Fault =
    | DuplicateKey(field: string)   // error code 11000
    | ImmutableId                   // a `$set` that writes `_id` or a path inside it
    | BadPath                       // a `$set` whose keys the store refuses (see Paths)
    | NotAnArray(field: string)     // `$push` onto a field holding no array
    | NotANumber(field: string)     // `$inc` of a field holding no number
    | InvalidJson                   // `JSON.parse` threw

  datatype Result<+T> = Success(value: T) | Failure(error: Fault)

  /** A table and the answer an operation on it gave. */
  datatype Step<+T> = Step(docs: map<Id, Doc>, result: Result<T>)

  /** A route handler's answer together with the table it leaves behind. */
  datatype Answered<+T> = Answered(docs: map<Id, Doc>, outcome: Outcome<T>)

  /** One update operator of an `updateOne` call. */
  datatype Change =
    | Set(fields: Doc)                  // `$set: fields`
    | Push(field: string, item: Value)  // `$push: { field: item }`
    | Inc(field: string, amount: int)   // `$inc: { field: amount }`

  /** One operator applied to one document. */
  function ApplyChange(d: Doc, c: Change): Result<Doc> {
    match c
    case Set(fields) =>
      if exists k | k in fields :: Paths.Head(k) == "_id" then Failure(ImmutableId)
      else
        var r := Paths.SetPaths(d, fields);
        if r.None? then Failure(BadPath) else Success(r.value)
    case Push(f, item) =>
      if f !in d then Success(d[f := Arr([item])])
      else if d[f].Arr? then Success(d[f := Arr(d[f].items + [item])])
      else Failure(NotAnArray(f))
    case Inc(f, amount) =>
      if f !in d then Success(d[f := Num(amount)])
      else if d[f].Num? then Success(d[f := Num(d[f].n + amount)])
      else Failure(NotANumber(f))
  }

  /** The operators of one `updateOne` call applied in turn. */
  function ApplyChanges(d: Doc, cs: seq<Change>): Result<Doc>
    decreases |cs|
  {
    if |cs| == 0 then Success(d)
    else
      match ApplyChange(d, cs[0])
      case Failure(e) => Failure(e)
      case Success(d') => ApplyChanges(d', cs[1..])
  }

  /** A list of one operator applies that operator. */
  lemma ApplyOne(d: Doc, c: Change)
    ensures ApplyChanges(d, [c]) == ApplyChange(d, c)
  {
    assert [c][1..] == [];
  }

  /** A `$set` whose keys are plain field names other than `_id` merges
      them into the document. */
  lemma SetPlain(d: Doc, fields: Doc)
    requires forall k | k in fields :: !Paths.Dotted(k) && k != "" && k != "_id"
    ensures ApplyChange(d, Set(fields)) == Success(Merge(d, fields))
  {
    forall k | k in fields
      ensures Paths.Head(k) == k
    {
      Paths.HeadOfPlain(k);
    }
    Paths.SetInPlain(d, fields, Paths.KeyBound(fields));
  }

  /** A `$set` of one plain field other than `_id`. */
  lemma SetOne(d: Doc, f: string, v: Value)
    requires !Paths.Dotted(f) && f != "" && f != "_id"
    ensures ApplyChange(d, Set(map[f := v])) == Success(d[f := v])
  {
    SetPlain(d, map[f := v]);
    assert Merge(d, map[f := v]) == d[f := v];
  }

  /** A `$set` whose keys all leave `_id` alone does what its paths
      write, or fails on a path the store refuses. */
  lemma SetPathsApplied(d: Doc, fields: Doc, r: Doc)
    requires forall k | k in fields :: Paths.Head(k) != "_id"
    requires Paths.SetPaths(d, fields) == Some(r)
    ensures ApplyChange(d, Set(fields)) == Success(r)
  {
  }

  /** A `$set` that names `_id`, plainly or as the start of a path, fails. */
  lemma SetId(d: Doc, fields: Doc)
    requires "_id" in fields
    ensures ApplyChange(d, Set(fields)) == Failure(ImmutableId)
  {
    Paths.HeadOfPlain("_id");
  }

  /** A `$set` the store accepts writes every plain key, keeps every field
      no key starts with, and adds no field but those the keys start
      with. */
  lemma SetEffect(d: Doc, fields: Doc)
    requires ApplyChange(d, Set(fields)).Success?
    ensures var r := ApplyChange(d, Set(fields)).value;
      && r.Keys == d.Keys + Paths.Heads(fields)
      && (forall f | f in fields && !Paths.Dotted(f) :: r[f] == fields[f])
      && (forall f | f !in Paths.Heads(fields) :: Get(r, f) == Get(d, f))
  {
    Paths.SetInEffect(d, fields, Paths.KeyBound(fields));
  }

  /** Applying a list and then one more operator is applying the longer
      list. */
  lemma {:induction false} ApplyChangesSnoc(d: Doc, cs: seq<Change>, c: Change)
    ensures ApplyChanges(d, cs + [c]) ==
      match ApplyChanges(d, cs)
      case Failure(e) => Failure(e)
      case Success(d') => ApplyChange(d', c)
    decreases |cs|
  {
    if |cs| > 0 {
      assert (cs + [c])[1..] == cs[1..] + [c];
      match ApplyChange(d, cs[0])
      case Failure(e) =>
      case Success(d') => ApplyChangesSnoc(d', cs[1..], c);
    }
  }

  /** The key a unique index records for field `f`: an absent field is
      indexed as null. */
  function IndexKey(d: Doc, f: string): Value {
    var v := Get(d, f);
    if v.Undefined? then Null else v
  }

  /** The first unique field on which `d` collides with a document of
      `others`, if any. */
  function FirstClash(others: map<Id, Doc>, unique: seq<string>, d: Doc): (r: Option<string>)
    ensures r.Some? ==> r.value in unique
    ensures r.Some? ==> exists id | id in others :: IndexKey(others[id], r.value) == IndexKey(d, r.value)
    ensures r.None? <==> forall f, id | f in unique && id in others :: IndexKey(others[id], f) != IndexKey(d, f)
  {
    if |unique| == 0 then None
    else if exists id | id in others :: IndexKey(others[id], unique[0]) == IndexKey(d, unique[0]) then Some(unique[0])
    else
      var r := FirstClash(others, unique[1..], d);
      assert forall f | f in unique :: f == unique[0] || f in unique[1..];
      r
  }

  /** No two documents share a value on a field with a unique index. */
  ghost predicate UniqueHolds(docs: map<Id, Doc>, unique: seq<string>) {
    forall a, b, f | a in docs && b in docs && a != b && f in unique :: IndexKey(docs[a], f) != IndexKey(docs[b], f)
  }

  /** The equality condition `{ f: v }` of a query: the field holds `v`,
      or holds an array with `v` among its elements. */
  predicate FieldMatches(d: Doc, f: string, v: Value) {
    Get(d, f) == v || (Get(d, f).Arr? && v in Get(d, f).items)
  }

  /** `findOne({ f: v })` finds a document. */
  predicate HasMatch(docs: map<Id, Doc>, f: string, v: Value) {
    exists id | id in docs :: FieldMatches(docs[id], f, v)
  }

  /** `insertOne(d)`, the driver having generated the id `id`: a duplicate
      id or a collision on a unique index fails and changes nothing. */
  function InsertOne(docs: map<Id, Doc>, unique: seq<string>, id: Id, d: Doc): Step<Doc> {
    if id in docs then Step(docs, Failure(DuplicateKey("_id")))
    else
      match FirstClash(docs, unique, d)
      case Some(f) => Step(docs, Failure(DuplicateKey(f)))
      case None => Step(docs[id := d], Success(d))
  }

  /** `updateOne({_id: id}, cs)`, answering `modifiedCount > 0`: no match
      answers false; a document that the operators leave as it was is not
      modified; a failing operator or a unique-index collision changes
      nothing. */
  function UpdateOne(docs: map<Id, Doc>, unique: seq<string>, id: Id, cs: seq<Change>): Step<bool> {
    if id !in docs then Step(docs, Success(false))
    else
      match ApplyChanges(docs[id], cs)
      case Failure(e) => Step(docs, Failure(e))
      case Success(nd) =>
        match FirstClash(docs - {id}, unique, nd)
        case Some(f) => Step(docs, Failure(DuplicateKey(f)))
        case None => Step(docs[id := nd], Success(nd != docs[id]))
  }

  /** A refused insert leaves the collection as it was. */
  lemma InsertOneFailureKeeps(docs: map<Id, Doc>, unique: seq<string>, id: Id, d: Doc)
    ensures var s := InsertOne(docs, unique, id, d); s.result.Failure? ==> s.docs == docs
  {
  }

  /** An insert keeps every stored document, adds the new one under its id
      on success, and keeps the unique indexes free of duplicates. */
  lemma InsertOneEffect(docs: map<Id, Doc>, unique: seq<string>, id: Id, d: Doc)
    requires UniqueHolds(docs, unique)
    ensures var s := InsertOne(docs, unique, id, d);
      && UniqueHolds(s.docs, unique)
      && (s.result.Success? <==> id !in docs && FirstClash(docs, unique, d).None?)
      && (s.result.Success? ==> s.docs == docs[id := d] && s.result.value == d)
      && (s.result.Failure? ==> s.docs == docs && s.result.error.DuplicateKey?)
  {
    var s := InsertOne(docs, unique, id, d);
    if s.result.Success? {
      forall a, b, f | a in s.docs && b in s.docs && a != b && f in unique
        ensures IndexKey(s.docs[a], f) != IndexKey(s.docs[b], f)
      {
        if a == id {
          assert IndexKey(docs[b], f) != IndexKey(d, f);
        } else if b == id {
          assert IndexKey(docs[a], f) != IndexKey(d, f);
        }
      }
    }
  }

  /** An update changes at most the document it names, keeps the set of
      ids, changes nothing when it fails, and keeps the unique indexes free
      of duplicates. */
  lemma UpdateOneEffect(docs: map<Id, Doc>, unique: seq<string>, id: Id, cs: seq<Change>)
    requires UniqueHolds(docs, unique)
    ensures var s := UpdateOne(docs, unique, id, cs);
      && UniqueHolds(s.docs, unique)
      && s.docs.Keys == docs.Keys
      && (forall k | k in docs && k != id :: s.docs[k] == docs[k])
      && (s.result.Failure? ==> s.docs == docs)
      && (id !in docs ==> s == Step(docs, Success(false)))
      && (s.result.Success? && id in docs ==> Success(s.docs[id]) == ApplyChanges(docs[id], cs))
      && (s.result == Success(true) <==> id in docs && s.result.Success? && s.docs[id] != docs[id])
  {
    var s := UpdateOne(docs, unique, id, cs);
    if id in docs && s.result.Success? {
      var nd := s.docs[id];
      forall a, b, f | a in s.docs && b in s.docs && a != b && f in unique
        ensures IndexKey(s.docs[a], f) != IndexKey(s.docs[b], f)
      {
        if a == id {
          assert b in docs - {id};
        } else if b == id {
          assert a in docs - {id};
        }
      }
    }
  }

  /** A document whose fields under unique indexes keep their values
      cannot collide with the others. */
  lemma KeptKeysNoClash(docs: map<Id, Doc>, unique: seq<string>, id: Id, nd: Doc)
    requires UniqueHolds(docs, unique) && id in docs
    requires forall f | f in unique :: IndexKey(nd, f) == IndexKey(docs[id], f)
    ensures FirstClash(docs - {id}, unique, nd).None?
  {
    forall f, k | f in unique && k in docs - {id}
      ensures IndexKey((docs - {id})[k], f) != IndexKey(nd, f)
    {
      assert IndexKey(docs[k], f) != IndexKey(docs[id], f);
    }
  }

  /** The changes of an update whose last operator `$set`s field `f` to
      `v`: its result holds `v` in `f`. */
  predicate LastSets(cs: seq<Change>, f: string, v: Value) {
    && !Paths.Dotted(f)
    && |cs| > 0 && cs[|cs| - 1].Set? && f in cs[|cs| - 1].fields && cs[|cs| - 1].fields[f] == v
  }

  /** Every update `$set`s a fresh `updatedAt`, so a successful update of a
      document whose stamp differs from the new one always reports it
      modified: `modifiedCount > 0` then means exactly "the id exists". */
  lemma FreshStampModifies(docs: map<Id, Doc>, unique: seq<string>, id: Id, cs: seq<Change>, f: string, v: Value)
    requires LastSets(cs, f, v)
    requires id in docs && Get(docs[id], f) != v
    ensures var s := UpdateOne(docs, unique, id, cs);
      s.result.Success? ==> s.result.value
  {
    var init := cs[..|cs| - 1];
    var last := cs[|cs| - 1];
    assert init + [last] == cs;
    ApplyChangesSnoc(docs[id], init, last);
    var s := UpdateOne(docs, unique, id, cs);
    if s.result.Success? {
      var d' := ApplyChanges(docs[id], init).value;
      SetEffect(d', last.fields);
      assert s.docs[id][f] == v;
    }
  }

  /** `RefNumber("EVD", 2024, "k3j9x0aa")` is "EVD-2024-K3J9X0AA": the
      reference numbers the CRUD layer and the routes generate, with the
      random part passed in. */
  function RefNumber(prefix: string, year: int, random: string): (r: string)
    ensures Text.StartsWith(r, prefix + "-")
  {
    prefix + "-" + Text.IntToString(year) + "-" + Text.Upper(random)
  }

  /** A reference number reads back: split on '-', it gives the prefix,
      the decimal year and the upper-cased random part, when neither the
      prefix nor the random part holds a '-'. */
  lemma RefNumberReadsBack(prefix: string, year: nat, random: string)
    requires '-' !in prefix && '-' !in random
    ensures var parts := Text.Split(RefNumber(prefix, year, random), '-');
      && |parts| == 3
      && parts[0] == prefix
      && (forall i | 0 <= i < |parts[1]| :: Text.IsDigit(parts[1][i]))
      && Text.ParseDigits(parts[1]) == year
      && parts[2] == Text.Upper(random)
  {
    var y, u := Text.NatToString(year), Text.Upper(random);
    assert '-' !in y;
    assert '-' !in u;
    var parts := [prefix, y, u];
    assert Text.Join(parts, "-") == RefNumber(prefix, year, random) by {
      assert parts[1..] == [y, u];
      assert Text.Join([y, u], "-") == y + "-" + u by {
        assert [y, u][1..] == [u];
      }
    }
    Text.SplitJoin(parts, '-');
    Text.ParseNatToString(year);
  }

  /** The fields every `create` adds after the caller's data. */
  function Stamped(data: Doc, now: int): (r: Doc)
    ensures r.Keys == data.Keys + {"createdAt", "updatedAt"}
    ensures r["createdAt"] == r["updatedAt"] == Date(now)
  {
    Merge(data, map["createdAt" := Date(now), "updatedAt" := Date(now)])
  }

  /** `OfficersCRUD.create`: the badge number and status are kept when
      given and defaulted otherwise. */
  function OfficerDoc(data: Doc, year: int, random: string, now: int): Doc {
    Stamped(Merge(data, map[
      "badgeNumber" := Or(Get(data, "badgeNumber"), Str(RefNumber("OFC", year, random))),
      "status" := Or(Get(data, "status"), Str("active"))]), now)
  }

  lemma OfficerDocDefaults(data: Doc, year: int, random: string, now: int)
    ensures var d := OfficerDoc(data, year, random, now);
      && (Truthy(Get(data, "badgeNumber")) ==> d["badgeNumber"] == data["badgeNumber"])
      && (!Truthy(Get(data, "badgeNumber")) ==> d["badgeNumber"] == Str(RefNumber("OFC", year, random)))
      && (Truthy(Get(data, "status")) ==> d["status"] == data["status"])
      && (!Truthy(Get(data, "status")) ==> d["status"] == Str("active"))
      && d["createdAt"] == d["updatedAt"] == Date(now)
      && forall k | k in data && k !in {"badgeNumber", "status", "createdAt", "updatedAt"} :: d[k] == data[k]
  {
  }

  /** `ReportsCRUD.create`: the report number is kept when given and
      generated otherwise. */
  function ReportDoc(data: Doc, year: int, random: string, now: int): Doc {
    Stamped(data[
      "reportNumber" := Or(Get(data, "reportNumber"), Str(RefNumber("RPT", year, random)))], now)
  }

  lemma ReportDocDefaults(data: Doc, year: int, random: string, now: int)
    ensures var d := ReportDoc(data, year, random, now);
      && (Truthy(Get(data, "reportNumber")) ==> d["reportNumber"] == data["reportNumber"])
      && (!Truthy(Get(data, "reportNumber")) ==> d["reportNumber"] == Str(RefNumber("RPT", year, random)))
      && d["createdAt"] == d["updatedAt"] == Date(now)
      && forall k | k in data && k !in {"reportNumber", "createdAt", "updatedAt"} :: d[k] == data[k]
  {
  }

  /** The `$set` of every generic `update`: the caller's fields and a fresh
      `updatedAt`. */
  function StampedSet(patch: Doc, now: int): seq<Change> {
    [Set(patch["updatedAt" := Date(now)])]
  }

  /** A stamped `$set` of one dotted path writes the field the path
      starts with, as `WritesTo` says, and the time. */
  lemma StampedPathSet(d: Doc, key: string, x: Value, w: Value, now: int)
    requires Paths.Dotted(key) && Paths.Head(key) != "" && Paths.Head(key) != "updatedAt" && Paths.Head(key) != "_id"
    requires !Paths.Dotted(Paths.Tail(key)) && Paths.Tail(key) != ""
    requires Paths.WritesTo(Get(d, Paths.Head(key)), Paths.Tail(key), x, w)
    ensures ApplyChanges(d, StampedSet(map[key := x], now)) ==
      Success(d["updatedAt" := Date(now)][Paths.Head(key) := w])
  {
    var p := map[key := x]["updatedAt" := Date(now)];
    Paths.HeadOfPlain("updatedAt");
    Paths.SetFieldAndPath(d, "updatedAt", Date(now), key, x, w);
    ApplyOne(d, Set(p));
    SetPathsApplied(d, p, d["updatedAt" := Date(now)][Paths.Head(key) := w]);
  }

  /** No id occurs twice. */
  predicate Distinct(ids: seq<Id>) {
    forall i, j | 0 <= i < j < |ids| :: ids[i] != ids[j]
  }

  /** `ids` lists every document of `docs` once: an order in which the
      store may hand out the collection. */
  predicate Enumerates(docs: map<Id, Doc>, ids: seq<Id>) {
    Distinct(ids) && (forall i | 0 <= i < |ids| :: ids[i] in docs) && forall k | k in docs :: k in ids
  }

  /** The documents of `docs` in some order, as a scan of the collection
      yields them. */
  method Enumerate(docs: map<Id, Doc>) returns (ids: seq<Id>)
    ensures Enumerates(docs, ids)
  {
    var rest := docs.Keys;
    ids := [];
    while rest != {}
      invariant rest <= docs.Keys
      invariant Distinct(ids)
      invariant forall i | 0 <= i < |ids| :: ids[i] in docs && ids[i] !in rest
      invariant forall k | k in docs :: k in ids || k in rest
      decreases |rest|
    {
      var k :| k in rest;
      ids := ids + [k];
      rest := rest - {k};
    }
  }

  /** One collection of the store. The unique indexes are those the
      database carries; the code creates none. */
  class Collection {
    var docs: map<Id, Doc>
    const unique: seq<string>

    ghost predicate Valid()
      reads this
    {
      UniqueHolds(docs, unique)
    }

    constructor (unique: seq<string>)
      ensures Valid()
      ensures docs == map[] && this.unique == unique
    {
      docs := map[];
      this.unique := unique;
    }

    /** `findById` */
    function FindById(id: Id): Option<Doc>
      reads this
    {
      if id in docs then Some(docs[id]) else None
    }

    /** `insertOne` of a document already built. */
    method Insert(id: Id, d: Doc) returns (r: Result<Doc>)
      requires Valid()
      modifies this
      ensures Valid()
      ensures Step(docs, r) == InsertOne(old(docs), unique, id, d)
    {
      InsertOneEffect(docs, unique, id, d);
      var s := InsertOne(docs, unique, id, d);
      docs := s.docs;
      r := s.result;
    }

    /** `create` of the cases, occurrence-book, licence-plate, vehicle,
        user and profile collections: it stores the caller's data with
        both timestamps and answers the stored document. `UsersCRUD.create`
        answers the data and the id only, without the timestamps; the
        registration route never reads that answer and builds its own
        from the data (`LegacyRoutes.UserResponse`). */
    method Create(id: Id, data: Doc, now: int) returns (r: Result<Doc>)
      requires Valid()
      modifies this
      ensures Valid()
      ensures Step(docs, r) == InsertOne(old(docs), unique, id, Stamped(data, now))
    {
      r := Insert(id, Stamped(data, now));
    }

    /** `OfficersCRUD.create` */
    method CreateOfficer(id: Id, data: Doc, year: int, random: string, now: int) returns (r: Result<Doc>)
      requires Valid()
      modifies this
      ensures Valid()
      ensures Step(docs, r) == InsertOne(old(docs), unique, id, OfficerDoc(data, year, random, now))
    {
      r := Insert(id, OfficerDoc(data, year, random, now));
    }

    /** `ReportsCRUD.create` */
    method CreateReport(id: Id, data: Doc, year: int, random: string, now: int) returns (r: Result<Doc>)
      requires Valid()
      modifies this
      ensures Valid()
      ensures Step(docs, r) == InsertOne(old(docs), unique, id, ReportDoc(data, year, random, now))
    {
      r := Insert(id, ReportDoc(data, year, random, now));
    }

    /** The generic `update`: `$set` of the patch with a fresh `updatedAt`,
        answering whether the document was modified. */
    method Update(id: Id, patch: Doc, now: int) returns (r: Result<bool>)
      requires Valid()
      modifies this
      ensures Valid()
      ensures Step(docs, r) == UpdateOne(old(docs), unique, id, StampedSet(patch, now))
      ensures docs.Keys == old(docs).Keys
      ensures forall k | k in old(docs) && k != id :: docs[k] == old(docs)[k]
    {
      UpdateOneEffect(docs, unique, id, StampedSet(patch, now));
      var s := UpdateOne(docs, unique, id, StampedSet(patch, now));
      docs := s.docs;
      r := s.result;
    }

    /** The generic `delete`: removes the document with that id and answers
        whether there was one. */
    method Delete(id: Id) returns (deleted: bool)
      requires Valid()
      modifies this
      ensures Valid()
      ensures docs == old(docs) - {id}
      ensures deleted <==> id in old(docs)
    {
      deleted := id in docs;
      docs := docs - {id};
    }
  }
}
