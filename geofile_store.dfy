/** `GeofilesCRUD`: records of uploaded geographic files. Creation fills
    in defaults and parses tags and metadata sent as JSON text; `findAll`
    filters by search term, file type, access level, tags and creation
    date and lists the newest first; downloads are counted; `getStats`
    aggregates the whole collection. `JSON.parse` is the parameter
    `parse`, which answers `None` where the real one throws. */
module GeofileStore {
  import opened Base
  import opened Json
  import opened Store
  import Text

  /** `JSON.parse(String(v))`, `None` when it throws. */
  type Parser = Value -> Option<Value>

  /** `Array.isArray(tags) ? tags : JSON.parse(tags || '[]')` */
  function ParsedTags(v: Value, parse: Parser): Option<Value> {
    if v.Arr? then Some(v) else if !Truthy(v) then Some(Arr([])) else parse(v)
  }

  /** `typeof metadata === 'string' ? JSON.parse(metadata || '{}') : metadata || {}` */
  function ParsedMetadata(v: Value, parse: Parser): Option<Value> {
    if v.Str? then (if v.s == "" then Some(Obj(map[])) else parse(v)) else Some(Or(v, Obj(map[])))
  }

  /** The names of the fields `create` writes over the caller's data. */
  const CreateWritten: set<string> := {"downloadCount", "lastAccessedAt", "isPublic", "accessLevel", "tags",
    "metadata", "createdAt", "updatedAt"}

  /** The fields `create` writes over the caller's data. */
  function GeofileFields(data: Doc, tags: Value, metadata: Value, now: int): (r: Doc)
    ensures r.Keys == CreateWritten
  {
    map[
      "downloadCount" := Or(Get(data, "downloadCount"), Num(0)),
      "lastAccessedAt" := Or(Get(data, "lastAccessedAt"), Date(now)),
      "isPublic" := Or(Get(data, "isPublic"), Bool(false)),
      "accessLevel" := Or(Get(data, "accessLevel"), Str("internal")),
      "tags" := tags,
      "metadata" := metadata,
      "createdAt" := Date(now),
      "updatedAt" := Date(now)]
  }

  /** The document `create` inserts, or the failure of a tags or metadata
      text that does not parse. */
  function GeofileDoc(data: Doc, parse: Parser, now: int): Result<Doc> {
    match (ParsedTags(Get(data, "tags"), parse), ParsedMetadata(Get(data, "metadata"), parse))
    case (Some(tags), Some(metadata)) => Success(Merge(data, GeofileFields(data, tags, metadata, now)))
    case _ => Failure(InvalidJson)
  }

  /** A new record counts no downloads, is internal and not public, has no
      tags and empty metadata unless the data says otherwise; array tags are
      kept as given; a tags or metadata text that does not parse makes
      `create` fail. */
  lemma GeofileDocDefaults(data: Doc, parse: Parser, now: int)
    ensures var r := GeofileDoc(data, parse, now);
      && (r.Failure? <==> ParsedTags(Get(data, "tags"), parse).None? || ParsedMetadata(Get(data, "metadata"), parse).None?)
      && (r.Success? ==>
        && Get(r.value, "downloadCount") == Or(Get(data, "downloadCount"), Num(0))
        && Get(r.value, "accessLevel") == Or(Get(data, "accessLevel"), Str("internal"))
        && Get(r.value, "isPublic") == Or(Get(data, "isPublic"), Bool(false))
        && (!Truthy(Get(data, "tags")) ==> Get(r.value, "tags") == Arr([]))
        && (Get(data, "tags").Arr? ==> Get(r.value, "tags") == data["tags"])
        && (!Truthy(Get(data, "metadata")) ==> Get(r.value, "metadata") == Obj(map[]))
        && Get(r.value, "createdAt") == Date(now))
  {
    var t := ParsedTags(Get(data, "tags"), parse);
    var m := ParsedMetadata(Get(data, "metadata"), parse);
    if t.Some? && m.Some? {
      var f := GeofileFields(data, t.value, m.value, now);
      GeofileFieldValues(data, t.value, m.value, now);
      var d := Merge(data, f);
      assert GeofileDoc(data, parse, now).value == d;
      assert "downloadCount" in f && "accessLevel" in f && "isPublic" in f;
      assert "tags" in f && "metadata" in f && "createdAt" in f;
    }
  }

  /** The values `create` writes, field by field. */
  lemma GeofileFieldValues(data: Doc, tags: Value, metadata: Value, now: int)
    ensures var f := GeofileFields(data, tags, metadata, now);
      && f["downloadCount"] == Or(Get(data, "downloadCount"), Num(0))
      && f["accessLevel"] == Or(Get(data, "accessLevel"), Str("internal"))
      && f["isPublic"] == Or(Get(data, "isPublic"), Bool(false))
      && f["tags"] == tags && f["metadata"] == metadata && f["createdAt"] == Date(now)
  {
  }

  /** `create` keeps every field of the caller's data it does not write. */
  lemma GeofileDocKeeps(data: Doc, parse: Parser, now: int)
    ensures var r := GeofileDoc(data, parse, now);
      r.Success? ==> forall k | k in data && k !in CreateWritten :: k in r.value && r.value[k] == data[k]
  {
  }

  /** The record both `POST /api/geofiles` handlers build from the body:
      the uploader is the session user or 1, the access time is now and
      the download count is forced to zero. */
  function SubmittedGeofile(body: Doc, uploader: Value, now: int): (r: Doc)
    ensures r.Keys == body.Keys + {"uploadedBy", "lastAccessedAt", "downloadCount"}
    ensures r["downloadCount"] == Num(0) && r["uploadedBy"] == Or(uploader, Num(1)) && r["lastAccessedAt"] == Date(now)
    ensures forall k | k in body && k !in {"uploadedBy", "lastAccessedAt", "downloadCount"} :: r[k] == body[k]
  {
    Merge(body, map["uploadedBy" := Or(uploader, Num(1)), "lastAccessedAt" := Date(now), "downloadCount" := Num(0)])
  }

  /** The filters of `findAll`; an empty string or list, or `None`, is a
      filter not given. Dates are already converted to milliseconds. */
  datatype Filters = Filters(
    search: string, fileType: string, accessLevel: string,
    tags: seq<string>, dateFrom: Option<int>, dateTo: Option<int>)

  /** The fields the search term is looked for in. */
  const SearchFields: seq<string> := ["filename", "description", "address", "locationName"]

  /** A case-insensitive regular-expression match of a term free of
      metacharacters: the term occurs in the text, ignoring case. A field
      holding an array matches when one of its strings does. */
  predicate TextMatches(v: Value, term: string) {
    || (v.Str? && Text.Contains(Text.Lower(v.s), Text.Lower(term)))
    || (v.Arr? && exists i | 0 <= i < |v.items| :: v.items[i].Str? && Text.Contains(Text.Lower(v.items[i].s), Text.Lower(term)))
  }

  /** `^type$` with the `i` flag: the whole text equals the type, ignoring
      case. */
  predicate TypeMatches(v: Value, t: string) {
    || (v.Str? && Text.Lower(v.s) == Text.Lower(t))
    || (v.Arr? && exists i | 0 <= i < |v.items| :: v.items[i].Str? && Text.Lower(v.items[i].s) == Text.Lower(t))
  }

  /** An equality condition on a field: the value itself, or an element
      of an array field. */
  predicate EqualsOrHolds(v: Value, s: string) {
    v == Str(s) || (v.Arr? && Str(s) in v.items)
  }

  /** `$in`: the field, or one of its elements, is one of the values. */
  predicate InAny(v: Value, values: seq<string>) {
    exists i | 0 <= i < |values| :: EqualsOrHolds(v, values[i])
  }

  /** The query `findAll` builds from the filters, field by field. */
  predicate Matches(d: Doc, f: Filters) {
    && (f.search != "" ==> exists i | 0 <= i < |SearchFields| :: TextMatches(Get(d, SearchFields[i]), f.search))
    && (f.fileType != "" ==> TypeMatches(Get(d, "fileType"), f.fileType))
    && (f.accessLevel != "" ==> EqualsOrHolds(Get(d, "accessLevel"), f.accessLevel))
    && (|f.tags| > 0 ==> InAny(Get(d, "tags"), f.tags))
    && (f.dateFrom.Some? ==> Get(d, "createdAt").Date? && Get(d, "createdAt").ms >= f.dateFrom.value)
    && (f.dateTo.Some? ==> Get(d, "createdAt").Date? && Get(d, "createdAt").ms <= f.dateTo.value)
  }

  /** With no filter given every record matches. */
  lemma NoFiltersMatchAll(d: Doc)
    ensures Matches(d, Filters("", "", "", [], None, None))
  {
  }

  /** The file-type filter ignores case in both the record and the
      filter. */
  lemma FileTypeIgnoresCase(d: Doc, t: string)
    requires Get(d, "fileType").Str? && t != ""
    ensures Matches(d, Filters("", t, "", [], None, None)) <==> Text.Lower(d["fileType"].s) == Text.Lower(t)
  {
  }

  /** The tags filter keeps a record with a tag array exactly when the
      record shares a tag with the filter. */
  lemma TagsFilterSharesTag(d: Doc, tags: seq<string>)
    requires |tags| > 0 && Get(d, "tags").Arr?
    ensures Matches(d, Filters("", "", "", tags, None, None)) <==>
      exists i | 0 <= i < |tags| :: Str(tags[i]) in d["tags"].items
  {
    var v := Get(d, "tags");
    if exists i | 0 <= i < |tags| :: Str(tags[i]) in d["tags"].items {
      var i :| 0 <= i < |tags| && Str(tags[i]) in d["tags"].items;
      assert EqualsOrHolds(v, tags[i]);
    }
  }

  /** `sort({ createdAt: -1 })`: `a` may come before `b`. Dates sort after
      every other kind of value, so in descending order a record whose
      `createdAt` is not a date comes after all dated ones. */
  predicate NewerOrUndated(a: Doc, b: Doc) {
    !Get(b, "createdAt").Date? || (Get(a, "createdAt").Date? && Get(a, "createdAt").ms >= Get(b, "createdAt").ms)
  }

  /** Any two records can be ordered, and the order chains. */
  lemma NewerOrUndatedIsPreorder(a: Doc, b: Doc, c: Doc)
    ensures NewerOrUndated(a, b) || NewerOrUndated(b, a)
    ensures NewerOrUndated(a, b) && NewerOrUndated(b, c) ==> NewerOrUndated(a, c)
  {
  }

  ghost predicate NewestFirst(docs: map<Id, Doc>, ids: seq<Id>) {
    forall i, j | 0 <= i < j < |ids| && ids[i] in docs && ids[j] in docs :: NewerOrUndated(docs[ids[i]], docs[ids[j]])
  }

  /** The ids `findAll` lists: each matching record once, no other, newest
      first. */
  ghost predicate IsListing(docs: map<Id, Doc>, f: Filters, ids: seq<Id>) {
    && Distinct(ids)
    && (forall i | 0 <= i < |ids| :: ids[i] in docs && Matches(docs[ids[i]], f))
    && (forall k | k in docs && Matches(docs[k], f) :: k in ids)
    && NewestFirst(docs, ids)
  }

  /** `k` placed into a newest-first list before the first record it is
      not newer than. */
  method InsertNewest(docs: map<Id, Doc>, ids: seq<Id>, k: Id) returns (r: seq<Id>)
    requires k in docs && forall i | 0 <= i < |ids| :: ids[i] in docs
    requires NewestFirst(docs, ids)
    ensures NewestFirst(docs, r)
    ensures forall i | 0 <= i < |r| :: r[i] in docs
    ensures forall x :: x in r <==> x in ids || x == k
    ensures k !in ids && Distinct(ids) ==> Distinct(r)
  {
    var i := 0;
    while i < |ids| && NewerOrUndated(docs[ids[i]], docs[k])
      invariant 0 <= i <= |ids|
      invariant forall j | 0 <= j < i :: NewerOrUndated(docs[ids[j]], docs[k])
    {
      i := i + 1;
    }
    forall j | i <= j < |ids| ensures NewerOrUndated(docs[k], docs[ids[j]]) {
      NewerOrUndatedIsPreorder(docs[k], docs[ids[i]], docs[ids[j]]);
    }
    r := ids[..i] + [k] + ids[i..];
    InsertAt(ids, i, k);
    InsertKeepsNewestFirst(docs, ids, i, k);
    if k !in ids && Distinct(ids) {
      InsertKeepsDistinct(ids, i, k);
    }
  }

  /** A record put in after every record newer than it and before every
      record it is newer than keeps the list newest first. */
  lemma InsertKeepsNewestFirst(docs: map<Id, Doc>, ids: seq<Id>, i: int, k: Id)
    requires k in docs && forall j | 0 <= j < |ids| :: ids[j] in docs
    requires NewestFirst(docs, ids) && 0 <= i <= |ids|
    requires forall j | 0 <= j < i :: NewerOrUndated(docs[ids[j]], docs[k])
    requires forall j | i <= j < |ids| :: NewerOrUndated(docs[k], docs[ids[j]])
    ensures NewestFirst(docs, ids[..i] + [k] + ids[i..])
  {
    InsertAt(ids, i, k);
  }

  /** A new id put into a list without repetitions leaves none. */
  lemma InsertKeepsDistinct(ids: seq<Id>, i: int, k: Id)
    requires Distinct(ids) && k !in ids && 0 <= i <= |ids|
    ensures Distinct(ids[..i] + [k] + ids[i..])
  {
    InsertAt(ids, i, k);
  }

  /** How `findAll` hands out one record: with its id, and with tags and
      metadata parsed when stored as text. */
  function Presented(id: Id, d: Doc, parse: Parser): Result<Doc> {
    var t := Get(d, "tags");
    var m := Get(d, "metadata");
    var tags := if t.Arr? then Some(t) else if !Truthy(t) then Some(Arr([])) else parse(t);
    var metadata := if m.Null? || m.Arr? || m.Obj? || m.Date? then Some(m) else if !Truthy(m) then Some(Obj(map[])) else parse(m);
    if tags.None? || metadata.None? then Failure(InvalidJson)
    else Success(d["id" := Str(id)]["tags" := tags.value]["metadata" := metadata.value])
  }

  /** Every listed record presented in order; one that fails fails the
      whole listing. */
  function PresentAll(docs: map<Id, Doc>, ids: seq<Id>, parse: Parser): (r: Result<seq<Doc>>)
    requires forall i | 0 <= i < |ids| :: ids[i] in docs
    ensures r.Success? ==> |r.value| == |ids| && forall i | 0 <= i < |ids| :: Success(r.value[i]) == Presented(ids[i], docs[ids[i]], parse)
  {
    if |ids| == 0 then Success([])
    else
      match Presented(ids[0], docs[ids[0]], parse)
      case Failure(e) => Failure(e)
      case Success(d) =>
        match PresentAll(docs, ids[1..], parse)
        case Failure(e) => Failure(e)
        case Success(rest) => Success([d] + rest)
  }

  /** A presented record carries its id and keeps every stored field but
      tags and metadata. */
  lemma PresentedKeepsFields(id: Id, d: Doc, parse: Parser)
    ensures var r := Presented(id, d, parse);
      r.Success? ==> r.value["id"] == Str(id) && forall k | k in d && k !in {"id", "tags", "metadata"} :: r.value[k] == d[k]
  {
  }

  /** What `getStats` answers. */
  datatype Stats = Stats(total: nat, byFileType: seq<Doc>, byAccessLevel: seq<Doc>, totalDownloads: int)

  /** The `$push` of `{ field: '$field', count: 1 }` for one record: the
      field is left out when the record lacks it. */
  function GroupEntry(d: Doc, field: string): Doc {
    if field in d then map[field := d[field], "count" := Num(1)] else map["count" := Num(1)]
  }

  /** What `$sum: '$downloadCount'` adds for one record: non-numbers count
      nothing. */
  function Downloads(d: Doc): int {
    var v := Get(d, "downloadCount");
    if v.Num? then v.n else 0
  }

  /** What the record with id `id` adds; an id the store does not hold
      (which a scan never lists) adds nothing. */
  function DownloadsOf(docs: map<Id, Doc>, id: Id): int {
    if id in docs then Downloads(docs[id]) else 0
  }

  /** The sum of the download counts of the listed records. */
  function SumDownloads(docs: map<Id, Doc>, ids: seq<Id>): int {
    if |ids| == 0 then 0 else DownloadsOf(docs, ids[0]) + SumDownloads(docs, ids[1..])
  }

  /** The aggregation over the records in the order the store scans them;
      on an empty collection it is the default answer of zeros. */
  function StatsOf(docs: map<Id, Doc>, ids: seq<Id>): (s: Stats)
    requires forall i | 0 <= i < |ids| :: ids[i] in docs
    ensures s.total == |ids| && |s.byFileType| == |ids| && |s.byAccessLevel| == |ids|
    ensures ids == [] ==> s == Stats(0, [], [], 0)
  {
    Stats(|ids|,
      seq(|ids|, i requires 0 <= i < |ids| => GroupEntry(docs[ids[i]], "fileType")),
      seq(|ids|, i requires 0 <= i < |ids| => GroupEntry(docs[ids[i]], "accessLevel")),
      SumDownloads(docs, ids))
  }

  /** Removing one listed record from the sum subtracts its count. */
  lemma {:induction false} SumDownloadsRemove(docs: map<Id, Doc>, ids: seq<Id>, i: int)
    requires 0 <= i < |ids|
    ensures SumDownloads(docs, ids) == DownloadsOf(docs, ids[i]) + SumDownloads(docs, ids[..i] + ids[i + 1..])
  {
    RemoveAtShape(ids, i);
    if i > 0 {
      SumDownloadsRemove(docs, ids[1..], i - 1);
    }
  }

  /** The total of downloads does not depend on the order the store scans
      the collection in: any two scans of the same records agree. */
  lemma {:induction false} SumDownloadsAnyOrder(docs: map<Id, Doc>, a: seq<Id>, b: seq<Id>)
    requires multiset(a) == multiset(b)
    ensures SumDownloads(docs, a) == SumDownloads(docs, b)
    decreases |a|
  {
    if |a| > 0 {
      var i := PositionIn(b, a[0]);
      var b' := b[..i] + b[i + 1..];
      SumDownloadsRemove(docs, b, i);
      PermutationStep(a, b, i);
      SumDownloadsAnyOrder(docs, a[1..], b');
    } else {
      assert |b| == |multiset(b)| == 0;
    }
  }

  /** Two scans of a collection list the same records, counted once each. */
  lemma EnumerationsArePermutations(docs: map<Id, Doc>, a: seq<Id>, b: seq<Id>)
    requires Enumerates(docs, a) && Enumerates(docs, b)
    ensures multiset(a) == multiset(b)
  {
    forall x ensures multiset(a)[x] == multiset(b)[x] {
      DistinctCount(a, x);
      DistinctCount(b, x);
    }
  }

  /** In a list without repetitions an id occurs once or not at all. */
  lemma {:induction false} DistinctCount(ids: seq<Id>, x: Id)
    requires Distinct(ids)
    ensures multiset(ids)[x] == if x in ids then 1 else 0
  {
    if |ids| > 0 {
      assert ids == [ids[0]] + ids[1..];
      assert Distinct(ids[1..]);
      DistinctCount(ids[1..], x);
      assert ids[0] !in ids[1..];
    }
  }

  /** `getStats` counts every record once: the total is the number of
      records and the downloads total is the same whatever order the store
      scans them in. */
  lemma StatsCountEveryRecord(docs: map<Id, Doc>, a: seq<Id>, b: seq<Id>)
    requires Enumerates(docs, a) && Enumerates(docs, b)
    ensures StatsOf(docs, a).total == StatsOf(docs, b).total == |docs|
    ensures StatsOf(docs, a).totalDownloads == StatsOf(docs, b).totalDownloads
  {
    EnumerationsArePermutations(docs, a, b);
    SumDownloadsAnyOrder(docs, a, b);
    EnumerationCoversKeys(docs, a);
    EnumerationCoversKeys(docs, b);
  }

  /** A scan lists as many records as the collection holds. */
  lemma EnumerationCoversKeys(docs: map<Id, Doc>, ids: seq<Id>)
    requires Enumerates(docs, ids)
    ensures |ids| == |docs|
  {
    var s := set i | 0 <= i < |ids| :: ids[i];
    assert s == docs.Keys;
    DistinctCardinality(ids);
  }

  /** The operators of `incrementDownload`. */
  function DownloadChanges(now: int): seq<Change> {
    [Inc("downloadCount", 1), Set(map["lastAccessedAt" := Date(now)])]
  }

  /** `incrementDownload` on a record whose count is a number (or absent)
      raises it by exactly one, sets `lastAccessedAt` and changes nothing
      else; a count of any other kind makes it fail; an unknown id answers
      false. */
  lemma IncrementDownloadEffect(docs: map<Id, Doc>, unique: seq<string>, id: Id, now: int)
    requires UniqueHolds(docs, unique)
    requires "downloadCount" !in unique && "lastAccessedAt" !in unique
    ensures var s := UpdateOne(docs, unique, id, DownloadChanges(now));
      && (id !in docs ==> s == Step(docs, Success(false)))
      && (id in docs && "downloadCount" in docs[id] && !docs[id]["downloadCount"].Num? ==>
          s == Step(docs, Failure(NotANumber("downloadCount"))))
      && (id in docs && ("downloadCount" !in docs[id] || docs[id]["downloadCount"].Num?) ==>
        && s.result == Success(true) && id in s.docs
        && s.docs == docs[id := s.docs[id]]
        && Get(s.docs[id], "downloadCount") == Num(Downloads(docs[id]) + 1)
        && Get(s.docs[id], "lastAccessedAt") == Date(now)
        && forall f | f != "downloadCount" && f != "lastAccessedAt" :: Get(s.docs[id], f) == Get(docs[id], f))
  {
    if id in docs {
      var d := docs[id];
      if "downloadCount" !in d || d["downloadCount"].Num? {
        var d2 := DownloadApplied(d, now);
        KeptKeysNoClash(docs, unique, id, d2);
        assert d2["downloadCount"] != Get(d, "downloadCount");
      }
    }
  }

  /** The operators of `incrementDownload` on one record whose count is a
      number (or absent): the count goes up by one, the access time is
      now, and no other field changes. */
  lemma DownloadApplied(d: Doc, now: int) returns (d2: Doc)
    requires "downloadCount" !in d || d["downloadCount"].Num?
    ensures ApplyChanges(d, DownloadChanges(now)) == Success(d2)
    ensures "downloadCount" in d2 && d2["downloadCount"] == Num(Downloads(d) + 1)
    ensures Get(d2, "downloadCount") == Num(Downloads(d) + 1) && Get(d2, "lastAccessedAt") == Date(now)
    ensures forall f | f != "downloadCount" && f != "lastAccessedAt" :: Get(d2, f) == Get(d, f)
  {
    var cs := DownloadChanges(now);
    var d1 := d["downloadCount" := Num(Downloads(d) + 1)];
    d2 := d1["lastAccessedAt" := Date(now)];
    assert ApplyChange(d, cs[0]) == Success(d1);
    assert ApplyChanges(d1, cs[1..]) == Success(d2) by {
      SetOne(d1, "lastAccessedAt", Date(now));
      assert cs[1..][1..] == [];
    }
  }

  /** `update`'s processing of the patch: tags and metadata sent as
      non-empty text are parsed. */
  function ProcessedPatch(patch: Doc, parse: Parser): Option<Doc> {
    var t := Get(patch, "tags");
    var m := Get(patch, "metadata");
    var tags := if Truthy(t) && t.Str? then parse(t) else Some(t);
    var metadata := if Truthy(m) && m.Str? then parse(m) else Some(m);
    if tags.None? || metadata.None? then None
    else
      var p := if "tags" in patch then patch["tags" := tags.value] else patch;
      Some(if "metadata" in patch then p["metadata" := metadata.value] else p)
  }

  /** The geofile collection. */
  class GeofileCollection {
    var docs: map<Id, Doc>
    const unique: seq<string>

    ghost predicate Valid()
      reads this
    {
      UniqueHolds(docs, unique)
    }

    constructor (unique: seq<string>)
      ensures Valid()
      ensures docs == map[] && this.unique == unique
    {
      docs := map[];
      this.unique := unique;
    }

    /** `findById` */
    function FindById(id: Id): Option<Doc>
      reads this
    {
      if id in docs then Some(docs[id]) else None
    }

    /** `create`: the record with its defaults, answered with its id. */
    method Create(id: Id, data: Doc, parse: Parser, now: int) returns (r: Result<Doc>)
      requires Valid()
      modifies this
      ensures Valid()
      ensures GeofileDoc(data, parse, now).Failure? ==> docs == old(docs) && r == Failure(InvalidJson)
      ensures GeofileDoc(data, parse, now).Success? ==>
        var s := InsertOne(old(docs), unique, id, GeofileDoc(data, parse, now).value);
        docs == s.docs && r == (if s.result.Success? then Success(s.result.value["id" := Str(id)]) else s.result)
    {
      var g := GeofileDoc(data, parse, now);
      if g.Failure? {
        return Failure(InvalidJson);
      }
      InsertOneEffect(docs, unique, id, g.value);
      var s := InsertOne(docs, unique, id, g.value);
      docs := s.docs;
      r := if s.result.Success? then Success(s.result.value["id" := Str(id)]) else s.result;
    }

    /** The matching records, newest first: `find(query).sort({createdAt: -1})`. */
    method Query(f: Filters) returns (ids: seq<Id>)
      ensures IsListing(docs, f, ids)
    {
      var scan := Enumerate(docs);
      ids := [];
      var n := 0;
      while n < |scan|
        invariant 0 <= n <= |scan|
        invariant Distinct(ids) && NewestFirst(docs, ids)
        invariant forall i | 0 <= i < |ids| :: ids[i] in docs && Matches(docs[ids[i]], f)
        invariant forall x :: x in ids <==> x in scan[..n] && Matches(docs[x], f)
      {
        var k := scan[n];
        assert k !in scan[..n];
        if Matches(docs[k], f) {
          ids := InsertNewest(docs, ids, k);
        }
        assert scan[..n + 1] == scan[..n] + [k];
        n := n + 1;
      }
      assert scan[..n] == scan;
    }

    /** `findAll(filters)`: the listing and the records as handed out. */
    method FindAll(f: Filters, parse: Parser) returns (ids: seq<Id>, r: Result<seq<Doc>>)
      ensures IsListing(docs, f, ids)
      ensures r == PresentAll(docs, ids, parse)
    {
      ids := Query(f);
      r := PresentAll(docs, ids, parse);
    }

    /** `update`: the processed patch `$set` with a fresh `updatedAt`. */
    method Update(id: Id, patch: Doc, parse: Parser, now: int) returns (r: Result<bool>)
      requires Valid()
      modifies this
      ensures Valid()
      ensures ProcessedPatch(patch, parse).None? ==> docs == old(docs) && r == Failure(InvalidJson)
      ensures ProcessedPatch(patch, parse).Some? ==>
        Step(docs, r) == UpdateOne(old(docs), unique, id, StampedSet(ProcessedPatch(patch, parse).value, now))
    {
      var p := ProcessedPatch(patch, parse);
      if p.None? {
        return Failure(InvalidJson);
      }
      UpdateOneEffect(docs, unique, id, StampedSet(p.value, now));
      var s := UpdateOne(docs, unique, id, StampedSet(p.value, now));
      docs := s.docs;
      r := s.result;
    }

    /** `updateAccess`: only `lastAccessedAt` is set. */
    method UpdateAccess(id: Id, now: int) returns (r: Result<bool>)
      requires Valid()
      modifies this
      ensures Valid()
      ensures Step(docs, r) == UpdateOne(old(docs), unique, id, [Set(map["lastAccessedAt" := Date(now)])])
    {
      UpdateOneEffect(docs, unique, id, [Set(map["lastAccessedAt" := Date(now)])]);
      var s := UpdateOne(docs, unique, id, [Set(map["lastAccessedAt" := Date(now)])]);
      docs := s.docs;
      r := s.result;
    }

    /** `incrementDownload` */
    method IncrementDownload(id: Id, now: int) returns (r: Result<bool>)
      requires Valid()
      modifies this
      ensures Valid()
      ensures Step(docs, r) == UpdateOne(old(docs), unique, id, DownloadChanges(now))
    {
      UpdateOneEffect(docs, unique, id, DownloadChanges(now));
      var s := UpdateOne(docs, unique, id, DownloadChanges(now));
      docs := s.docs;
      r := s.result;
    }

    /** `delete` */
    method Delete(id: Id) returns (deleted: bool)
      requires Valid()
      modifies this
      ensures Valid()
      ensures docs == old(docs) - {id}
      ensures deleted <==> id in old(docs)
    {
      deleted := id in docs;
      docs := docs - {id};
    }

    /** `getStats`: the aggregation over one scan of the collection. */
    method GetStats() returns (scan: seq<Id>, st: Stats)
      ensures Enumerates(docs, scan)
      ensures st == StatsOf(docs, scan)
      ensures st.total == |docs|
    {
      scan := Enumerate(docs);
      EnumerationCoversKeys(docs, scan);
      st := StatsOf(docs, scan);
    }
  }
}
