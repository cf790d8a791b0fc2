/** `EvidenceCRUD`: evidence items with a chain-of-custody log. Creation
    seeds the log with one "collected" entry, `addCustodyEntry` appends to
    it, `update` cannot touch it, so every stored item keeps a log that
    starts with its collection and only ever grows. */
module EvidenceStore {
  import opened Base
  import opened Json
  import opened Store
  import Paths
  import Text

  /** The fields `update` strips from a patch before applying it. */
  const Protected: set<string> := {"custodyLog", "evidenceNumber", "createdAt"}

  /** The boolean flags `create` defaults to false. */
  const Flags: seq<string> := ["isSealed", "bagsSealed", "photographed", "fingerprinted", "dnaCollected"]

  /** The first custody entry of a new item. */
  function InitialCustodyEntry(data: Doc, now: int): Doc {
    map[
      "action" := Str("collected"),
      "officer" := Or(Get(data, "collectedBy"), Str("Unknown Officer")),
      "timestamp" := Date(now),
      "notes" := Str("Initial evidence collection"),
      "location" := Or(Get(data, "location"), Str("Unknown Location"))]
  }

  /** The fields `create` writes over the caller's data: the evidence
      number, the one-entry custody log, the defaults and both timestamps. */
  function EvidenceFields(data: Doc, year: int, random: string, now: int): Doc {
    map[
      "evidenceNumber" := Or(Get(data, "evidenceNumber"), Str(RefNumber("EVD", year, random))),
      "custodyLog" := Arr([Obj(InitialCustodyEntry(data, now))]),
      "media" := Or(Get(data, "media"), Arr([])),
      "tags" := Or(Get(data, "tags"), Arr([])),
      "priority" := Or(Get(data, "priority"), Str("Medium")),
      "condition" := Or(Get(data, "condition"), Str("Good")),
      "isSealed" := Or(Get(data, "isSealed"), Bool(false)),
      "bagsSealed" := Or(Get(data, "bagsSealed"), Bool(false)),
      "photographed" := Or(Get(data, "photographed"), Bool(false)),
      "fingerprinted" := Or(Get(data, "fingerprinted"), Bool(false)),
      "dnaCollected" := Or(Get(data, "dnaCollected"), Bool(false)),
      "createdAt" := Date(now),
      "updatedAt" := Date(now)]
  }

  /** The document `create` inserts: `{...data, ...EvidenceFields}`. */
  function EvidenceDoc(data: Doc, year: int, random: string, now: int): Doc {
    Merge(data, EvidenceFields(data, year, random, now))
  }

  /** The custody log of a stored item. */
  function CustodyLog(d: Doc): seq<Value> {
    if "custodyLog" in d && d["custodyLog"].Arr? then d["custodyLog"].items else []
  }

  predicate IsCollectedEntry(v: Value) {
    v.Obj? && Get(v.fields, "action") == Str("collected")
  }

  /** What every item created here keeps: an array custody log whose first
      entry records the collection. */
  predicate WellFormed(d: Doc) {
    && "custodyLog" in d && d["custodyLog"].Arr?
    && |CustodyLog(d)| >= 1 && IsCollectedEntry(CustodyLog(d)[0])
  }

  /** Every item's custody log is a prefix of its later log. */
  ghost predicate LogsExtend(before: map<Id, Doc>, after: map<Id, Doc>) {
    forall k | k in before && k in after :: CustodyLog(before[k]) <= CustodyLog(after[k])
  }

  /** A new item's custody log is exactly one "collected" entry by the
      collecting officer (or "Unknown Officer") at the item's location (or
      "Unknown Location"), stamped with the creation time. */
  lemma EvidenceDocCustodySeed(data: Doc, year: int, random: string, now: int)
    ensures var d := EvidenceDoc(data, year, random, now);
      && WellFormed(d)
      && CustodyLog(d) == [Obj(InitialCustodyEntry(data, now))]
      && Get(InitialCustodyEntry(data, now), "officer") == Or(Get(data, "collectedBy"), Str("Unknown Officer"))
      && Get(InitialCustodyEntry(data, now), "location") == Or(Get(data, "location"), Str("Unknown Location"))
      && Get(InitialCustodyEntry(data, now), "timestamp") == Get(d, "createdAt") == Date(now)
  {
    var e := InitialCustodyEntry(data, now);
    assert e["officer"] == Or(Get(data, "collectedBy"), Str("Unknown Officer"));
    assert e["location"] == Or(Get(data, "location"), Str("Unknown Location"));
    assert e["timestamp"] == Date(now);
    assert e["action"] == Str("collected");
    LogFields(data, year, random, now);
  }

  /** `create` writes the one-entry custody log and the creation time. */
  lemma LogFields(data: Doc, year: int, random: string, now: int)
    ensures var f := EvidenceFields(data, year, random, now);
      && "custodyLog" in f && f["custodyLog"] == Arr([Obj(InitialCustodyEntry(data, now))])
      && "createdAt" in f && f["createdAt"] == Date(now)
  {
    var f := EvidenceFields(data, year, random, now);
    assert f["custodyLog"] == Arr([Obj(InitialCustodyEntry(data, now))]);
    assert f["createdAt"] == Date(now);
  }

  /** A given evidence number is kept and a missing one generated;
      priority, condition, media and tags get their defaults when not
      given. */
  lemma EvidenceDocDefaults(data: Doc, year: int, random: string, now: int)
    ensures var d := EvidenceDoc(data, year, random, now);
      && (Truthy(Get(data, "evidenceNumber")) ==> d["evidenceNumber"] == data["evidenceNumber"])
      && (!Truthy(Get(data, "evidenceNumber")) ==> d["evidenceNumber"] == Str(RefNumber("EVD", year, random)))
      && Get(d, "priority") == Or(Get(data, "priority"), Str("Medium"))
      && Get(d, "condition") == Or(Get(data, "condition"), Str("Good"))
      && Get(d, "media") == Or(Get(data, "media"), Arr([]))
      && Get(d, "tags") == Or(Get(data, "tags"), Arr([]))
  {
    DefaultFields(data, year, random, now);
  }

  /** `create` writes the evidence number and the four defaults. */
  lemma DefaultFields(data: Doc, year: int, random: string, now: int)
    ensures var f := EvidenceFields(data, year, random, now);
      && "evidenceNumber" in f && f["evidenceNumber"] == Or(Get(data, "evidenceNumber"), Str(RefNumber("EVD", year, random)))
      && "priority" in f && f["priority"] == Or(Get(data, "priority"), Str("Medium"))
      && "condition" in f && f["condition"] == Or(Get(data, "condition"), Str("Good"))
      && "media" in f && f["media"] == Or(Get(data, "media"), Arr([]))
      && "tags" in f && f["tags"] == Or(Get(data, "tags"), Arr([]))
  {
    NumberFields(data, year, random, now);
    ListFields(data, year, random, now);
  }

  /** `create` writes the evidence number, the priority and the condition. */
  lemma NumberFields(data: Doc, year: int, random: string, now: int)
    ensures var f := EvidenceFields(data, year, random, now);
      && "evidenceNumber" in f && f["evidenceNumber"] == Or(Get(data, "evidenceNumber"), Str(RefNumber("EVD", year, random)))
      && "priority" in f && f["priority"] == Or(Get(data, "priority"), Str("Medium"))
      && "condition" in f && f["condition"] == Or(Get(data, "condition"), Str("Good"))
  {
    var f := EvidenceFields(data, year, random, now);
    assert f["evidenceNumber"] == Or(Get(data, "evidenceNumber"), Str(RefNumber("EVD", year, random)));
    assert f["priority"] == Or(Get(data, "priority"), Str("Medium"));
    assert f["condition"] == Or(Get(data, "condition"), Str("Good"));
  }

  /** `create` writes the media and the tags. */
  lemma ListFields(data: Doc, year: int, random: string, now: int)
    ensures var f := EvidenceFields(data, year, random, now);
      && "media" in f && f["media"] == Or(Get(data, "media"), Arr([]))
      && "tags" in f && f["tags"] == Or(Get(data, "tags"), Arr([]))
  {
    var f := EvidenceFields(data, year, random, now);
    assert f["media"] == Or(Get(data, "media"), Arr([]));
    assert f["tags"] == Or(Get(data, "tags"), Arr([]));
  }

  /** The five flags are false unless given truthy, and every other field
      of the data is stored as given. */
  lemma EvidenceDocFlags(data: Doc, year: int, random: string, now: int)
    ensures var d := EvidenceDoc(data, year, random, now);
      && (forall f | f in Flags :: Get(d, f) == Or(Get(data, f), Bool(false)))
      && forall k | k in data && k !in EvidenceFields(data, year, random, now) :: d[k] == data[k]
  {
    FlagFields(data, year, random, now);
  }

  /** `create` writes each flag, false unless the data gives it truthy. */
  lemma FlagFields(data: Doc, year: int, random: string, now: int)
    ensures var f := EvidenceFields(data, year, random, now);
      forall x | x in Flags :: x in f && f[x] == Or(Get(data, x), Bool(false))
  {
    var f := EvidenceFields(data, year, random, now);
    assert f["isSealed"] == Or(Get(data, "isSealed"), Bool(false));
    assert f["bagsSealed"] == Or(Get(data, "bagsSealed"), Bool(false));
    assert f["photographed"] == Or(Get(data, "photographed"), Bool(false));
    assert f["fingerprinted"] == Or(Get(data, "fingerprinted"), Bool(false));
    assert f["dnaCollected"] == Or(Get(data, "dnaCollected"), Bool(false));
  }

  /** The operators of `addCustodyEntry`: the entry stamped with the time
      is pushed onto the log and `updatedAt` refreshed. */
  function CustodyChanges(entry: Doc, now: int): seq<Change> {
    [Push("custodyLog", Obj(entry["timestamp" := Date(now)])), Set(map["updatedAt" := Date(now)])]
  }

  /** The operators of `addMedia`. */
  function MediaChanges(media: Doc, now: int): seq<Change> {
    [Push("media", Obj(media["uploadedAt" := Date(now)])), Set(map["updatedAt" := Date(now)])]
  }

  /** The operator of `update` as written: the patch without the keys
      that name a protected field, and a fresh `updatedAt`. A key that
      names a path inside a protected field stays. */
  function SafeUpdateAsWritten(patch: Doc, now: int): seq<Change> {
    StampedSet(Without(patch, Protected), now)
  }

  /** The operator of `update` as intended: the patch without every key
      that writes a protected field, plainly or through a path inside it,
      and a fresh `updatedAt`. */
  function SafeUpdate(patch: Doc, now: int): seq<Change> {
    StampedSet(Paths.WithoutPaths(patch, Protected), now)
  }

  /** The fields the store may index uniquely without refusing the writes
      below. */
  predicate WritableUnique(unique: seq<string>) {
    "custodyLog" !in unique && "media" !in unique && "updatedAt" !in unique
  }

  /** `addCustodyEntry` on a stored item appends exactly the stamped entry,
      answers true and changes no field but the log and `updatedAt`; on an
      unknown id it answers false and changes nothing. */
  lemma AddCustodyEntryEffect(docs: map<Id, Doc>, unique: seq<string>, id: Id, entry: Doc, now: int)
    requires UniqueHolds(docs, unique) && WritableUnique(unique)
    requires forall k | k in docs :: WellFormed(docs[k])
    ensures var s := UpdateOne(docs, unique, id, CustodyChanges(entry, now));
      && (id !in docs ==> s == Step(docs, Success(false)))
      && (id in docs ==>
        && s.result == Success(true) && id in s.docs
        && s.docs == docs[id := s.docs[id]]
        && CustodyLog(s.docs[id]) == CustodyLog(docs[id]) + [Obj(entry["timestamp" := Date(now)])]
        && WellFormed(s.docs[id])
        && Get(s.docs[id], "updatedAt") == Date(now)
        && forall f | f != "custodyLog" && f != "updatedAt" :: Get(s.docs[id], f) == Get(docs[id], f))
  {
    if id in docs {
      var cs := CustodyChanges(entry, now);
      var d := docs[id];
      var e := Obj(entry["timestamp" := Date(now)]);
      var d1 := d["custodyLog" := Arr(d["custodyLog"].items + [e])];
      var d2 := d1["updatedAt" := Date(now)];
      assert ApplyChange(d, cs[0]) == Success(d1);
      SetOne(d1, "updatedAt", Date(now));
      assert ApplyChanges(d1, cs[1..]) == Success(d2) by {
        assert cs[1..][1..] == [];
      }
      KeptKeysNoClash(docs, unique, id, d2);
      assert CustodyLog(d2) == CustodyLog(d) + [e];
      assert |CustodyLog(d2)| != |CustodyLog(d)|;
    }
  }

  /** The document `update` computes from a stored item: a patch that
      names `_id` fails; otherwise `updatedAt` is the time of the update,
      every plain key the patch keeps overwrites its field, and no
      protected field and no field the patch does not write changes. A
      patch of plain field names is merged in exactly. */
  lemma SafeUpdateResult(d: Doc, patch: Doc, now: int)
    ensures var r := ApplyChanges(d, SafeUpdate(patch, now));
      && ("_id" in patch ==> r == Failure(ImmutableId))
      && ((forall k | k in patch :: !Paths.Dotted(k) && k != "" && k != "_id") ==>
            r == Success(Merge(d, Without(patch, Protected)["updatedAt" := Date(now)])))
      && (r.Success? ==>
        && Get(r.value, "updatedAt") == Date(now)
        && (forall f | f in patch && !Paths.Dotted(f) && f !in Protected && f != "updatedAt" :: Get(r.value, f) == patch[f])
        && (forall f | f in Protected :: Get(r.value, f) == Get(d, f))
        && (forall f | f != "updatedAt" && f !in Paths.Heads(patch) :: Get(r.value, f) == Get(d, f)))
  {
    var p := Paths.WithoutPaths(patch, Protected)["updatedAt" := Date(now)];
    ApplyOne(d, Set(p));
    StrippedShape(patch, now);
    StrippedApply(d, patch, p, now);
  }

  /** `$set` of a stripped patch `p` of `patch`, stated over the facts
      `StrippedShape` gives about it. */
  lemma StrippedApply(d: Doc, patch: Doc, p: Doc, now: int)
    requires "updatedAt" in p && p["updatedAt"] == Date(now)
    requires "_id" in patch ==> "_id" in p
    requires forall f | f in Protected :: f !in Paths.Heads(p)
    requires forall k | k in p && k != "updatedAt" :: k in patch && p[k] == patch[k]
    requires forall f | f in patch && !Paths.Dotted(f) && f !in Protected :: f in p
    requires Paths.Heads(p) <= Paths.Heads(patch) + {"updatedAt"}
    ensures var r := ApplyChange(d, Set(p));
      && ("_id" in patch ==> r == Failure(ImmutableId))
      && ((forall k | k in patch :: !Paths.Dotted(k) && k != "" && k != "_id") ==> r == Success(Merge(d, p)))
      && (r.Success? ==>
        && Get(r.value, "updatedAt") == Date(now)
        && (forall f | f in patch && !Paths.Dotted(f) && f !in Protected && f != "updatedAt" :: Get(r.value, f) == patch[f])
        && (forall f | f in Protected :: Get(r.value, f) == Get(d, f))
        && (forall f | f != "updatedAt" && f !in Paths.Heads(patch) :: Get(r.value, f) == Get(d, f)))
  {
    if "_id" in patch {
      SetId(d, p);
    }
    if forall k | k in patch :: !Paths.Dotted(k) && k != "" && k != "_id" {
      StrippedPlain(d, patch, p);
    }
    if ApplyChange(d, Set(p)).Success? {
      StrippedEffect(d, patch, p, now);
    }
  }

  lemma StrippedPlain(d: Doc, patch: Doc, p: Doc)
    requires "updatedAt" in p
    requires forall k | k in p && k != "updatedAt" :: k in patch
    requires forall k | k in patch :: !Paths.Dotted(k) && k != "" && k != "_id"
    ensures ApplyChange(d, Set(p)) == Success(Merge(d, p))
  {
    forall k | k in p
      ensures !Paths.Dotted(k) && k != "" && k != "_id"
    {
      if k != "updatedAt" {
        assert k in patch;
      }
    }
    SetPlain(d, p);
  }

  lemma StrippedEffect(d: Doc, patch: Doc, p: Doc, now: int)
    requires "updatedAt" in p && p["updatedAt"] == Date(now)
    requires forall f | f in Protected :: f !in Paths.Heads(p)
    requires forall k | k in p && k != "updatedAt" :: k in patch && p[k] == patch[k]
    requires forall f | f in patch && !Paths.Dotted(f) && f !in Protected :: f in p
    requires Paths.Heads(p) <= Paths.Heads(patch) + {"updatedAt"}
    requires ApplyChange(d, Set(p)).Success?
    ensures var r := ApplyChange(d, Set(p)).value;
      && Get(r, "updatedAt") == Date(now)
      && (forall f | f in patch && !Paths.Dotted(f) && f !in Protected && f != "updatedAt" :: Get(r, f) == patch[f])
      && (forall f | f in Protected :: Get(r, f) == Get(d, f))
      && (forall f | f != "updatedAt" && f !in Paths.Heads(patch) :: Get(r, f) == Get(d, f))
  {
    SetEffect(d, p);
    StrippedFields(d, patch, p, ApplyChange(d, Set(p)).value, now);
  }

  lemma StrippedFields(d: Doc, patch: Doc, p: Doc, r: Doc, now: int)
    requires "updatedAt" in p && p["updatedAt"] == Date(now)
    requires forall f | f in Protected :: f !in Paths.Heads(p)
    requires forall k | k in p && k != "updatedAt" :: k in patch && p[k] == patch[k]
    requires forall f | f in patch && !Paths.Dotted(f) && f !in Protected :: f in p
    requires Paths.Heads(p) <= Paths.Heads(patch) + {"updatedAt"}
    requires forall f | f in p && !Paths.Dotted(f) :: f in r && r[f] == p[f]
    requires forall f | f !in Paths.Heads(p) :: Get(r, f) == Get(d, f)
    ensures && Get(r, "updatedAt") == Date(now)
      && (forall f | f in patch && !Paths.Dotted(f) && f !in Protected && f != "updatedAt" :: Get(r, f) == patch[f])
      && (forall f | f in Protected :: Get(r, f) == Get(d, f))
      && (forall f | f != "updatedAt" && f !in Paths.Heads(patch) :: Get(r, f) == Get(d, f))
  {
    assert !Paths.Dotted("updatedAt");
    forall f | f in patch && !Paths.Dotted(f) && f !in Protected && f != "updatedAt"
      ensures Get(r, f) == patch[f]
    {
      assert f in p;
    }
  }

  /** The patch `update` applies: the keys it keeps start with no
      protected field, `updatedAt` is plain, and on a patch of plain names
      the strip is the plain one. */
  lemma StrippedShape(patch: Doc, now: int)
    ensures var p := Paths.WithoutPaths(patch, Protected)["updatedAt" := Date(now)];
      && ("_id" in patch ==> "_id" in p)
      && Paths.Heads(p) == Paths.Heads(Paths.WithoutPaths(patch, Protected)) + {"updatedAt"}
      && (forall f | f in Protected :: f !in Paths.Heads(p))
      && (forall k | k in p && k != "updatedAt" :: k in patch && p[k] == patch[k])
      && (forall f | f in patch && !Paths.Dotted(f) && f !in Protected :: f in p)
      && Paths.Heads(p) <= Paths.Heads(patch) + {"updatedAt"}
      && ((forall k | k in patch :: !Paths.Dotted(k)) ==> p == Without(patch, Protected)["updatedAt" := Date(now)])
  {
    var w := Paths.WithoutPaths(patch, Protected);
    var p := w["updatedAt" := Date(now)];
    assert "_id" in patch ==> "_id" in p by {
      Paths.HeadOfPlain("_id");
    }
    assert Paths.Heads(p) == Paths.Heads(w) + {"updatedAt"} by {
      Paths.HeadsWith(w, "updatedAt", Date(now));
    }
    assert Paths.Heads(w) <= Paths.Heads(patch) && forall f | f in Protected :: f !in Paths.Heads(w) by {
      Paths.WithoutPathsHeads(patch, Protected);
    }
    assert forall f | f in patch && !Paths.Dotted(f) && f !in Protected :: f in p by {
      forall f | f in patch && !Paths.Dotted(f) && f !in Protected
        ensures f in w
      {
        Paths.HeadOfPlain(f);
      }
    }
    if forall k | k in patch :: !Paths.Dotted(k) {
      Paths.WithoutPathsPlain(patch, Protected);
    }
  }

  /** `update` never changes the custody log, the evidence number or the
      creation time of any item, whatever the patch holds, and every item
      keeps its well-formed log. */
  lemma UpdateProtects(docs: map<Id, Doc>, unique: seq<string>, id: Id, patch: Doc, now: int)
    requires forall k | k in docs :: WellFormed(docs[k])
    ensures var s := UpdateOne(docs, unique, id, SafeUpdate(patch, now));
      && (forall k, f | k in docs && k in s.docs && f in Protected :: Get(s.docs[k], f) == Get(docs[k], f))
      && (forall k | k in s.docs :: WellFormed(s.docs[k]))
  {
    if id in docs {
      SafeUpdateResult(docs[id], patch, now);
    }
  }

  /** On an existing item, `update` fails with a patch that names `_id`;
      otherwise every plain unprotected key of the patch takes the patch's
      value, `updatedAt` the time of the update, and every field the patch
      does not write stays (unless a unique index refuses the write). */
  lemma UpdateApplies(docs: map<Id, Doc>, unique: seq<string>, id: Id, patch: Doc, now: int)
    requires id in docs
    ensures var s := UpdateOne(docs, unique, id, SafeUpdate(patch, now));
      && ("_id" in patch ==> s == Step(docs, Failure(ImmutableId)))
      && (s.result.Success? ==>
        && id in s.docs
        && Get(s.docs[id], "updatedAt") == Date(now)
        && (forall f | f in patch && !Paths.Dotted(f) && f !in Protected && f != "updatedAt" :: Get(s.docs[id], f) == patch[f])
        && (forall f | f in docs[id] && f !in Paths.Heads(patch) && f != "updatedAt" :: Get(s.docs[id], f) == docs[id][f]))
  {
    SafeUpdateResult(docs[id], patch, now);
  }

  /** The strip as written lets a path inside the custody log through:
      `update(id, {"custodyLog.0": v})` on a stored item replaces the
      entry that records its collection, so the log no longer extends the
      one it had. */
  lemma TopLevelStripRewritesCustody(docs: map<Id, Doc>, unique: seq<string>, id: Id, v: Value, now: int)
    requires UniqueHolds(docs, unique) && WritableUnique(unique)
    requires id in docs && WellFormed(docs[id]) && v != CustodyLog(docs[id])[0]
    ensures var s := UpdateOne(docs, unique, id, SafeUpdateAsWritten(map["custodyLog.0" := v], now));
      && s.result == Success(true)
      && CustodyLog(s.docs[id]) == CustodyLog(docs[id])[0 := v]
      && !LogsExtend(docs, s.docs)
  {
    var d := docs[id];
    var nd := d["updatedAt" := Date(now)]["custodyLog" := Arr(CustodyLog(d)[0 := v])];
    CustodyPathUpdate(d, v, now);
    KeptKeysNoClash(docs, unique, id, nd);
    assert nd != d by {
      assert CustodyLog(nd)[0] != CustodyLog(d)[0];
    }
  }

  /** The update as written on one item: `"custodyLog.0"` replaces the
      first entry of its log. */
  lemma CustodyPathUpdate(d: Doc, v: Value, now: int)
    requires WellFormed(d)
    ensures ApplyChanges(d, SafeUpdateAsWritten(map["custodyLog.0" := v], now)) ==
      Success(d["updatedAt" := Date(now)]["custodyLog" := Arr(CustodyLog(d)[0 := v])])
  {
    CustodyPath(v);
    assert Without(map["custodyLog.0" := v], Protected) == map["custodyLog.0" := v];
    StampedPathSet(d, "custodyLog.0", v, Arr(CustodyLog(d)[0 := v]), now);
  }

  /** "custodyLog.0" writes position 0 inside the custody log, and
      "updatedAt" is a plain name. */
  lemma CustodyPath(v: Value)
    ensures Paths.Dotted("custodyLog.0") && Paths.Head("custodyLog.0") == "custodyLog"
    ensures Paths.Tail("custodyLog.0") == "0" && !Paths.Dotted("0")
    ensures Paths.IsIndex("0") && Paths.IndexOf("0") == 0
    ensures !Paths.Dotted("updatedAt") && Paths.Head("updatedAt") == "updatedAt"
  {
    Paths.HeadOfPath("custodyLog", "0");
    assert "custodyLog" + "." + "0" == "custodyLog.0";
    Paths.IndexKey(0, v);
    assert Text.NatToString(0) == "0";
    Paths.HeadOfPlain("updatedAt");
  }

  /** `addMedia` on a stored item whose media field is an array or absent
      appends exactly the stamped media record and leaves the custody log
      as it was; a media field of any other kind makes the push fail. */
  lemma AddMediaEffect(docs: map<Id, Doc>, unique: seq<string>, id: Id, media: Doc, now: int)
    requires UniqueHolds(docs, unique) && WritableUnique(unique)
    requires forall k | k in docs :: WellFormed(docs[k])
    ensures var s := UpdateOne(docs, unique, id, MediaChanges(media, now));
      && (id !in docs ==> s == Step(docs, Success(false)))
      && (id in docs && "media" in docs[id] && !docs[id]["media"].Arr? ==> s == Step(docs, Failure(NotAnArray("media"))))
      && (id in docs && ("media" !in docs[id] || docs[id]["media"].Arr?) ==>
        && s.result == Success(true) && id in s.docs
        && s.docs == docs[id := s.docs[id]]
        && Get(s.docs[id], "media") == Arr((if "media" in docs[id] then docs[id]["media"].items else []) + [Obj(media["uploadedAt" := Date(now)])])
        && CustodyLog(s.docs[id]) == CustodyLog(docs[id])
        && WellFormed(s.docs[id]))
  {
    if id in docs {
      var d := docs[id];
      if "media" !in d || d["media"].Arr? {
        var d2 := MediaApplied(d, media, now);
        KeptKeysNoClash(docs, unique, id, d2);
      }
    }
  }

  /** The operators of `addMedia` on one item whose media field is an
      array or absent: the stamped record is appended, `updatedAt` is now,
      and no other field changes. */
  lemma MediaApplied(d: Doc, media: Doc, now: int) returns (d2: Doc)
    requires "media" !in d || d["media"].Arr?
    ensures ApplyChanges(d, MediaChanges(media, now)) == Success(d2)
    ensures Get(d2, "media") == Arr((if "media" in d then d["media"].items else []) + [Obj(media["uploadedAt" := Date(now)])])
    ensures d2 != d && CustodyLog(d2) == CustodyLog(d) && (WellFormed(d) ==> WellFormed(d2))
    ensures forall f | f != "media" && f != "updatedAt" :: Get(d2, f) == Get(d, f)
  {
    var cs := MediaChanges(media, now);
    var m := Obj(media["uploadedAt" := Date(now)]);
    var old_items := if "media" in d then d["media"].items else [];
    var d1 := d["media" := Arr(old_items + [m])];
    assert "media" !in d ==> old_items + [m] == [m];
    d2 := d1["updatedAt" := Date(now)];
    assert ApplyChange(d, cs[0]) == Success(d1);
    SetOne(d1, "updatedAt", Date(now));
    assert ApplyChanges(d1, cs[1..]) == Success(d2) by {
      assert cs[1..][1..] == [];
    }
    assert d2["media"] != Get(d, "media") by {
      if "media" in d {
        assert |d2["media"].items| != |d["media"].items|;
      }
    }
  }

  /** Inserting a well-formed item keeps every item well formed and every
      custody log as it was. */
  lemma InsertKeepsLogs(docs: map<Id, Doc>, unique: seq<string>, id: Id, d: Doc)
    requires UniqueHolds(docs, unique) && WellFormed(d)
    requires forall k | k in docs :: WellFormed(docs[k])
    ensures var s := InsertOne(docs, unique, id, d);
      && UniqueHolds(s.docs, unique)
      && (forall k | k in s.docs :: WellFormed(s.docs[k]))
      && LogsExtend(docs, s.docs)
  {
    InsertOneEffect(docs, unique, id, d);
  }

  /** The evidence collection. */
  class EvidenceCollection {
    var docs: map<Id, Doc>
    const unique: seq<string>

    ghost predicate Valid()
      reads this
    {
      && UniqueHolds(docs, unique)
      && WritableUnique(unique)
      && forall k | k in docs :: WellFormed(docs[k])
    }

    constructor (unique: seq<string>)
      requires WritableUnique(unique)
      ensures Valid()
      ensures docs == map[] && this.unique == unique
    {
      docs := map[];
      this.unique := unique;
    }

    /** `findById` */
    function FindById(id: Id): Option<Doc>
      reads this
    {
      if id in docs then Some(docs[id]) else None
    }

    /** `create`: the item with its seeded custody log; a duplicate
        evidence number under a unique index fails with code 11000. */
    method Create(id: Id, data: Doc, year: int, random: string, now: int) returns (r: Result<Doc>)
      requires Valid()
      modifies this
      ensures Valid()
      ensures Step(docs, r) == InsertOne(old(docs), unique, id, EvidenceDoc(data, year, random, now))
      ensures LogsExtend(old(docs), docs)
    {
      var d := EvidenceDoc(data, year, random, now);
      EvidenceDocCustodySeed(data, year, random, now);
      InsertKeepsLogs(docs, unique, id, d);
      var s := InsertOne(docs, unique, id, d);
      docs := s.docs;
      r := s.result;
    }

    /** `addCustodyEntry` */
    method AddCustodyEntry(id: Id, entry: Doc, now: int) returns (r: Result<bool>)
      requires Valid()
      modifies this
      ensures Valid()
      ensures Step(docs, r) == UpdateOne(old(docs), unique, id, CustodyChanges(entry, now))
      ensures LogsExtend(old(docs), docs)
    {
      AddCustodyEntryEffect(docs, unique, id, entry, now);
      UpdateOneEffect(docs, unique, id, CustodyChanges(entry, now));
      var s := UpdateOne(docs, unique, id, CustodyChanges(entry, now));
      docs := s.docs;
      r := s.result;
    }

    /** `update` */
    method Update(id: Id, patch: Doc, now: int) returns (r: Result<bool>)
      requires Valid()
      modifies this
      ensures Valid()
      ensures Step(docs, r) == UpdateOne(old(docs), unique, id, SafeUpdate(patch, now))
      ensures LogsExtend(old(docs), docs)
    {
      UpdateProtects(docs, unique, id, patch, now);
      UpdateOneEffect(docs, unique, id, SafeUpdate(patch, now));
      var s := UpdateOne(docs, unique, id, SafeUpdate(patch, now));
      docs := s.docs;
      r := s.result;
    }

    /** `addMedia` */
    method AddMedia(id: Id, media: Doc, now: int) returns (r: Result<bool>)
      requires Valid()
      modifies this
      ensures Valid()
      ensures Step(docs, r) == UpdateOne(old(docs), unique, id, MediaChanges(media, now))
      ensures LogsExtend(old(docs), docs)
    {
      AddMediaEffect(docs, unique, id, media, now);
      UpdateOneEffect(docs, unique, id, MediaChanges(media, now));
      var s := UpdateOne(docs, unique, id, MediaChanges(media, now));
      docs := s.docs;
      r := s.result;
    }

    /** `delete` */
    method Delete(id: Id) returns (deleted: bool)
      requires Valid()
      modifies this
      ensures Valid()
      ensures docs == old(docs) - {id}
      ensures deleted <==> id in old(docs)
      ensures LogsExtend(old(docs), docs)
    {
      deleted := id in docs;
      docs := docs - {id};
    }
  }
}
