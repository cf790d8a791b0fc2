# Police records service: a verified model of its core

This project models the core of a police records-management application:
an Express server over a document store, and a React client. It covers
four parts.

- **The document store layer** (`server/mongodb-crud.js`). Each collection
  is a class over a map from ids to JSON documents, with `insertOne`,
  `updateOne` (`$set`, `$push`, `$inc`) and `deleteOne` as in the driver,
  and unique indexes that make an insert or update fail with a
  duplicate-key error. A `$set` key with a dot, such as `custodyLog.0`,
  writes inside the embedded document or array its first segment names,
  as the store does (`Paths`). The evidence collection keeps an
  append-only custody log, and its `update` strips the protected fields.
  As written, that strip and the profile route's strip remove keys by
  name only, so a dotted key gets through; both are modelled as written
  and as intended (see Findings), and the rest of the model uses the
  intended strip. The geofile
  collection applies creation defaults, filters and orders `findAll`,
  counts downloads and aggregates statistics.
- **The route handlers.** The live server wires in
  `server/mongodb-routes.js` and `server/evidence-routes.js`. The model
  covers their login, listings, geofile post and upload, profile update,
  and the evidence, custody and media routes. The older
  `server/routes.js` is modelled as a separate variant: its guards, login
  with the plaintext fallback, registration, user listing and deletion,
  and the geofile and vehicle checks. Each check is a decision function
  returning an `Outcome` (accepted with a value, or refused with an HTTP
  status and message). Each handler that writes is a method over the
  session or the collection it changes.
- **Client helpers:**
  - the geofiles page: size formatting, the access badge, tag badges,
    the query string, the `goBack` view machine, the file check and the
    creation form;
  - the officer form validator;
  - the user list filters, initials, stats and local delete;
  - the officer directory filter and sort, its CSV export and edit form.
- **Shared pieces:** JSON values and documents (`Json`), the string
  operations the code relies on (`Text`: `trim`, ASCII case mapping,
  `split`/`join`, the e-mail and phone patterns, decimal rendering, the
  key order), and a sequence filter (`Base`).

Outside effects are parameters: the clock (`now` in milliseconds, `year`),
generated ids and reference numbers, the random file size, bcrypt, and
`JSON.parse`.

The project's documentation and its code disagree in two places; the
model follows the code:

- The documented login (a plaintext `admin`/`admin123` fallback and a
  403 for a deactivated account) is the one in `server/routes.js`, which
  the server does not wire in. The live login in
  `server/mongodb-routes.js:34-71` compares with bcrypt only and refuses a
  missing or deactivated account with the same 401. Both are modelled
  (`LiveRoutes.LiveLoginDecision`, `LegacyRoutes.LoginDecision`).
- The documentation says update routes answer 404 when nothing was found.
  The code answers 404 when the store reports no modification. Every
  update `$set`s a fresh `updatedAt`, so the two agree, and
  `LiveRoutes.UpdateNotFoundIffMissing` proves it under the condition
  that the stored stamp differs from the new one.

## Model

| member | source | states |
|---|---|---|
| Store.InsertOneEffect | server/mongodb-crud.js:7-15 | an insert keeps every stored document and adds the new one under a fresh id exactly when no unique index clashes; a refused insert changes nothing; the unique indexes stay duplicate-free |
| Store.UpdateOneEffect | server/mongodb-crud.js:37-44 | an update by id touches at most that document, keeps the set of ids, changes nothing on failure, answers false for an unknown id, and answers true exactly when the document changed |
| Store.FreshStampModifies | server/mongodb-crud.js:39-43 | because every update `$set`s a new `updatedAt`, a successful update of an existing document always reports it modified |
| Store.RefNumber | server/mongodb-crud.js:533 | a generated reference number starts with its prefix and a dash |
| Store.RefNumberReadsBack | server/mongodb-crud.js:533 | a reference number splits at its dashes into exactly the prefix, the decimal year and the upper-cased random part, so each can be read back |
| Store.Stamped | server/mongodb-crud.js:58-62 | a created document has the caller's fields plus `createdAt` and `updatedAt`, both the creation time |
| Store.OfficerDocDefaults | server/mongodb-crud.js:532-541 | a new officer keeps a given badge number and status, else gets a generated OFC number and 'active'; every other field is stored as given |
| Store.ReportDocDefaults | server/mongodb-crud.js:600-605 | a new report keeps a given report number, else gets a generated RPT number; every other field is stored as given |
| Store.Enumerate | server/mongodb-crud.js:32-35 | `findAll` yields every stored document exactly once |
| Store.Collection.Insert | server/mongodb-crud.js:9-13 | the collection after `insertOne` is the one `InsertOneEffect` describes, and its unique indexes stay duplicate-free |
| Store.Collection.Create | server/mongodb-crud.js:55-65 | `create` inserts the caller's data with both timestamps |
| Store.Collection.CreateOfficer | server/mongodb-crud.js:528-551 | `OfficersCRUD.create` inserts the officer with its defaults |
| Store.Collection.CreateReport | server/mongodb-crud.js:597-611 | `ReportsCRUD.create` inserts the report with its number |
| Store.SetPlain | server/mongodb-crud.js:39-42 | a `$set` of plain field names other than `_id` merges them into the document |
| Store.SetId | server/mongodb-crud.js:39-42 | a `$set` that names `_id`, plainly or as the start of a path, fails |
| Store.SetEffect | server/mongodb-crud.js:39-42 | an accepted `$set` writes every plain key, keeps every field no key starts with, and adds no field but those the keys start with |
| Store.StampedPathSet | server/mongodb-crud.js:39-42 | a stamped `$set` of one dotted key stamps `updatedAt` and replaces the field the key starts with by the write of the rest of the path inside it |
| Paths.SetInEffect | server/mongodb-crud.js:39-42 | a `$set` the store accepts has well-formed keys, gives every plain key its value, keeps every field no key starts with and adds only the fields the keys start with |
| Paths.SetOnePath | server/mongodb-crud.js:39-42 | plain keys and one dotted key: the plain keys are merged and the field the dotted key starts with gets the key's value inside it (a new embedded document, a field of an embedded one, or a position of an array) |
| Paths.SetFieldAndPath | server/mongodb-crud.js:39-42 | one plain field and one dotted key that starts elsewhere are both written, each as if alone |
| Paths.WithoutPathsHeads | server/mongodb-crud.js:356 | stripping by the field before the first dot leaves no key that writes a stripped field and keeps every other key |
| Store.Collection.Update | server/mongodb-crud.js:37-44 | the generic update `$set`s the patch with a fresh `updatedAt`; every other document and the set of ids are unchanged |
| Store.Collection.Delete | server/mongodb-crud.js:46-50 | `delete` removes exactly the document with that id and answers true exactly when it existed |
| EvidenceStore.EvidenceDocCustodySeed | server/mongodb-crud.js:253-264 | a new item's custody log is exactly one 'collected' entry by collectedBy or 'Unknown Officer', at location or 'Unknown Location', stamped with the creation time |
| EvidenceStore.EvidenceDocDefaults | server/mongodb-crud.js:251-270 | a given evidence number is kept and a missing one generated; priority 'Medium', condition 'Good', media [] and tags [] unless given |
| EvidenceStore.EvidenceDocFlags | server/mongodb-crud.js:270-276 | isSealed and the four other flags are false unless given truthy; every other field of the data is stored as given |
| EvidenceStore.AddCustodyEntryEffect | server/mongodb-crud.js:337-349 | on a stored item the log grows by exactly the stamped entry, earlier entries stay, the answer is true and only the log and `updatedAt` change; on an unknown id nothing changes and the answer is false |
| EvidenceStore.SafeUpdateResult | server/mongodb-crud.js:355-360 | the update fails when the patch names `_id`; otherwise `updatedAt` is the update time, every plain unprotected key overwrites, custodyLog, evidenceNumber and createdAt stay even against dotted keys such as `custodyLog.0`, every field no key starts with stays, and a patch of plain names is merged in exactly |
| EvidenceStore.UpdateProtects | server/mongodb-crud.js:351-364 | `update` never changes the custody log, evidence number or creation time of any item, whatever the patch holds, dotted paths into those fields included, and every log stays well formed |
| EvidenceStore.UpdateApplies | server/mongodb-crud.js:358-361 | a patch naming `_id` fails and changes nothing; a successful update gives every plain unprotected key the patch's value and `updatedAt` the update time, and keeps every field that no patch key starts with |
| EvidenceStore.CustodyPathUpdate | server/mongodb-crud.js:356-360 | with the strip as written, `{"custodyLog.0": v}` replaces the first custody entry and stamps `updatedAt` |
| EvidenceStore.TopLevelStripRewritesCustody | server/mongodb-crud.js:351-364 | with the strip as written, `{"custodyLog.0": v}` succeeds and rewrites the entry that records the collection, so the log no longer extends the old one |
| EvidenceStore.AddMediaEffect | server/mongodb-crud.js:366-377 | `addMedia` appends exactly the stamped media record and leaves the custody log unchanged; a non-array media field makes the push fail |
| EvidenceStore.EvidenceCollection.Create | server/mongodb-crud.js:246-289 | `create` inserts the item with its seeded custody log |
| EvidenceStore.EvidenceCollection.AddCustodyEntry | server/mongodb-crud.js:337-349 | `addCustodyEntry` is the `$push`/`$set` update of `AddCustodyEntryEffect`, and logs only grow |
| EvidenceStore.EvidenceCollection.Update | server/mongodb-crud.js:351-364 | `update` is the `$set` of the patch stripped by field before the first dot, with a fresh `updatedAt`, and every custody log extends the one it had |
| EvidenceStore.EvidenceCollection.AddMedia | server/mongodb-crud.js:366-377 | `addMedia` is the `$push`/`$set` update of `AddMediaEffect` |
| EvidenceStore.EvidenceCollection.Delete | server/mongodb-crud.js:379-385 | `delete` removes exactly that item and answers whether it existed |
| GeofileStore.GeofileFields | server/mongodb-crud.js:649-660 | `create` writes exactly the eight fields downloadCount, lastAccessedAt, isPublic, accessLevel, tags, metadata, createdAt and updatedAt over the caller's data |
| GeofileStore.GeofileDocDefaults | server/mongodb-crud.js:649-659 | a new record counts 0 downloads, is 'internal' and not public, has tags [] and metadata {} unless given; array tags are kept; unparseable tags or metadata text make `create` fail |
| GeofileStore.GeofileDocKeeps | server/mongodb-crud.js:650 | every field of the caller's data that `create` does not write is stored as given |
| GeofileStore.SubmittedGeofile | server/mongodb-routes.js:631-636 | the posted record is the body plus uploadedBy (session user or 1), lastAccessedAt now and downloadCount forced to 0 |
| GeofileStore.NoFiltersMatchAll | server/mongodb-crud.js:684-723 | with no filter given, every record matches |
| GeofileStore.FileTypeIgnoresCase | server/mongodb-crud.js:701-703 | the file-type filter matches exactly when record and filter agree ignoring case (the anchored pattern read as text, see Left out) |
| GeofileStore.TagsFilterSharesTag | server/mongodb-crud.js:710-713 | the tags filter keeps a record exactly when it shares a tag with the filter |
| GeofileStore.NewerOrUndatedIsPreorder | server/mongodb-crud.js:722 | the newest-first order of `sort({createdAt: -1})` is total and transitive |
| GeofileStore.InsertNewest | server/mongodb-crud.js:722 | placing one record into a newest-first listing keeps it newest-first and adds exactly that record |
| GeofileStore.GeofileCollection.Query | server/mongodb-crud.js:684-723 | the listing holds exactly the stored records that satisfy every given filter, each once, newest `createdAt` first |
| GeofileStore.GeofileCollection.FindAll | server/mongodb-crud.js:684-734 | `findAll` is that listing, each record presented with its id and parsed tags and metadata |
| GeofileStore.PresentAll | server/mongodb-crud.js:727-732 | every listed record is presented in order, and a record whose text does not parse fails the listing |
| GeofileStore.PresentedKeepsFields | server/mongodb-crud.js:727-732 | a presented record carries its id and keeps every stored field other than tags and metadata |
| GeofileStore.StatsOf | server/mongodb-crud.js:811-836 | `getStats` answers the total, one group entry per record for file type and access level, and the summed downloads; zeros on an empty collection |
| GeofileStore.SumDownloadsRemove | server/mongodb-crud.js:828 | removing one record from the sum subtracts its count |
| GeofileStore.SumDownloadsAnyOrder | server/mongodb-crud.js:828 | the downloads total does not depend on the order the store scans the records in |
| GeofileStore.StatsCountEveryRecord | server/mongodb-crud.js:811-836 | the stats total is the number of records, and any two scans give the same totals |
| GeofileStore.IncrementDownloadEffect | server/mongodb-crud.js:798-809 | `incrementDownload` raises a numeric (or absent) count by exactly 1, sets lastAccessedAt and changes nothing else; a non-numeric count fails; an unknown id answers false |
| GeofileStore.GeofileCollection.Create | server/mongodb-crud.js:645-674 | `create` inserts the record with its defaults and answers it with its id |
| GeofileStore.GeofileCollection.Update | server/mongodb-crud.js:759-777 | `update` parses text tags and metadata and `$set`s the result with a fresh updatedAt; a parse failure changes nothing |
| GeofileStore.GeofileCollection.UpdateAccess | server/mongodb-crud.js:788-796 | `updateAccess` only sets lastAccessedAt |
| GeofileStore.GeofileCollection.IncrementDownload | server/mongodb-crud.js:798-809 | `incrementDownload` is the `$inc`/`$set` update of `IncrementDownloadEffect` |
| GeofileStore.GeofileCollection.Delete | server/mongodb-crud.js:779-786 | `delete` removes exactly that record and answers whether it existed |
| GeofileStore.GeofileCollection.GetStats | server/mongodb-crud.js:811-836 | `getStats` aggregates one scan of the collection, and its total is the record count |
| Auth.RequireAuth | server/routes.js:79-84 | `requireAuth` refuses with 401 exactly when the session has no user id |
| Auth.RequireAdmin | server/routes.js:87-92 | `requireAdmin` lets through exactly a session user whose role is 'admin', and refuses everything else with 403 |
| Auth.SessionUser | server/routes.js:171-177 | the session user holds the id and the account's username, role, firstName and lastName, and nothing else |
| Auth.SignedInGuards | server/routes.js:79-92 | a session set with a truthy id passes `requireAuth`, and passes `requireAdmin` exactly when the account's role is 'admin' |
| Auth.Session.SignIn | server/routes.js:170-177 | a login writes the user id and the session user into the session |
| LegacyRoutes.LoginDecision | server/routes.js:110-195 | a body the login schema refuses is answered 400 'Invalid input: ' and the schema's messages joined by ', '; a granted login answers the account without its password, with the same id the session records |
| LegacyRoutes.LoginCheckOrder | server/routes.js:146-159 | the login checks run in order: unknown user 401, refused password 401, deactivated account 403; a granted login found an active account whose password was accepted |
| LegacyRoutes.AdminFallbackPassword | server/routes.js:141-142 | a fallback-storage user named 'admin' gets in with 'admin123' whatever password is stored |
| LegacyRoutes.StoredPasswordRequired | server/routes.js:141-142 | any other fallback-storage user needs the stored password exactly |
| LegacyRoutes.NoPasswordNoLogin | server/routes.js:123-128 | a document-store user without a password is refused whatever bcrypt would answer |
| LegacyRoutes.LoginGrantsAccess | server/routes.js:170-177 | the session a granted login sets passes `requireAuth`, and passes `requireAdmin` exactly when the account's role is 'admin' |
| LegacyRoutes.Login | server/routes.js:170-185 | the session is written exactly when the login is granted, and the answer is the decision's |
| LegacyRoutes.RegisterInputAccepts | server/routes.js:206-253 | the input checks pass exactly when the body is not empty, every required field is truthy, the password is at least 6 long and the e-mail matches `\S+@\S+\.\S+`; each refusal is a 400 |
| LegacyRoutes.UserDataCore | server/routes.js:310-318 | a new user holds the hash and never the password as sent, is active, and has role 'user' unless the body names one |
| LegacyRoutes.UserDataOptional | server/routes.js:320-324 | badgeNumber, department, position and phone are stored exactly when the body gives them a truthy value |
| LegacyRoutes.UserResponse | server/routes.js:348-363 | the registration answer carries the id twice and never the password |
| LegacyRoutes.CreateFailure | server/routes.js:330-343 | a failed insert answers 409 exactly for a duplicate key, and 500 otherwise |
| LegacyRoutes.RegistrationRefusals | server/routes.js:280-294 | a refused registration changes nothing; a taken username gives 409 before the e-mail is looked at; a taken e-mail gives 409 |
| LegacyRoutes.RegistrationStores | server/routes.js:296-371 | a successful registration stores exactly one new user with unused username and e-mail, and answers without the password |
| LegacyRoutes.Register | server/routes.js:199-371 | the handler leaves the users table and answers as `Registration` describes |
| LegacyRoutes.ListingDefaults | server/routes.js:588-603 | each listed user gets exactly the display fields: id twice, role 'user', isActive true when absent, '' for the other missing fields |
| LegacyRoutes.ListedUserLeaksPassword | server/routes.js:589-604 | as written, a listed user still carries the stored password hash |
| LegacyRoutes.ListedUser | server/routes.js:589-604 | the corrected entry carries no password and has its id |
| LegacyRoutes.ListedUserKeepsTheRest | server/routes.js:588-603 | the corrected entry differs from the one as written only by the password |
| LegacyRoutes.UserList | server/routes.js:588-605 | `GET /api/users` answers one corrected entry per user (see Findings): without the password, each with its id |
| LegacyRoutes.UserDeletionEffect | server/routes.js:615-640 | a deletion answers 404 for an unknown id and 400 for the 'admin' account, removes exactly the named user otherwise, and never removes an 'admin' account |
| LegacyRoutes.DeleteUser | server/routes.js:615-640 | the handler leaves the users table and answers as `UserDeletion` describes |
| LegacyRoutes.GeofileCheckAccepts | server/routes.js:1042-1065 | a geofile is accepted exactly when its type is a string whose lower case is one of the seven allowed types; every refusal is a 400 |
| LegacyRoutes.VehicleStatus | server/routes.js:1252-1257 | a status patch is accepted exactly for available, on_patrol, responding or out_of_service |
| LegacyRoutes.VehicleLocation | server/routes.js:1238-1243 | a location patch is accepted exactly for an array of length 2 |
| LiveRoutes.LiveLoginDecision | server/mongodb-routes.js:34-71 | a granted login answers exactly the id, username, role, firstName, lastName, email and badgeNumber of the account, never its password |
| LiveRoutes.LiveLoginOrder | server/mongodb-routes.js:37-46 | a missing or disabled account is refused with 401 whatever the password comparison says; a wrong password is 401; a login is granted exactly for an active account whose password compares equal |
| LiveRoutes.LiveLoginGrantsAccess | server/mongodb-routes.js:48-55 | the session a granted login sets names the account by its ObjectId, passes `requireAuth`, and passes `requireAdmin` exactly when the account's role is 'admin' |
| LiveRoutes.LiveLogin | server/mongodb-routes.js:34-71 | the session is written exactly when the login is granted; a refusal leaves it as it was |
| LiveRoutes.ListedUser | server/mongodb-routes.js:93-99 | a listed user has every stored field except the password, plus its id |
| LiveRoutes.UserList | server/mongodb-routes.js:87-101 | `GET /api/users` answers one entry per stored user, none holding a password |
| LiveRoutes.Last3EndsId | server/mongodb-routes.js:173 | `slice(-3)` is the last three characters of the id, or the whole id when shorter |
| LiveRoutes.NumberOrFallback | server/mongodb-routes.js:245 | a stored number is shown as it is; a missing one is the prefix, the year and the upper-cased last three characters of the id; either way the shown number is truthy |
| LiveRoutes.ListingsKeepRecords | server/mongodb-routes.js:163-253 | the case, OB and report listings keep every stored field they do not fill in, always show a number, and show 'Officer Smith' for an OB entry without an officer |
| LiveRoutes.UpdateAnswer | server/mongodb-routes.js:212-228 | an update answers 404 exactly when the store reported no change, and answers the stored record with its id exactly when it reported one |
| LiveRoutes.UpdateNotFoundIffMissing | server/mongodb-routes.js:212-228 | because every update stamps a fresh `updatedAt`, an update route answers 404 exactly for an unknown id and answers a known record as updated |
| LiveRoutes.UpdateRoute | server/mongodb-routes.js:289-309 | the case, OB and report update routes apply the stamped patch and answer as `UpdateAnswer` says |
| LiveRoutes.DeleteRoute | server/mongodb-routes.js:311-324 | the OB and report delete routes remove exactly that record and answer 404 exactly when it was not stored |
| LiveRoutes.QueryFilters | server/mongodb-routes.js:584-591 | every query parameter but tags is handed to `findAll` unchanged |
| LiveRoutes.QueryTags | server/mongodb-routes.js:588 | no tags parameter filters on no tag; otherwise the tags are the comma-free pieces that join back to the parameter |
| LiveRoutes.GeofilePostAccepts | server/mongodb-routes.js:639-647 | a posted geofile is accepted exactly when it has a file name and a string type whose lower case is one of the seven allowed types, and an accepted one counts 0 downloads |
| LiveRoutes.GeofilePostRefusals | server/mongodb-routes.js:639-647 | a missing name or type, or a string type off the list, is refused with 400 |
| LiveRoutes.SubmittedKeepsNames | server/mongodb-routes.js:631-636 | the record checked keeps the body's file name and type |
| LiveRoutes.UploadTagNames | server/mongodb-routes.js:724 | an empty tags field gives no tags, and each other piece is one comma-separated part, trimmed |
| LiveRoutes.UploadCheck | server/mongodb-routes.js:707-742 | an upload is refused with 400 'Name/Label is required' exactly when the name is empty or only white space; an accepted record has exactly the upload's fields |
| LiveRoutes.UploadRecordField | server/mongodb-routes.js:718-742 | each field of an accepted upload is the value derived from the form for it |
| LiveRoutes.UploadNaming | server/mongodb-routes.js:714-720 | the stored name and path are the name, a dot and the lower-cased type, which defaults to GEOJSON |
| LiveRoutes.UploadTypeAndSize | server/mongodb-routes.js:721-722 | the type is stored upper-cased and the size lies in [10000, 110000) |
| LiveRoutes.UploadTags | server/mongodb-routes.js:724 | the tags are stored as the array of the tag names |
| LiveRoutes.UploadTagNamesShape | server/mongodb-routes.js:724 | no tag holds a comma or begins or ends with white space, and there are none exactly when the field is empty |
| LiveRoutes.TrimShape | server/mongodb-routes.js:724 | `trim` keeps only characters of its input and neither starts nor ends with white space |
| LiveRoutes.UploadTagsRoundTrip | server/mongodb-routes.js:724 | a tags field without white space is stored as its comma-separated pieces, which join back to the field |
| LiveRoutes.UploadDefaults | server/mongodb-routes.js:725-727 | the public flag is true exactly for the text 'true'; a non-empty access level or coordinate system is stored as sent, an empty one becomes 'internal' or 'WGS84' |
| LiveRoutes.UploadOwnerAndCount | server/mongodb-routes.js:740-741 | the uploader defaults to user 1 and the record starts with no downloads |
| LiveRoutes.UploadRecordKinds | server/mongodb-routes.js:718-742 | an accepted upload has array tags, a boolean flag, a non-empty access level and a zero count |
| LiveRoutes.UploadStored | server/mongodb-routes.js:744 | what `create` stores for an upload keeps its names, type, tags, flag, access level and zero count, and is stamped with the creation time |
| LiveRoutes.CreateKeepsUpload | server/mongodb-crud.js:649-659 | `create` overrides none of the fields an upload sets |
| LiveRoutes.CreateGeofile | server/mongodb-routes.js:649-656 | a checked record is inserted with its defaults and answered with its id; an unparseable record changes nothing and answers 500 |
| LiveRoutes.GeofilePost | server/mongodb-routes.js:627-657 | a refused post changes nothing and answers the refusal; an accepted one is created as `CreateGeofile` says: inserted and answered with its id, or, when the store refuses it or its tags or metadata text does not parse, nothing changes and the answer is 500 'Failed to create geofile record' |
| LiveRoutes.Upload | server/mongodb-routes.js:700-755 | a refused upload changes nothing and answers 400; an accepted one is inserted and answered with its id, or, when the store refuses it or its text does not parse, nothing changes and the answer is 500 'Failed to upload geofile' |
| LiveRoutes.GetGeofile | server/mongodb-routes.js:603-625 | an unknown id answers 404 and changes nothing; a known one is answered as it was read while its access time is brought up to now |
| LiveRoutes.GeofileUpdateRoute | server/mongodb-routes.js:659-681 | the update parses text tags and metadata, applies the stamped patch and answers as `UpdateAnswer` says; a parse failure changes nothing and answers 500 |
| LiveRoutes.GeofileDeleteRoute | server/mongodb-routes.js:683-698 | the record is removed and the answer is 404 exactly when it was not stored |
| LiveRoutes.RecordDownload | server/mongodb-routes.js:757-766 | the download count is raised as `incrementDownload` says, and an unknown id is still answered 200 |
| LiveRoutes.StripProfilePatch | server/mongodb-routes.js:905-910 | as written, the patch is the body without the keys password, _id, id and userId, every other key as sent, dotted ones included |
| LiveRoutes.ProfilePatch | server/mongodb-routes.js:905-910 | the patch holds no key that writes password, _id, id or userId, plainly or through a path, and keeps every other key of the body as sent |
| LiveRoutes.StampedSetKeeps | server/mongodb-routes.js:913 | a stamped `$set` whose keys start with none of the given fields leaves those fields as they were |
| LiveRoutes.PasswordPathUpdate | server/mongodb-routes.js:905-913 | with the strip as written, the body `{"password.x": v}` gives a profile without a password a `password` field |
| LiveRoutes.TopLevelStripSetsPassword | server/mongodb-routes.js:905-913 | with the strip as written, `{"password.x": v}` succeeds on the stored profile and leaves it a password field |
| LiveRoutes.ProfileResponse | server/mongodb-routes.js:937-952 | the answer holds exactly the id and the thirteen listed profile fields, never a password |
| LiveRoutes.ProfileUpdateProtects | server/mongodb-routes.js:893-923 | without a user nothing changes and the answer is 404; an existing profile keeps its password, ids and owner whatever the body says, dotted paths such as `password.x` included, and no other profile changes |
| LiveRoutes.ProfileCreateOwned | server/mongodb-routes.js:924-935 | a user without a profile gets exactly one new profile that belongs to them and holds no password; a refusal changes nothing |
| LiveRoutes.UpdateProfile | server/mongodb-routes.js:871-961 | the handler leaves the profiles and answers as `ProfileUpdate` describes |
| EvidenceRoutes.WithIdFirst | server/evidence-routes.js:64-67 | `{ id, ...doc }` keeps every stored field, a stored `id` included, and adds the id only when the item has none |
| EvidenceRoutes.EvidenceInput | server/evidence-routes.js:82-85 | the data created is the body with collectedBy defaulting to 'Unknown Officer', every other field as sent |
| EvidenceRoutes.EvidenceCheck | server/evidence-routes.js:87-93 | a new item is refused with 400 exactly when type, description or location is falsy |
| EvidenceRoutes.CreateFailure | server/evidence-routes.js:108-115 | a failed create answers 409 exactly for a duplicate key and 500 otherwise |
| EvidenceRoutes.EvidenceCreationEffect | server/evidence-routes.js:77-116 | a refused request creates nothing; 400 exactly when the check fails; 409 exactly when the id or a unique field is taken; otherwise exactly the new item is stored and answered with its id |
| EvidenceRoutes.EvidenceCreationCustody | server/evidence-routes.js:82-95 | the stored item has a one-entry custody log, action 'collected', naming the collecting officer |
| EvidenceRoutes.EvidenceCreationCollector | server/evidence-routes.js:82-95 | the stored item names a truthy collector, and keeps a given evidence number |
| EvidenceRoutes.CreateEvidence | server/evidence-routes.js:77-116 | the handler leaves the collection and answers as `EvidenceCreation` describes |
| EvidenceRoutes.CustodyEntryCheck | server/evidence-routes.js:150-164 | a custody request is refused with 400 exactly when action or officer is falsy; the entry holds exactly action, officer, notes and location (defaulting to '') and the time |
| EvidenceRoutes.AppendAnswer | server/evidence-routes.js:166-176 | the answer is 200 exactly when the store appended, and 404 exactly when it found no item |
| EvidenceRoutes.AddCustody | server/evidence-routes.js:147-181 | a refused request changes nothing; an accepted one is the `addCustodyEntry` update, answered as `AppendAnswer` says |
| EvidenceRoutes.CustodyRouteEffect | server/evidence-routes.js:147-181 | on an unknown item nothing changes and the answer is 404; on a stored item the log grows by exactly the new entry and earlier entries stay |
| EvidenceRoutes.MediaCheck | server/evidence-routes.js:187-201 | a media request is refused with 400 exactly when name, url or type is falsy; the record holds exactly those three, uploadedBy (default 'Unknown') and the time |
| EvidenceRoutes.AddMediaRoute | server/evidence-routes.js:184-218 | a refused request changes nothing; an accepted one is the `addMedia` update, answered as `AppendAnswer` says |
| EvidenceRoutes.MediaRouteEffect | server/evidence-routes.js:184-218 | a media request is answered 404 exactly for an unknown item, and never changes a custody log |
| EvidenceRoutes.ListedEvidence | server/evidence-routes.js:14-44 | a listed item has exactly the id and the listed fields |
| EvidenceRoutes.ListedEvidenceDefaults | server/evidence-routes.js:23-28 | every listed item names a truthy collecting officer, shows media and tags as [] when missing, and shows the stored custody log |
| EvidenceRoutes.EvidenceList | server/evidence-routes.js:8-52 | `GET /api/evidence` answers one listed entry per item, in scan order |
| EvidenceRoutes.GetEvidence | server/evidence-routes.js:55-74 | an unknown id answers 404; a stored one is answered with its id and every stored field |
| EvidenceRoutes.UpdateAnswer | server/evidence-routes.js:122-139 | an update answers 404 exactly when the store reported no change, and answers the item exactly when it reported one |
| EvidenceRoutes.UpdateEvidence | server/evidence-routes.js:119-144 | the handler applies the protected update and answers as `UpdateAnswer` says |
| EvidenceRoutes.UpdateEvidenceAnswer | server/evidence-routes.js:119-144 | an evidence update answers 404 exactly for an unknown id, and an answered item still has its custody log, evidence number and creation time |
| EvidenceRoutes.DeleteEvidence | server/evidence-routes.js:269-287 | the item is removed and the answer is 404 exactly when it was not stored |
| GeofilesView.RoundDiv | client/src/components/Geofiles/Geofiles.jsx:387-388 | `Math.round(n / d)` is the whole number within half a divisor of n |
| GeofilesView.FileSizeUnits | client/src/components/Geofiles/Geofiles.jsx:384-389 | a size is 'Unknown size' exactly when absent or 0; below 1024 it is shown in B; below 1048576 as the nearest whole number of KB; otherwise as the nearest whole number of MB |
| GeofilesView.AccessBadgeNamesLevel | client/src/components/Geofiles/Geofiles.jsx:391-398 | a public, department or internal level in any case gets the base badge class plus its lower-cased name; any other value gets the base class alone |
| GeofilesView.AccessBadgeIgnoresCase | client/src/components/Geofiles/Geofiles.jsx:392 | two spellings of a level that differ only in case get the same badge |
| GeofilesView.BadgesCoverTags | client/src/components/Geofiles/Geofiles.jsx:576-584 | a card shows at most three tags, the first ones, and '+k' exactly when k more are hidden, k read back from the text |
| GeofilesView.Append | client/src/components/Geofiles/Geofiles.jsx:52 | `params.append` adds exactly one parameter after the others |
| GeofilesView.QueryStep | client/src/components/Geofiles/Geofiles.jsx:52-57 | each `if (value) params.append(...)` keeps the query holding exactly the set filters seen so far, in page order |
| GeofilesView.QueryComplete | client/src/components/Geofiles/Geofiles.jsx:51-57 | after the six appends the query holds each set filter once with its value, no empty one, in page order |
| GeofilesView.BuildQuery | client/src/components/Geofiles/Geofiles.jsx:51-57 | the query parameters are exactly the non-empty filters, each with its value, in the order the page appends them |
| GeofilesView.ListUrl | client/src/components/Geofiles/Geofiles.jsx:59-60 | the request always goes to `/api/geofiles` |
| GeofilesView.ListUrlBare | client/src/components/Geofiles/Geofiles.jsx:59-60 | the URL has no query string exactly when no filter is set |
| GeofilesView.BackReachesList | client/src/components/Geofiles/Geofiles.jsx:230-244 | going back twice always reaches the list, once unless editing (edit leads to detail); leaving the map clears the vehicle and leaving creation clears the geofile |
| GeofilesView.GeofilesPage.constructor | client/src/components/Geofiles/Geofiles.jsx:32-34 | the page opens on the list with nothing selected |
| GeofilesView.GeofilesPage.NavigateTo | client/src/components/Geofiles/Geofiles.jsx:225-228 | `navigateToView` sets the view and the geofile and keeps the vehicle |
| GeofilesView.GeofilesPage.SelectVehicle | client/src/components/Geofiles/Geofiles.jsx:246-248 | selecting a vehicle changes only the vehicle |
| GeofilesView.GeofilesPage.GoBack | client/src/components/Geofiles/Geofiles.jsx:230-244 | `goBack` moves the page to the screen `Back` gives |
| GeofilesView.LastDot | client/src/components/Geofiles/Geofiles.jsx:693 | the position found holds the last '.' of the name, and none is found exactly when the name has no '.' |
| GeofilesView.LastPieceStep | client/src/components/Geofiles/Geofiles.jsx:693 | `split('.').pop()` of a name is that of its tail when a '.' follows, and the whole name otherwise |
| GeofilesView.LastPieceAfterLastDot | client/src/components/Geofiles/Geofiles.jsx:693 | `split('.').pop()` is the text after the last '.', or the whole name without one |
| GeofilesView.AllowedPieceClean | client/src/components/Geofiles/Geofiles.jsx:672 | an allowed extension is not empty and holds no '/' |
| GeofilesView.AcceptedNameParts | client/src/components/Geofiles/Geofiles.jsx:693-711 | for an accepted file, the name the form is given and the extension put back together make the file name |
| GeofilesView.GeofileForm.constructor | client/src/components/Geofiles/Geofiles.jsx:655-670 | the creation form starts with its defaults, no error and no file |
| GeofilesView.GeofileForm.HandleFileChange | client/src/components/Geofiles/Geofiles.jsx:689-718 | no file changes nothing; a file whose last extension, lower-cased, is not .shp, .kml, .geojson or .csv leaves only the file error; an accepted file is selected, keeps a name already typed or takes the file name without its extension, and sets the type to the upper-cased extension |
| GeofilesView.GeofileForm.HandleInputChange | client/src/components/Geofiles/Geofiles.jsx:681-687 | the field takes the value typed and only that field's error is cleared |
| GeofilesView.GeofileForm.ValidateForm | client/src/components/Geofiles/Geofiles.jsx:720-731 | the form is valid exactly when the name is not blank and a file is chosen, with one error per failed check |
| OfficerForm.InitialForm | client/src/components/Officers/AddOfficerModal.jsx:7-23 | the form has exactly the fifteen fields; each holds the edited officer's value when truthy and its default otherwise; a new officer's form is the defaults |
| OfficerForm.InitialFormFromOfficer | client/src/components/Officers/AddOfficerModal.jsx:7-23 | a non-empty text of the edited officer fills its field; a missing one leaves the default, so shift 'Day' and status 'active' |
| OfficerForm.CheckedNamed | client/src/components/Officers/AddOfficerModal.jsx:76-81 | a form field name is matched to the checked field of that name, and to none exactly when no checked field has it |
| OfficerForm.FieldErrors | client/src/components/Officers/AddOfficerModal.jsx:84-110 | a field is in error exactly when its check fails, and then carries its message |
| OfficerForm.ValidIff | client/src/components/Officers/AddOfficerModal.jsx:84-112 | the form is valid exactly when both names hold a non-space character, department and position are chosen, and e-mail and phone are each empty or match their patterns |
| OfficerForm.EmptyFormRefused | client/src/components/Officers/AddOfficerModal.jsx:7-101 | a new officer's blank form is refused with exactly the two names, the department and the position in error |
| OfficerForm.ErrorsAreFieldLocal | client/src/components/Officers/AddOfficerModal.jsx:84-110 | changing one field leaves the verdict on every other field as it was |
| OfficerForm.PhonePatternShape | client/src/components/Officers/AddOfficerModal.jsx:107 | '+' and digits match the phone pattern; a letter anywhere, a lone '+' and the empty string do not |
| OfficerForm.OfficerModal.constructor | client/src/components/Officers/AddOfficerModal.jsx:7-25 | the modal opens on the initial form with no errors |
| OfficerForm.OfficerModal.HandleInputChange | client/src/components/Officers/AddOfficerModal.jsx:69-82 | the field takes the value typed, and only that field's error is cleared; no error appears or disappears |
| OfficerForm.OfficerModal.ValidateForm | client/src/components/Officers/AddOfficerModal.jsx:84-113 | the errors become exactly `FieldErrors` of the form, and the answer is valid exactly when there are none |
| OfficerForm.OfficerModal.HandleSubmit | client/src/components/Officers/AddOfficerModal.jsx:115-130 | an invalid form is never handed to `onSubmit`; a valid one is handed over once, and the modal closes when that succeeds |
| UserManagement.Initials | client/src/components/UserManagement/UserManagement.jsx:123-128 | the initials are two characters, or as many as a shorter username has, and none is a lower-case letter |
| UserManagement.InitialsOfDisplayName | client/src/components/UserManagement/UserManagement.jsx:93-128 | the initials are the upper-cased starts of the display name's two words, or its first two characters |
| UserManagement.FilteredUsers | client/src/components/UserManagement/UserManagement.jsx:110-121 | a user is listed exactly when it matches the search, the role filter and the status filter, and no more often than it occurs |
| UserManagement.EmptySearchKeepsFiltered | client/src/components/UserManagement/UserManagement.jsx:111-113 | an empty search lists every user that passes the role and status filters, in order |
| UserManagement.SearchIgnoresCase | client/src/components/UserManagement/UserManagement.jsx:111-113 | two search terms that differ only in case list the same users |
| UserManagement.StatsOf | client/src/components/UserManagement/UserManagement.jsx:170-197 | the total counts every user; the active users and the administrators plus officers are each at most the total |
| UserManagement.StatsAgreeWithFilters | client/src/components/UserManagement/UserManagement.jsx:110-197 | the status and role filters list exactly as many users as the matching stat cards count, and 'inactive' the rest |
| UserManagement.WithoutUser | client/src/components/UserManagement/UserManagement.jsx:78 | after a delete exactly the users with another id stay |
| UserManagement.DeleteDropsOne | client/src/components/UserManagement/UserManagement.jsx:78 | when ids are distinct, deleting a listed user shortens the list by exactly one |
| UserManagement.HandleDelete | client/src/components/UserManagement/UserManagement.jsx:64-90 | nothing happens unless confirmed; a successful delete removes the user and shows a success banner; a refused or failed one keeps the list and shows an error |
| OfficerDirectory.Selection | client/src/components/Profile/EnhancedProfile.jsx:197-210 | an officer is kept exactly when it matches the search term, if one is given, and has the chosen department, if one is given; none is kept more often than it occurs |
| OfficerDirectory.EmptyTermMatchesAll | client/src/components/Profile/EnhancedProfile.jsx:200 | skipping the search for an empty term changes nothing, since every text includes "" |
| OfficerDirectory.Insert | client/src/components/Profile/EnhancedProfile.jsx:212-218 | placing an officer into an ordered list keeps it ordered and adds exactly that officer |
| OfficerDirectory.SortByKey | client/src/components/Profile/EnhancedProfile.jsx:212-218 | the sorted list is a reordering of its input, ordered by the key with missing values as '' |
| OfficerDirectory.FilterOfficers | client/src/components/Profile/EnhancedProfile.jsx:195-219 | the result is a reordering of the selection; sorted by firstName, lastName, department or position when chosen; the selection as it is for any other key |
| OfficerDirectory.Row | client/src/components/Profile/EnhancedProfile.jsx:324-333 | every row has exactly as many cells as the header |
| OfficerDirectory.LinesShape | client/src/components/Profile/EnhancedProfile.jsx:322-334 | the export has one line more than there are officers, the first being the header joined by commas |
| OfficerDirectory.HeaderPlain | client/src/components/Profile/EnhancedProfile.jsx:323 | no column name holds a comma or a newline |
| OfficerDirectory.LinesPlain | client/src/components/Profile/EnhancedProfile.jsx:334 | no line of the export holds a newline when no cell does |
| OfficerDirectory.CsvReadsBack | client/src/components/Profile/EnhancedProfile.jsx:321-334 | when no cell holds a comma or a newline, the export splits back into the header and each officer's row |
| OfficerDirectory.LinesAtLeast | client/src/components/Profile/EnhancedProfile.jsx:321-334 | whatever the cells hold, the export has at least one line per officer plus the header |
| OfficerDirectory.ExportData | client/src/components/Profile/EnhancedProfile.jsx:321-334 | the export is the CSV of exactly the officers `filterOfficers` lists, in that order |
| OfficerDirectory.EditForm | client/src/components/Profile/EnhancedProfile.jsx:262-276 | the edit form has exactly the twelve fields; each holds the officer's value when truthy and its default otherwise; the status is never empty |
| OfficerDirectory.EditFormSettles | client/src/components/Profile/EnhancedProfile.jsx:262-318 | filling the form from what it holds changes nothing, and the reset form is its own edit form |
| OfficerDirectory.ProfileEditor.constructor | client/src/components/Profile/EnhancedProfile.jsx:36-39 | the editor starts with the blank form, nobody edited, no error and the form hidden |
| OfficerDirectory.ProfileEditor.ResetForm | client/src/components/Profile/EnhancedProfile.jsx:302-319 | `resetForm` restores every field to '' but status 'active', clears the edited id and the error |
| OfficerDirectory.ProfileEditor.HandleEdit | client/src/components/Profile/EnhancedProfile.jsx:262-279 | `handleEdit` fills the form from the officer, records its id and shows the form |
| Text.TrimEmptyIffAllSpace | client/src/components/Officers/AddOfficerModal.jsx:87-93 | a text is blank after `trim` exactly when every character of it is white space |
| Text.TrimBounds | server/mongodb-routes.js:708 | a trimmed text neither starts nor ends with white space and is no longer than the original |
| Text.LowerProperties | server/mongodb-crud.js:701-703 | lower-casing keeps the length, leaves no upper-case letter and is idempotent |
| Text.UpperProperties | server/mongodb-routes.js:721 | upper-casing keeps the length, leaves no lower-case letter and is idempotent |
| Text.Split | server/mongodb-routes.js:587 | `split` of a one-character separator gives at least one piece, and no piece holds the separator |
| Text.JoinSplit | server/mongodb-routes.js:587 | joining the pieces of a split with the separator gives the text back |
| Text.SplitJoin | client/src/components/Profile/EnhancedProfile.jsx:334 | splitting the join of separator-free pieces gives the pieces back |
| Text.ParseNatToString | client/src/components/Geofiles/Geofiles.jsx:582 | the decimal text of a count reads back as that count |
| Text.EmailPatternNeedsAt | client/src/components/Officers/AddOfficerModal.jsx:103 | an address that matches `\S+@\S+\.\S+` holds '@' and is at least five long |
| Text.EmailPatternAccepts | client/src/components/Officers/AddOfficerModal.jsx:103 | a white-space-free local@domain.tld with non-empty parts matches |
| Text.LexLeTotal | client/src/components/Profile/EnhancedProfile.jsx:213-216 | any two keys are ordered one way or the other |
| Text.LexLeTrans | client/src/components/Profile/EnhancedProfile.jsx:213-216 | the key order is transitive |
| Text.LexLeAntisymmetric | client/src/components/Profile/EnhancedProfile.jsx:213-216 | two keys ordered both ways are equal |
| Json.Quote | server/mongodb-routes.js:735-739 | `JSON.stringify` of a text is enclosed in double quotes |
| Json.EscapeCharShape | server/mongodb-routes.js:735-739 | a plain character is written as itself and any other as an escape starting with a backslash |
| Json.EscapedPlain | server/mongodb-routes.js:735-739 | a text of plain characters is written unchanged between the quotes |
| Store.FirstClash | server/mongodb-crud.js:9-13 | a unique index clashes exactly when some stored document has the same value on that field, and only declared unique fields are reported |

## Left out

- The MongoDB driver itself is not modelled: ObjectId parsing (an invalid id throws), connection handling and the network. A collection is an in-memory map. A write the store refuses (a duplicate key, an `_id` write, a path it cannot follow, a push onto a non-array) is a `Failure` result; a read or lookup that throws is not modelled, since every lookup in the model answers.
- Regex search is not modelled. The geofile search term is used as a case-insensitive regular expression (`server/mongodb-crud.js:692`); the model reads it as a case-insensitive substring, which agrees for terms without metacharacters.
- FileTypeIgnoresCase: the file-type filter is the anchored, case-insensitive regular expression `^${fileType}$` (`server/mongodb-crud.js:701-703`); the model reads it as equality ignoring case. The two agree for types without regex metacharacters; with them they differ, e.g. the filter `k.l` matches the type `kml` in the source but not in the model.
- GeofileStore.GeofileCollection.Query: the date filters are `new Date(filters.dateFrom)` and `new Date(filters.dateTo)` of query text (`server/mongodb-crud.js:716-719`). The model takes each as already parsed to milliseconds; date-text parsing, and the Invalid Date that unparseable text gives, are not modelled.
- GeofilesView.ListUrl: the query string is built with `URLSearchParams` (`client/src/components/Geofiles/Geofiles.jsx:51-60`), which percent-encodes names and values; the model joins them as typed, so it agrees only for values without reserved characters such as `&`, `=`, `%`, `+` or spaces.
- JSON numbers are integers in the model (`Json.Value.Num`); fractions, exponents, NaN and the 64-bit floating-point rounding of the source's numbers are not modelled.
- LegacyRoutes.Registration: the username and e-mail lookups always answer in the model. In the source a lookup that throws answers 500 'Database error during user lookup' (`server/routes.js:266-276`); that answer is not modelled, nor is it in `LegacyRoutes.Register`.
- OfficerForm.InitialForm: a truthy field of the edited officer that is not text is put in the form as its text. The source keeps the value itself, and a later `.trim()` on it would throw; that error is not modelled.
- Full Unicode case mapping is not modelled. `toLowerCase`/`toUpperCase` map ASCII letters only.
- Locale-aware ordering is not modelled. `localeCompare` is taken as code-unit order.
- A few values the source would throw on are given a result instead:
  - a non-string access level or key is read as not matching, or as '';
  - a user without a username is read as '', where `user.username.toLowerCase()` would throw.
- A stored document's `_id` is its key in the collection's map, not a field of the document. Answers that spread a stored document therefore lack the `_id` the source also sends: `LiveRoutes.ListedUser` (`{...rest, id}`, `server/mongodb-routes.js:93-99`), `EvidenceRoutes.WithIdFirst` and `EvidenceRoutes.GetEvidence` (`{ id, ...doc }`, `server/evidence-routes.js:64-67`), and `GeofileStore.PresentedKeepsFields` (`{...g, id}`, `server/mongodb-crud.js:727-732`). Their "every stored field" means every field but `_id`.
- Members built on a corrected definition from "## Findings" describe the intended behaviour, not the code as written: `EvidenceStore.EvidenceCollection.Update`, `EvidenceRoutes.UpdateEvidence` and `EvidenceRoutes.UpdateEvidenceAnswer` use the strip by field before the first dot; `LiveRoutes.UpdateProfile` (through `LiveRoutes.ProfileUpdate`) and `LiveRoutes.ProfileCreateOwned` use `LiveRoutes.ProfilePatch`, so a created profile also lacks the dotted keys the code as written would store; `LegacyRoutes.UserList` lists `LegacyRoutes.ListedUser` entries without the password.
- bcrypt hashing and comparison, `JSON.parse`, `Math.random`, `new Date()` and generated reference numbers are parameters, not computations.
- Express routing order is not modelled, nor middleware, multer and response plumbing. For example, `/api/evidence/stats` is shadowed by `/api/evidence/:id`.
- `server/mongodb-models.js` is not part of this model. Its schema constraints are not enforced on the driver path the handlers use.
- Concurrency is not modelled: each request is one sequential operation.
- Requests that only fetch, then show or download, are not modelled: the client's fetch calls, `fetchUsers`, the Blob download of the CSV, and the officer `handleSubmit`/`handleDelete` that only call the server and refetch.
- `InteractiveMap.jsx` (map UI, geocoding service, floating-point coordinates), the context and app shell, the other profile components, seeds, startup and the connection files are not part of this model.
- OfficerDirectory.FilterOfficers, OfficerDirectory.SortByKey: each contract states sorted and a permutation of its input, but not that ties keep their order. `Array.prototype.sort` is stable; the model does not state or prove stability.
- GeofileStore.GeofileCollection.Query: records whose `createdAt` is not a date come after the dated ones, and the model leaves their order among themselves open. The store orders them: `sort({createdAt: -1})` compares values of different kinds by BSON type and like values by value, so a text `createdAt` (which `update` can store) comes before a number, and a number before a null or missing one; only null and missing ones tie.
- UserManagement.StatsOf: its own contract states only bounds. That the counts equal the filtered list lengths is stated by `UserManagement.StatsAgreeWithFilters`.

## Findings

| source | as written | input that shows it | evidently intended | confidence | as-written member | corrected member |
|---|---|---|---|---|---|---|
| server/routes.js:589-604 | `GET /api/users` builds each entry as `{ ...user, id, _id, ... }`, so the stored password hash is copied into the answer, although the comment above says passwords are removed | any stored user with a `password` field | entries without the password, as the live handler does at `server/mongodb-routes.js:93-99` | not executed | LegacyRoutes.ListedUserLeaksPassword | LegacyRoutes.ListedUser |
| server/mongodb-crud.js:356-360 | `update` drops the keys `custodyLog`, `evidenceNumber` and `createdAt` by name, then `$set`s the rest; a dotted key that starts with a protected field is kept, and the store writes inside that field | `update(id, {"custodyLog.0": v})` on a stored item | the custody log, evidence number and creation time never change through `update`, as the comment above the strip says | not executed | EvidenceStore.TopLevelStripRewritesCustody | EvidenceStore.UpdateProtects |
| server/mongodb-routes.js:905-910 | the profile update deletes the keys `password`, `_id`, `id` and `userId` by name; a dotted key such as `password.x` stays and the store writes a `password` field | `PUT /api/profile` with body `{"password.x": v}` for a profile without a password | no profile update sets the password, the ids or the owner, as the comment above the deletes says | not executed | LiveRoutes.TopLevelStripSetsPassword | LiveRoutes.ProfileUpdateProtects |
