# Article platform core, modelled in Dafny

The system is a Node/Express back end for a sports news site. Articles, tags, users and player statistics are stored in MongoDB collections through Mongoose. All reads and writes go through one generic CRUD layer, `commonService`:

- Every lookup is scoped to `status: "active"`.
- Deletion is soft: it sets `status: "deleted"`.
- A result is either a formatted response `{status, data, message}` or an error object `{error: {status, message, data}}`. The controllers throw the error object.
- `controlHandler` turns what a controller returned, or threw, into the HTTP status and the JSON body.

Above that layer:

- The article service builds list filters, finds related articles, enforces one featured article per type, and updates articles in bulk by id.
- The article controller runs the `create` and `update` pipelines:
  1. a duplicate-reference check, or the lookup of the stored article;
  2. the content upload to HDFS and the image scaling, in parallel;
  3. the store write and the featured-slot cleanup;
  4. the tag bookkeeping: tags are found or created by name, and each tag keeps the ids of its articles.
- The user controller handles signup (salted hash) and login.
- The statistics controller upserts player entries by name inside one document per article key.
- `helper.js` supplies the password, OTP and random-string helpers.

## Module layout

| file | module | what it holds |
|---|---|---|
| wrappers.dfy | `Wrappers` | `Option` (JavaScript's `undefined`), truthiness of strings, `[...new Set(xs)]` as `Dedup`, decimal rendering |
| messages.dfy | `Messages` | the message strings of `localization/en.js` and the literal messages of the core |
| documents.dfy | `Documents` | documents, values, MongoDB filters, paging, projection, schema-strict assignment, `$set`/`$unset`, `updateMany`, `save` |
| schemas.dfy | `Schemas` | the declared keys and defaults of the four collections |
| responses.dfy | `Responses` | error objects, `Result`, formatted and raw replies, the `autoSend` switch |
| commonservice.dfy | `CommonService` | the class `Collection`: one collection in the store and the generic CRUD operations on it |
| articleservice.dfy | `ArticleService` | the list filter, related articles, featured cleanup, bulk update |
| collaborators.dfy | `Collaborators` | the HDFS content store and the image scaler as small stateful classes |
| tagservice.dfy | `TagService` | find by name, find-or-create with `articles.push`, removal with `indexOf`/`splice` |
| userservice.dfy | `UserService` | find by email and login |
| usercontroller.dfy | `UserController` | signup and login as the controller runs them |
| statistics.dfy | `Statistics` | `post` (upsert by key, then by name) and `update` |
| articlecontroller.dfy | `ArticleController` | `get`, `create`, `update`, `remove`, `updateApprovalStatus`, `bulkDelete` |
| helper.dfy | `Helper` | `pick`, the in-place Fisher–Yates `shuffle`, `generateNewPWD`, `generateNewOTP`, `verifyAccessToken` |
| controlhandler.dfy | `ControlHandler` | the status selection and cookie handling of `controlHandler` |

A collection is a class whose `docs` sequence is reassigned by every state-changing method. Each such method's `ensures` gives the whole new `docs` as a function of the old one: `UpdateAll` for `updateMany`, `Replace` for `save`, or an appended `NewDoc` for an insert. Lemmas about those functions carry the properties:

- which documents change;
- that a soft-deleted document is no longer active;
- that no competing article stays featured;
- that the 404/422/200 classification is exact.

`Valid()` is the store invariant: every id is below `nextId`, and no id occurs twice.

Randomness, I/O, hashing and token signing become parameters:

- `Math.random` is an oracle `random: nat -> real` with every draw in [0, 1). Each helper takes the index of its first draw and returns the index after its last one.
- Salts are strings passed in.
- `hashPassword` and the JWT signer are function parameters.
- The HDFS store has a `failing` flag, and the image scaler has a `fault` message standing for a per-image failure.

## Model

All source paths are relative to the repository root.

| member | source | states |
|---|---|---|
| Wrappers.Dedup | app/api/article/controller.js:182 | `[...new Set(xs)]` holds exactly the elements of `xs`, without repetitions, ordered by first occurrence in `xs`, and is no longer than `xs`; a list without repetitions comes back as it was |
| Wrappers.FirstPos | app/api/article/controller.js:182 | the first position of an element: it holds the element and no earlier position does |
| Wrappers.NatToString | utils/sharpHelper.js:62-64 | the interpolated size is a non-empty run of decimal digits |
| Documents.Select | app/helpers/services/commonService.js:30-33 | the selected documents are exactly the stored documents matching the filter |
| Documents.FirstIndex | app/helpers/services/commonService.js:111-117 | `findOne` picks a matching document, and no earlier document matches; there is none exactly when no document matches |
| Documents.Page | app/helpers/services/commonService.js:30-33 | `.skip(skip).limit(limit)`: empty past the end, otherwise `limit` documents (or the rest, for limit 0 or a short tail), each the one `skip` places further on |
| Documents.Project | app/api/article/service.js:198-205 | a projection keeps the id and only stored fields, and keeps every named field (all fields for the empty projection) |
| Documents.Restrict | app/helpers/services/commonService.js:243-246 | schema-strict data keeps exactly the keys of the schema, with their values |
| Documents.Assign | app/helpers/services/commonService.js:243-246 | `existingDoc.set(data)` overwrites exactly the schema keys present in `data` and leaves every other field as it was |
| Documents.UnsetFlag | app/api/article/service.js:221-235 | `$unset` of `filters.featured` removes that flag and leaves every other flag and top-level field reading as before |
| Documents.ApplyWithoutUnset | app/helpers/services/commonService.js:349-366 | with nothing to unset, an update is a field-wise overwrite |
| Documents.UpdateAll | app/helpers/services/commonService.js:289-296 | `updateMany` applies the update to exactly the matching documents, position by position |
| Documents.CountModified | app/helpers/services/commonService.js:299-320 | `nModified` never exceeds the number matched |
| Documents.UnmodifiedIffUnchanged | app/helpers/services/commonService.js:309-331 | `nModified` is zero exactly when the update leaves the store unchanged |
| Documents.Replace | app/helpers/services/commonService.js:243-256 | `save()` replaces the row with the document's id and keeps every other row and every id position |
| Documents.MatchesActiveFilter | app/helpers/services/commonService.js:22-27 | the default filter selects exactly the active documents |
| Responses.Send | app/helpers/services/commonService.js:216-232 | with `autoSend` the result is `{status, data, message}`; otherwise the raw value |
| Responses.NotFoundError | app/helpers/services/commonService.js:58-92 | the 404 error carries `data: [{[errKey]: NOT_FOUND}]` exactly when `errKey` is truthy |
| CommonService.Criteria | app/helpers/services/commonService.js:22-27 | the criteria hold every custom condition plus `status`, which is "active" unless the custom filter sets it |
| CommonService.CriteriaMeaning | app/helpers/services/commonService.js:22-27 | the criteria select active documents meeting the custom conditions; a custom `status` replaces the active condition |
| CommonService.MatchesById | app/helpers/services/commonService.js:58-61 | the id filter selects exactly the active document with that id |
| CommonService.MatchesByReference | app/helpers/services/commonService.js:111-117 | the reference filter selects active holders of the reference, never the excluded id |
| CommonService.OrDefault | app/helpers/services/commonService.js:314 | `message` or else UPDATED |
| CommonService.Seed | app/helpers/services/commonService.js:349-366 | an upsert seeds the new document with exactly the filter's top-level equalities |
| CommonService.DeleteLeavesNoActive | app/helpers/services/commonService.js:390-399 | after the soft delete, no document with the id is active |
| CommonService.SelectById | app/helpers/services/commonService.js:390-399 | the id filter selects nothing exactly when no active document has the id |
| CommonService.UpdateByIdElsewhere | app/helpers/services/commonService.js:390-399 | an update by id leaves every other document as it was |
| CommonService.SoftDelete | app/helpers/services/commonService.js:390-411 | deleting an active document changes the store and leaves no active document with that id, so a second delete finds nothing |
| CommonService.Collection.constructor | app/helpers/services/commonService.js:216-232 | an empty, valid collection |
| CommonService.Collection.FindOne | app/helpers/services/commonService.js:111-117 | the first stored match, or none exactly when nothing matches |
| CommonService.Collection.FindDocs | app/helpers/services/commonService.js:12-46 | the whole page: as many documents as the active matches from `skip` (default 0) on, cut at `limit` (default 50, 0 meaning no limit), each the projection of the match `skip` places further on |
| CommonService.Collection.Find | app/helpers/services/commonService.js:12-46 | `find` returns that page with status 200 and "Successfully loaded" |
| CommonService.Collection.FindById | app/helpers/services/commonService.js:56-93 | success exactly when an active document has the id, which is then returned; otherwise the 404 error with `errKey` data |
| CommonService.Collection.FindByReference | app/helpers/services/commonService.js:104-152 | success exactly when an active document other than `excludedId` holds the reference; it never returns the excluded document |
| CommonService.Collection.CheckDuplicate | app/helpers/services/commonService.js:163-207 | `true` exactly when no other active document holds the reference; otherwise, with `autoSend`, a 409 error whose `conflictKey` and `conflictObj` are the holder; without it, the holder itself |
| CommonService.Collection.NewDoc | app/helpers/services/commonService.js:216-232 | `new Model(data)` keeps the schema keys of `data` over the defaults and nothing else |
| CommonService.Collection.Create | app/helpers/services/commonService.js:216-232 | the new document is appended with a fresh id and returned with 201 |
| CommonService.Collection.UpdateExisting | app/helpers/services/commonService.js:241-269 | the stored row gets the assigned document (200), or 404 when the row is gone |
| CommonService.UpdateResult | app/helpers/services/commonService.js:298-331 | 404 exactly when nothing matched; 200 with `message` or else UPDATED (raw counts without `autoSend`) exactly when the store changed; 422 exactly when the matched documents stayed unchanged |
| CommonService.Collection.Update | app/helpers/services/commonService.js:279-332 | the store becomes `updateMany` of the old store (schema keys only when strict), and the result is the classification of `UpdateResult` |
| CommonService.Collection.FindOneAndUpdate | app/helpers/services/commonService.js:342-379 | the first match is updated, or a document seeded from the filter is inserted; the result is 201 with that document, which matches the filter when the data does not override it |
| CommonService.Collection.RemoveById | app/helpers/services/commonService.js:388-412 | only the active document with the id gets `status: "deleted"`; success exactly when it existed, 404 otherwise; afterwards no document with the id is active |
| ArticleService.FlagConditions | app/api/article/service.js:13-20 | one condition `filters.<name> == true` per requested name |
| ArticleService.ListFilterMeaning | app/api/article/service.js:10-33 | the list filter holds exactly when every requested flag is true, the type is a requested one, approval is one requested (or "approved" by default) and `isDraft` is the requested value (false by default) |
| ArticleService.AddFlagConditions | app/api/article/service.js:13-20 | the `forEach` that assigns flag conditions builds `FlagConditions` |
| ArticleService.BuildListFilter | app/api/article/service.js:10-33 | the filter built by assignments equals the list filter |
| ArticleService.ListingMeaning | app/api/article/service.js:10-33 | the articles `find` pages through are exactly the active stored articles meeting the list conditions |
| ArticleService.Find | app/api/article/service.js:10-33 | the page holds, in store order from `skip` on, projections of active stored articles meeting the list conditions |
| ArticleService.HoldsSameType | app/api/article/service.js:192-205 | `type: article.type` matches the same type, or no type when the article has none |
| ArticleService.MatchesRelated | app/api/article/service.js:192-205 | the related filter selects exactly the active, approved articles with the same `matchId` and `type`, other than the article itself |
| ArticleService.FindRelatedArticle | app/api/article/service.js:190-209 | no `matchId` gives `[]`; otherwise the first 50 related articles in store order (all of them when there are fewer), projected, each the projection of a stored related article and never the article itself |
| ArticleService.RelatedComplete | app/api/article/service.js:190-209 | with at most 50 related articles stored, every related article appears in the result |
| ArticleService.RelatedFound | app/api/article/service.js:190-209 | every related result is the projection of a related stored article |
| ArticleService.MatchesFeatured | app/api/article/service.js:221-235 | the cleanup filter selects exactly the featured competitors of the current article |
| ArticleService.FeaturedCleanup | app/api/article/service.js:215-237 | after the cleanup no competitor is featured; the current article and articles of other types are untouched |
| ArticleService.RemoveFeaturedArticles | app/api/article/service.js:215-237 | nothing changes unless the article is featured and approved; otherwise `featured` is unset on its competitors |
| ArticleService.MatchesIds | app/api/article/service.js:165-182 | `_id: {$in: ids}` selects exactly the listed ids |
| ArticleService.SelectIds | app/api/article/service.js:165-182 | the ids filter selects nothing exactly when no stored id is listed |
| ArticleService.BulkUpdate | app/api/article/service.js:165-182 | only documents with a listed id change, whatever their status; 404, 422 and 200 classified as in `update` |
| Collaborators.BlobStore.constructor | utils/hdfsHelper.js:34-62 | a store with the given files and failure flag |
| Collaborators.BlobStore.ContentPath | utils/hdfsHelper.js:36-39 | the given path when truthy, else a generated `articles/articles-<salt>-article.txt` |
| Collaborators.BlobStore.UploadContent | utils/hdfsHelper.js:34-62 | falsy data writes nothing; otherwise the data lands at `ContentPath`, which is returned, or the 422 write error leaves the files unchanged |
| Collaborators.BlobStore.GetFileContent | utils/hdfsHelper.js:6-32 | a falsy path gives nothing; otherwise the stored content, or the 422 read error |
| Collaborators.ImageDeriver.constructor | utils/sharpHelper.js:7-42 | a scaler that has written nothing |
| Collaborators.ImageDeriver.ImagePath | utils/sharpHelper.js:62-64 | `imagePath`, or a generated `uploads/hdfs-images/<salt>_<h>_<w>.<ext>` |
| Collaborators.ImageDeriver.ScaledPaths | utils/sharpHelper.js:17-33 | one path per resolution type, each its `ImagePath` |
| Collaborators.ImageDeriver.ScaleMultipleImages | utils/sharpHelper.js:7-42 | null without an image or extension; `{error}` when an image fails; otherwise every path is written and the map returned |
| TagService.MatchesByName | app/api/tag/service.js:125-159 | the name filter selects exactly the active documents named `name` |
| TagService.FindByName | app/api/tag/service.js:123-160 | the first active tag named exactly `name`, or the 404 error with `errKey` data; the user service's `findByName` (app/api/user/service.js:181-218) is the same code on the users' collection, where no stored user has a `name`, so it always gives the 404 error |
| TagService.Pushed | app/api/tag/service.js:185-186 | `articles.push(articleId)` appends the id and changes nothing else |
| TagService.CreateOrUpdateTags | app/api/tag/service.js:167-197 | an unknown name creates `{name, articles: [articleId]}`; a known tag gets the id pushed and is saved with the deduplicated list under `tags`, which the schema drops; afterwards the id is in `articles`; every row keeps its id, name and status, its `articles` only grow, and rows of other names are untouched |
| TagService.PushTag | app/api/tag/service.js:183-195 | the known tag is saved with the id pushed onto its `articles` array (the deduplicated `tags` field sent with it is dropped by the schema) and its name kept; only its row changes |
| TagService.IndexOf | app/api/tag/service.js:214 | `indexOf`: the first position of the id, or -1 exactly when absent |
| TagService.Splice1 | app/api/tag/service.js:215 | `splice(start, 1)` removes one element, counting a negative start from the end |
| TagService.RemovesFirstOccurrence | app/api/tag/service.js:213-217 | a present id loses exactly its first occurrence; the rest keep their order |
| TagService.AbsentRemovesLast | app/api/tag/service.js:214-217 | an absent id gives -1, so the last element goes and a non-empty list shrinks by one |
| TagService.PushKeepsDuplicate | app/api/tag/service.js:187-192 | pushing an id already listed leaves a duplicate in `articles` |
| TagService.FindAndRemoveTags | app/api/tag/service.js:204-226 | an unknown name changes nothing; otherwise the tag is saved with the id spliced out of `articles`, which is `Unregistered`; the user service's copy (app/api/user/service.js:262-284) is this member on the users' collection, where it never finds a user and changes nothing |
| TagService.Unlisted | app/api/tag/service.js:213-222 | the tag with the id spliced out of `articles` keeps its id, name and status |
| TagService.Unregistered | app/api/tag/service.js:204-226 | the store after one removal: same length, ids, names and statuses; rows of other names are untouched |
| TagService.UnregisteredAll | app/api/article/controller.js:345-347 | the store after removing every listed name: same length, ids, names and statuses; rows whose name is not listed are untouched |
| TagService.UnregisteredAllFirst | app/api/article/controller.js:345-347 | with no name repeated, the first active tag of each listed name, as found before any removal, ends up with the id spliced out |
| TagService.RegisteredGrows | app/api/tag/service.js:176-193 | a tag that lists an article keeps its name and that article through later registrations |
| UserService.MatchesByEmail | app/api/user/service.js:68-75 | the email filter selects exactly the active users with that email, and with that id when given |
| UserService.FindByEmail | app/api/user/service.js:66-77 | an active user with that email (and id), or none exactly when no such user exists |
| UserService.UserLogin | app/api/user/service.js:86-114 | 200 with the user and a signed cookie exactly when the user exists and the stored password is `hashPassword(password, salt)`; otherwise the 409 "Login failed" error |
| UserController.SignupData | app/api/user/controller.js:51-58 | the stored data carries the salt and `hashPassword(password, salt)` as the password |
| UserController.Create | app/api/user/controller.js:35-64 | an email held by an active user gives 409 with that user and inserts nothing; otherwise the salted user is inserted and 201 returned |
| UserController.LoginUser | app/api/user/controller.js:11-27 | the service's result; its error is the 409 login error, unchanged |
| UserController.LoginAfterSignup | app/api/user/controller.js:35-64 | login with the credentials just signed up succeeds |
| Statistics.Entry | app/api/statistics/statistics.controller.js:42-48 | the entry carries the body's name and the uploaded file's path as `imageUrl` |
| Statistics.FirstNamed | app/api/statistics/statistics.controller.js:51-65 | the first entry with the name, or none exactly when no entry has it |
| Statistics.Upserted | app/api/statistics/statistics.controller.js:66-70 | the first same-named entry is replaced by the entry, or the entry appended (the list grows by one); every other entry keeps its value and position |
| Statistics.UpsertByName | app/api/statistics/statistics.controller.js:49-70 | the loop with `break`, then `push` or index assignment, computes `Upserted` |
| Statistics.Post | app/api/statistics/statistics.controller.js:43-101 | an invalid body gives 400 with no write; an existing key gets the entry upserted and saved (201, Updated); otherwise `{key, statistics: [entry]}` is created (201, Created) |
| Statistics.BodyFields | app/api/statistics/statistics.controller.js:128-132 | the set data carries the body's key, its name and its other keys |
| Statistics.Update | app/api/statistics/statistics.controller.js:123-157 | an invalid body gives 400; the body is merged into the document with the key and saved (200); no such document passes the error to `next` |
| Statistics.UpdateKeepsStatistics | app/api/statistics/statistics.controller.js:129-134 | on the statistics schema, a body without `statistics` leaves the document as it was |
| Helper.ScaledBound | app/helpers/helper.js:114 | `Math.floor(random * n)` is an index below `n` |
| Helper.PickCount | app/helpers/helper.js:107-111 | `min` without `max`, otherwise between `min` and `max` |
| Helper.CharAt | app/helpers/helper.js:114 | one character of the string, or "" for the empty string |
| Helper.Picked | app/helpers/helper.js:113-115 | `count` characters, each from the string |
| Helper.Pick | app/helpers/helper.js:103-118 | exactly `min` characters without `max`; between `min` and `max` with it; every character from the string |
| Helper.Swap | app/helpers/helper.js:131-134 | two cells exchanged, the others unchanged |
| Helper.SwapPermutes | app/helpers/helper.js:131-134 | a swap is a permutation |
| Helper.ShuffleFromPermutes | app/helpers/helper.js:122-140 | Fisher–Yates keeps the length and the multiset of characters |
| Helper.ShuffleInPlace | app/helpers/helper.js:128-137 | the in-place `while (top)` loop leaves the array as `ShuffleFrom` of the original |
| Helper.Shuffle | app/helpers/helper.js:122-140 | a permutation of the input; the empty string stays empty |
| Helper.GenerateNewPwd | app/helpers/helper.js:85-100 | 6 to 13 characters from the alphabet, with at least one special, one lowercase and one uppercase character |
| Helper.GenerateNewOtp | app/helpers/helper.js:76-84 | six decimal digits |
| Helper.VerifyAccessToken | app/helpers/helper.js:10-31 | a falsy token gives `err` with no decoded data; otherwise `err` exactly when verification rejects |
| ControlHandler.WithoutCookie | utils/controlHandler.js:13-16 | the result no longer carries a cookie and keeps its status, data and message; a raw result, or one without a truthy cookie, is unchanged |
| ControlHandler.Handle | utils/controlHandler.js:4-31 | a truthy result is sent with `result.status` or else 200, the result without its cookie as the body, its cookie moved to the header and `host` added on GET; a falsy one gives 500; a Joi error 400; an error below 500 its status (400 for 0); anything else goes to `next` |
| ControlHandler.ServiceResultStatus | utils/controlHandler.js:4-31 | the core's 404, 409 and 422 errors reach the client with their own status and body |
| ArticleController.GetArticle | app/api/article/controller.js:17-74 | 404 exactly for an id with no active article; for a found article, 200 exactly when its content can be read, else 422; the 200 carries the found article, its related articles, its content ("" when none) and its statistics document |
| ArticleController.UploadAndScale | app/api/article/controller.js:144-155 | both effects run; an upload failure (422) wins over a scaling failure (404); otherwise the uploaded path and the scaled paths |
| ArticleController.FilterFlags | app/api/article/controller.js:130-132 | `ArrayToObj`: each listed filter name set to true |
| ArticleController.ArticleData | app/api/article/controller.js:158-165 | `reference` is the given one; `filters` becomes the flag bag; `contentPath` and `imageData` are overwritten only by a truthy upload path or by scaled paths; every other key is as in the body |
| ArticleController.TagNames | app/api/article/controller.js:312 | `tags.map(tag => tag.name)` |
| ArticleController.NamesIn | app/api/article/controller.js:312 | a name is listed exactly when some tag carries it |
| ArticleController.NotIn | app/api/article/controller.js:316-318 | `filter(x => !ys.has(x))` keeps exactly the elements outside `ys`, without introducing repetitions; when nothing is in `ys` the list comes back as it was |
| ArticleController.WithoutNames | app/api/article/controller.js:321-328 | the tags whose name was not removed, order kept; when no name was removed the list comes back as it was |
| ArticleController.TagDiff | app/api/article/controller.js:302-333 | removed names are exactly the stored names not requested; added names exactly the requested names not stored; neither repeats; a stored tag stays exactly when its name is requested |
| ArticleController.FinalTagNames | app/api/article/controller.js:352-360 | kept tags followed by the added ones name exactly the requested tags |
| ArticleController.CreateTagRefs | app/api/article/controller.js:184-195 | one `{name, id}` per name, in order, each pointing at a stored tag of that name that lists the article; rows keep id, name and status, `articles` only grow, rows of other names are untouched |
| ArticleController.RegisteredStep | app/api/article/controller.js:184-195 | one more `createOrUpdateTags` keeps the earlier registrations and adds the new tag's |
| ArticleController.RemoveTags | app/api/article/controller.js:345-347 | the loop computes `UnregisteredAll`: `findAndRemoveTags` for each removed name in turn |
| ArticleController.UpdateTags | app/api/article/controller.js:302-361 | the final list is the kept tags followed by one entry per added name, and names exactly the requested tags; each added entry points at a tag of its name that lists the article; the first active tag of each removed name has the article spliced out; tags of other names are untouched |
| ArticleController.SyncedTags | app/api/article/controller.js:335-357 | registering the added names, then removing the removed ones (no name in both) keeps the registrations and unlists each removed name's first tag as found before either step |
| ArticleController.MergedSpec | app/api/article/controller.js:267-274 | every resolution with a stored path carries it as `imagePath`; sizes are kept and other resolutions unchanged |
| ArticleController.MergeImagePaths | app/api/article/controller.js:267-274 | the `forEach` computes `MergedSpec` |
| ArticleController.ReusesStoredImagePaths | app/api/article/controller.js:267-290 | an update writes every resolution with a stored path back to that path |
| ArticleController.Cleaned | app/api/article/service.js:215-237 | the cleanup keeps the length and the ids of the store |
| ArticleController.CleanedSnoc | app/api/article/controller.js:168-177 | the cleanup never touches the article being stored |
| ArticleController.CleanedLeavesOneFeatured | app/api/article/controller.js:177 | after the cleanup, no competitor of a featured, approved article is featured |
| ArticleController.ReplaceLast | app/api/article/controller.js:198-202 | saving the newest article replaces only the last row |
| ArticleController.AttachTags | app/api/article/controller.js:180-209 | the new article is saved with one `{name, id}` per name, each pointing at a stored tag of that name that lists the article, and nothing else changes in it; tags of other names are untouched |
| ArticleController.StoreArticle | app/api/article/controller.js:168-211 | insert with a fresh id; competitors lose `featured`; with a tag list, the stored tags name the deduplicated list and each points at a tag of its name that lists the article, other tags untouched; without one the tag store is unchanged; 201 with the stored article |
| ArticleController.SaveArticle | app/api/article/controller.js:362-370 | the saved article replaces its row (200, Updated), then competitors lose `featured` |
| ArticleController.Create | app/api/article/controller.js:114-212 | a held reference gives 409 before any upload, scaling or insert; an upload or scaling error stores nothing; otherwise the article is stored as in `StoreArticle`; the content is written to a fresh path and the scaled images are written |
| ArticleController.WriteUpdate | app/api/article/controller.js:302-370 | with a tag list, the saved tags are the kept tags followed by the added ones and name exactly the requested tags; the tag store is as in `UpdateTags`, unchanged without a tag list; the saved article replaces its row (200) and competitors lose `featured` |
| ArticleController.UpdateKeepsReference | app/api/article/controller.js:251 | an update never changes the stored reference |
| ArticleController.UpdateKeepsContentPath | app/api/article/controller.js:277-300 | new content for an article with a content path rewrites that file and keeps the path |
| ArticleController.Update | app/api/article/controller.js:232-371 | an unknown id gives 404 and nothing changes; an upload or scaling error leaves articles and tags unchanged; otherwise the saved article keeps its id and reference, its tags and the tag store follow the diff as in `UpdateTags`, and competitors lose `featured`; for a found article, the content is written to its stored path and the images to its stored image paths |
| ArticleController.Remove | app/api/article/controller.js:378-390 | success exactly when the article was active, then 200 "Deleted successfully."; 404 otherwise; the active article with the id gets `status: "deleted"` and keeps every other field; the other rows are untouched |
| ArticleController.DeletedRow | app/helpers/services/commonService.js:388-396 | soft-deleting by id sets `status: "deleted"` on the active row with the id only, keeping its other fields |
| ArticleController.SetByIds | app/api/article/service.js:165-182 | exactly the listed rows get the value |
| ArticleController.UpdateApprovalStatus | app/api/article/controller.js:398-413 | exactly the listed articles get the approval status; 404 when no id is stored, 422 when nothing changed, 200 otherwise |
| ArticleController.DeletedAreInactive | app/api/article/controller.js:420-439 | after the bulk delete no listed article is active |
| ArticleController.BulkDelete | app/api/article/controller.js:420-439 | exactly the listed articles get `status: "deleted"`, so none is active; 404, 422 and 200 "Deleted successfully." classified as in `update` |

## Left out

- Sort order: `sortBy` and `parseSortBy` are not part of this model. The store returns documents in insertion order.
- Timestamps: Mongoose would add `updatedAt` on every update, so `nModified` would equal the match count. The model compares documents without timestamps.
- Negative `limit` and `skip`: they are excluded by `nat`, because validation rejects them.
- `searchByName` and the article controller's `list`: these are regex queries and a pass-through to `find`, and are not modelled.
- The one-line delegations of the tag and user services (`find`, `findById`, `create`, `updateExisting`, `update`, `removeById`): these are `CommonService.Collection` members on the collection in question.
- Mongoose validation:
  - `required` keys, enum checks and the password `lowercase` option are not modelled;
  - when the image is not scaled, the upload object stays in `imageData`, and the model reduces it to an empty path map;
  - without `filters` on create, the model stores what the body holds.
- Joi validation: validated bodies are typed datatypes, `create`'s `reference` is a required parameter, and `FormatJOIError` is a constant outcome.
- Concurrency: `Promise.all` and the unawaited calls (`removeFeaturedArticles`, `findAndRemoveTags` and its inner save) run sequentially in the order the source starts them. A failure of an unawaited call is not modelled.
- The image scaler's fault is one fault for the whole call, not a fault per resolution.
- A stream failure leaves no partial file.
- Opaque helpers and configuration are parameters: SHA-1 `hashPassword`, JWT signing and verification, `generateSalt`, `randomstring`, `util.js` and `config`. `ArrayToObj` is taken to map each name to `true`.
- Statistics: the file write and sharp resize at the top of `post` are left out; the uploaded path is a parameter. The empty `list` handler is left out, and so is the unhandled rejection when `post`'s save fails.
- `save()` is modelled as replacing the whole row with the in-memory document. Mongoose writes only the paths it tracked as modified, which has the same effect when nothing else changes the row in between and every change is tracked.
- Statistics.Post: persists the replaced entry when the name is already listed. Under Mongoose 5, the index assignment `savedDoc.statistics[stat_index] = player_stats` (app/api/statistics/statistics.controller.js:69) is not change-tracked, so the store may keep the old entry while the 201 response shows the new one.
- The user service's `createOrUpdateTags` (app/api/user/service.js:225-255) is not modelled: on the User schema, which has neither `name` nor `articles` and requires `email` and `password`, the create of `{name, articles}` is refused by Mongoose validation, and no user is ever found by name.
- An upsert that inserts copies only the filter's top-level equalities. An `_id` condition is not copied, because ids come from `nextId`.
- The statistics `key` (an article id) is stored as an `Id` value.
- `generateAccessToken`, `generateRefreshToken`, `generateSalt` and the user controller's `userLogout` and `list` are token and session wiring, and are not modelled.
- A falsy `doc.tags` in `update`: the code would call `.has` on `[]` and throw a `TypeError`. The model does not reach this, because Mongoose arrays default to `[]` (a missing list reads as empty).
- A `reference: undefined` assignment in `update`, for an article without a reference, is modelled as not writing the key.
- ArticleController.CreateTagRefs: builds each `{name, id}` from the requested name, which is proved equal to the created or found tag's `name`.
- ArticleController.UpdateTags: for a removed name with no active tag before the update, states only that rows of other names are untouched.
- Helper.GenerateNewOtp: states that the code is six digits; the body returns the constant `"123456"`, as the source does.
