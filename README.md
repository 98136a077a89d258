# BECT level server: a Dafny model of the API handlers

The backend of the BECT level editor is one Express file,
`backend/server.js`. This project models its API router and the two helpers
beside it:

- account registration and login;
- promotion to admin with a server-held key;
- publishing a level: a JSON payload plus up to three images, uploaded to
  the Cloudinary media service and saved as a database record;
- listing, fetching, searching and deleting levels;
- the admin routes: list users, list levels, and delete a user together
  with every level they created.

The model is written in Dafny:

- **Stores as fields.** A `Server.Store` class stands for the two MongoDB
  collections (`users`, `levels`) and the `_id` counter. It also keeps
  `blobLog`, every call issued to the media service, oldest first, and
  `deletions`, every delete issued to the database, each with the number of
  media-service calls issued before it. That number states that a record is
  removed only after its blobs' cleanup calls.
- **Handlers as methods.** Each route handler is a method of the store. Its
  `reply` says which HTTP status and `success` flag the handler answers:
  - `Json(status, success)` for the usual JSON reply;
  - `BareArray` for the bare JSON array of `/search`;
  - `Unhandled` where a rejected promise escapes the handler: no reply is
    sent, and on current Node.js, where an unhandled rejection is fatal, the
    server process exits.
- **Libraries as oracles.** bcrypt, jsonwebtoken, Cloudinary and MongoDB's
  regular-expression matching are function-valued fields of a `Services`
  value (`Records.Services`). `ADMIN_KEY` is an optional string in it. The
  handlers model exactly which calls they make, in which order, and what
  they do with each answer.
- **The actor** is whatever the verified token's claims say (`Auth`), never
  a request parameter.

Modules:

- `JsString`: JavaScript's `String.prototype.split` for a one-character
  separator.
- `Auth`: the `auth` middleware.
- `Blobs`: public ids, and the sequences of media-service calls issued by
  publish and by `deleteCloudinaryFiles`.
- `Queries`: the database queries over the two collections.
- `Server`: the handlers.
- `Scenarios`: client sessions that chain handlers.

A try block that awaits calls one after the other stops at the first
rejection. `Blobs.Attempted(plan, svc)` is that prefix of a planned call
sequence. Publish and the cleanups are specified by it.

Behaviour of the code worth noting:

- **Cleanup order and stopping.** Cleanup destroys the images first and the
  JSON blob last. A failed destroy ends the cleanup of that level, because
  all destroys share one try block. The remaining blobs are not attempted.
- **Publish.** There is no total-size ceiling and no check that the title is
  non-empty. A failed upload is not compensated: blobs uploaded before the
  failure stay in place (`Blobs.PublishNeverDestroys`).
- **Login.** Unknown user and wrong password both answer HTTP 200 with
  `success: false`, not an error status.
- **Admin key.** It is compared with `!==`. A missing `ADMIN_KEY` matches a
  request without a `key`.
- **Search.** It is a regular-expression match on title or creator. It is
  not sorted and takes the first 20 in stored order. With an invalid pattern,
  or a failure of the database, the rejection escapes the handler: no reply
  is sent, and on current Node.js the server process exits.
- **A bad `:id`** answers 404 on `GET /levels/:id` and 500 on
  `DELETE /levels/:id`.

## Model

| member | source | states |
|---|---|---|
| JsString.Split | backend/server.js:97 | `split` on one character yields at least one part, and no part contains the separator |
| JsString.JoinSplit | backend/server.js:97 | joining the parts of a split with the separator gives back the original string |
| JsString.SplitJoin | backend/server.js:97 | splitting a join of separator-free parts gives back exactly those parts |
| JsString.SplitWithout | backend/server.js:61 | a string without the separator splits into itself alone |
| JsString.SplitAfter | backend/server.js:61 | a separator-free prefix followed by the separator becomes the first part, and the rest splits on its own |
| JsString.SplitFirst | backend/server.js:97 | the first part is the longest separator-free prefix of the string |
| JsString.SplitLast | backend/server.js:97 | the last part (`pop()`) is the longest separator-free suffix of the string |
| Auth.BearerToken | backend/server.js:61-66 | the token taken from the header is the second space-separated word: non-empty and without spaces, absent when missing or empty |
| Auth.AuthenticateBearer | backend/server.js:60-75 | `<scheme> <token>[ ...]` yields exactly `token`; the request is authenticated as the claims `jwt.verify` returns, and otherwise rejected as an invalid token |
| Auth.AuthenticateEmptyToken | backend/server.js:61-66 | a header whose first space ends it or is followed by another space has an empty second word, and is rejected as a missing token |
| Auth.AuthenticateNoSpace | backend/server.js:61-66 | no header, or a header without a space, is rejected as a missing token |
| Blobs.LastSegment | backend/server.js:97 | `split("/").pop()` contains no `/` |
| Blobs.PublicId | backend/server.js:97 | the public id contains neither `/` nor `.` |
| Blobs.PublicIdOfUrl | backend/server.js:97 | the public id is the last `/`-segment of the URL (its longest `/`-free suffix) cut at its first `.` |
| Blobs.AttemptedPrefix | backend/server.js:94-105 | a try block issues a prefix of its planned calls: all succeed but the last; it runs the whole plan exactly when every call succeeds, and otherwise ends on the failing call |
| Blobs.AttemptedAfter | backend/server.js:94-105 | after the first `i` calls succeed, the rest of the issued calls are those of the remaining plan |
| Blobs.AttemptedStopsAt | backend/server.js:94-105 | when the calls before `i` succeed and call `i` fails, exactly the first `i+1` calls are issued |
| Blobs.AttemptedAppend | backend/server.js:94-105 | two plans in one try block: the second is reached only when the whole first one succeeds |
| Blobs.ImageDestroys | backend/server.js:95-99 | one image destroy is planned per stored image URL |
| Blobs.CleanupStages | backend/server.js:93-106 | cleanup is the attempted image destroys, followed by the raw JSON destroy exactly when `jsonUrl` is set and every image destroy succeeded |
| Blobs.CleanupOrder | backend/server.js:93-106 | cleanup destroys the images first, in stored order, by public id; the raw JSON destroy comes last, and only when `jsonUrl` is set and every image destroy succeeded |
| Blobs.PresentImages | backend/server.js:172-175 | at most three images are sent, those of the filled slots |
| Blobs.UploadFailsAt | backend/server.js:169-182 | when image `k` is the first upload to fail, the issued calls are the JSON upload, the images before `k`, and image `k`, and the publish fails |
| Blobs.UploadJsonAs | backend/server.js:171 | after the JSON upload the try block stands where the plan says: the call issued, and the URL exactly when it succeeded |
| Blobs.UploadSlotAs | backend/server.js:173-175 | each slot keeps the try block at the attempted prefix of the plan, with one URL per uploaded image |
| Blobs.UploadAfterFailure | backend/server.js:169-182 | once an upload has failed, later slots issue nothing and the publish stays failed |
| Blobs.UploadNext | backend/server.js:173-175 | while all uploads succeeded, the next image is uploaded and either adds its URL or ends the try block |
| Blobs.PublishUploadsAttempted | backend/server.js:169-182 | publish's uploads are the attempted prefix of JSON-then-images; URLs come back exactly when every upload succeeds, one per sent image in slot order |
| Blobs.PublishNeverDestroys | backend/server.js:169-182 | publish issues only uploads, even when it fails: nothing uploaded is deleted again |
| Blobs.CleanupDestroysOnly | backend/server.js:93-106 | one level's cleanup issues only destroys, starting with the first planned one |
| Blobs.CascadeReachesEveryLevel | backend/server.js:249-250 | the admin cascade starts the cleanup of every level of the target, whatever failed before, and issues only destroys |
| Queries.Filter | backend/server.js:249 | a `find` with a condition returns no more documents than there are |
| Queries.FilterMembers | backend/server.js:249 | a `find` with a condition keeps exactly the documents satisfying it |
| Queries.FilterAppend | backend/server.js:249 | filtering distributes over concatenation, so filtering keeps stored order |
| Queries.FilterKeepsAll | backend/server.js:219 | a condition every document meets filters nothing out |
| Queries.FilterDropsOne | backend/server.js:219 | a condition only one document fails removes exactly that document and keeps the order of the rest |
| Queries.FirstIndex | backend/server.js:126 | `findOne` finds the first matching document, and finds none only when no document matches |
| Queries.RemoveUser | backend/server.js:252 | `deleteOne` removes one user with that name when there is one, keeps every other user, and changes nothing otherwise |
| Queries.RemoveUniqueUser | backend/server.js:252 | with unique usernames, the users left are exactly those with another name, still unique |
| Queries.Views | backend/server.js:236 | the admin listing has one entry per user |
| Queries.LevelsBy | backend/server.js:249 | `find({ creator })` keeps exactly the levels whose creator is that name |
| Queries.LevelsNotBy | backend/server.js:251 | `deleteMany({ creator })` leaves exactly the levels by other creators |
| Queries.LevelsExcept | backend/server.js:219 | `deleteOne({ _id })` leaves exactly the levels with another id |
| Queries.Matching | backend/server.js:227-229 | the `$or` of the two `$regex` conditions keeps exactly the levels whose title or creator matches |
| Queries.LevelsNotByValid | backend/server.js:251 | `deleteMany({ creator })` leaves only stored levels, with ids still unique |
| Queries.FilterUnique | backend/server.js:251 | any filter of levels with unique ids keeps the ids unique |
| Queries.LevelsExceptUnique | backend/server.js:219 | with unique ids, `deleteOne({ _id })` removes exactly the level at that position and keeps the order of the rest |
| Queries.NewestFirstCons | backend/server.js:193 | a level no older than the head of a newest-first list can go in front of it |
| Queries.NewestFirstTail | backend/server.js:193 | the tail of a newest-first list is newest-first |
| Queries.InsertByDate | backend/server.js:193 | inserting into a newest-first list keeps it newest-first and adds exactly that level |
| Queries.SortNewest | backend/server.js:193 | `sort({ createdAt: -1 })` yields a newest-first permutation of the levels |
| Server.Store.constructor | backend/server.js:41-57 | empty collections, counter and media-call log |
| Server.Store.CloudinaryUpload | backend/server.js:81-91 | one upload call is issued, and the URL is the media service's answer |
| Server.Store.CloudinaryDestroy | backend/server.js:98 | one destroy call is issued, with the given resource type |
| Server.Store.DestroyImages | backend/server.js:95-99 | the image loop issues the image destroys up to the first failure, and reports whether all succeeded |
| Server.Store.DeleteCloudinaryFiles | backend/server.js:93-106 | the calls issued are exactly the attempted prefix of the cleanup plan; nothing is reported back |
| Server.Store.Register | backend/server.js:113-121 | a taken username answers `success: false` with nothing changed; a failed hash answers 500; otherwise one user with the hash and role `user` is appended under a fresh id |
| Server.Store.Login | backend/server.js:123-137 | a token is returned exactly when a user has that name and the password matches its hash; the token signs that user's id, name and stored role |
| Server.Store.BecomeAdmin | backend/server.js:140-160 | 401 without a valid token; 403 with nothing changed when the key differs from `ADMIN_KEY`; otherwise the token's user becomes admin, nobody else changes, and the new token signs that user with role `admin`; a token whose user is gone lets the rejection escape the handler, with no reply and the store unchanged |
| Server.Store.SaveLevel | backend/server.js:177-180 | the level is appended under the next id, and the store invariant holds |
| Server.Store.PushImage | backend/server.js:173-175 | one slot of publish, as `Blobs.UploadSlot` describes it: the upload issued, and the URL appended when it succeeds |
| Server.Store.UploadFiles | backend/server.js:171-175 | the calls issued, the success flag and the URLs are those of `Blobs.PublishUploads` |
| Server.Store.Publish | backend/server.js:163-183 | 401 without a valid token; 500 with nothing issued without a JSON file; 500 with nothing saved when an upload fails; otherwise 200, and exactly one level is saved, created by the token's user with the uploaded URLs |
| Server.Store.ListLevels | backend/server.js:186-198 | newest first; with a non-empty `creator`, exactly that creator's levels; otherwise all levels |
| Server.Store.GetLevel | backend/server.js:200-206 | the level with that id is returned with 200; 404 when no level has it or the id does not cast |
| Server.Store.DeleteLevel | backend/server.js:208-222 | 401 / 500 on a bad id / 404 / 403 change nothing; an owner or admin gets the cleanup calls, then the removal of exactly that level, recorded after every one of those calls, and 200 |
| Server.Store.RemoveLevel | backend/server.js:219 | exactly the level at that position is removed, no level with its id is left, and the delete is logged after the media calls issued so far |
| Server.Store.Search | backend/server.js:224-231 | an empty query answers `[]`; otherwise exactly the first 20 matching levels in stored order, or all of them when there are at most 20 |
| Server.Store.AdminUsers | backend/server.js:234-238 | 401 / 403 for a non-admin token; otherwise one view per user, with id, name and role and never the hash |
| Server.Store.AdminLevels | backend/server.js:240-244 | 401 / 403 for a non-admin token; otherwise every level |
| Server.Store.AdminDeleteUser | backend/server.js:246-254 | 401 / 403 change nothing; for an admin, the target's levels are cleaned up one after the other, then the target's levels and the target are removed, both deletes logged after every cleanup call, and everything else is kept |
| Server.Store.CleanupLevels | backend/server.js:249-250 | each doomed level's cleanup runs in turn, each stopping only itself |
| Server.Store.RemoveUserAndLevels | backend/server.js:251-252 | the levels left are exactly those by other creators, the users left are exactly those with other names, and the two deletes are logged in that order after the media calls issued so far |
| Scenarios.RegisterThenLogin | backend/server.js:113-137 | a freshly registered user can log in, and the token carries the new id, the name and role `user` |
| Scenarios.AdminTokenOpensAdminRoutes | backend/server.js:140-160 | the token returned by become-admin opens `/admin/users`, which then lists the user as admin |
| Scenarios.DeleteTwice | backend/server.js:208-222 | deleting a level a second time answers 404 |
| Scenarios.DeletedUserIsGone | backend/server.js:246-254 | after the admin deletion, the target cannot log in and owns no level |

## Left out

- Express plumbing is not modelled: CORS, JSON body parsing, the static files and the catch-all route, `app.listen`. Multer's parsing is reduced to one optional byte string per upload slot.
- `script.js`, the browser front end, is not part of this model.
- Missing or non-string body and query fields are not modelled: absent `username`/`password`, a `query` given twice and arriving as an array. Those inputs are typed as strings or optional strings.
- Database failures are not modelled: an unreachable MongoDB, failing `save`/`find`. The only database errors modelled are the failed `_id` cast and the rejected regular expression.
- A unique index on `username` is not modelled: the store treats `findOne` followed by `save` as atomic. Concurrent requests are not modelled.
- bcrypt, JWT and Cloudinary are oracles given as parameters, so their behaviour is taken to be deterministic. Salted hashing, key handling, the `10` cost factor and the `30d` token expiry are not modelled. The token signed at login has no expiry or clock in the model.
- The `console.log`/`console.error` output is not modelled.
- Process termination is not modelled: an escaped rejection (`Unhandled`) ends the server process on current Node.js, and the model only records that no reply is sent and the store is left as it was.
- `Date.now` is the `now` parameter of `Server.Store.Publish`.
- The `i` (case-insensitive) regular-expression matching of search is the `regexMatch` oracle; its semantics are not modelled.
- Auth.Authenticate: it has no contract of its own. `Auth.AuthenticateBearer`, `Auth.AuthenticateEmptyToken` and `Auth.AuthenticateNoSpace` state its behaviour on every header shape.
- Queries.Views: its contract states only the length; the contents of each entry are stated on `Server.Store.AdminUsers`.
- Server.Store.ListLevels: levels with equal `createdAt` may come out in any order, as MongoDB's sort does not fix the order of ties.
- Server.Store.Search: the model returns the first matches in stored order, which is MongoDB's natural order for an unsorted `find`.
- Server.Store.AdminDeleteUser: the cascade cleans up the target's levels in stored order, taking MongoDB's natural order for the unsorted `Level.find({ creator })` to be stored order, as for search.
- The response bodies' messages (`"Pseudo pris"`, …) and the fields of successful replies other than the token, the levels and the user views are not modelled.
