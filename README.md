# Metacode back end: record and auth routes, modelled in Dafny

This project models the request logic of the Metacode back end, an Express and
mongoose service that stores short text records ("métaphores") and guards
them with JWT authentication. It covers four parts:

- the record routes (`routes/metaphore.route.js`) over an in-memory
  collection, one method per handler: create, search, get by id, list,
  patch visibility, patch downloadable, put, bulk insert and delete. It also
  models which middleware guards each route.
- the auth routes (`routes/auth.route.js`): register, `/me` and login.
- the two schemas (`models/metaphore.model.js`, `models/user.model.js`):
  required fields, defaults, the role enum, the casts mongoose applies, and
  the pre-save hook that hashes a modified password.

Modules, one per file:

- `Http` (`http.dfy`): JSON values as Express hands them over (with
  JavaScript truthiness and property access), ObjectIds, and responses as
  (status, body) pairs. It also has JavaScript's `String(n)` for integers,
  with its inverse.
- `Mongoose` (`mongoose.dfy`): casting a value to a String or Boolean
  schema path, and the `required` check for strings.
- `MetaphoreModel` (`metaphore_model.dfy`): the record schema; building a
  new record (casts, defaults, validation); casting and applying an update,
  which runs no validators.
- `UserModel` (`user_model.dfy`): the user schema; `comparePassword`; a
  `UserDocument` class whose `PreSave` method is the pre-save hook, guarded
  by an `isModified('password')` flag.
- `MetaphoreRoutes` (`metaphore_routes.dfy`): the guard table; the bulk
  filter and the bulk decision as pure functions; class `Metaphores`, a map
  from id to record, with one method per handler. A `Handle` method runs
  the guards before the handler.
- `AuthRoutes` (`auth_routes.dfy`): `split(" ")` and its inverse `join`; the
  Bearer header check; `findOne({username})`; class `Users` with `Register`,
  `Me` and `Login`.

Calls into code that is not part of this model are parameters:

- `authMiddleware` and `adminMiddleware` are a `passes: Guard -> bool`
  predicate.
- jsonwebtoken is `Jwt(sign, verify)`. `verify` returns None where the
  library throws.
- bcrypt is `Bcrypt(hash, compare)`. The salt from `genSalt(10)` is a
  parameter.
- The search regex with option `i` is `regex: string -> Option<string -> bool>`.
  It returns None when MongoDB refuses the pattern.
- `JWT_SECRET` and the clock are parameters.

ObjectId generation is a counter `nextId`. Each class keeps the invariant
`Valid()`: every stored id is below `nextId`.

## Behaviour of the code that the model makes explicit

- Create, get by id, patch and put answer 400 with mongoose's own message on
  any cast or validation error. A title that is missing, null or empty fails
  `required`. A number or boolean title is cast to a string and passes,
  even a falsy `0`.
- A flag takes its default (visible true, downloadable false) only when it is
  undefined. An explicit `null` is stored as null.
- `findOneAndUpdate` runs no validators. A PUT can therefore store a null or
  empty title, which no create accepts (`UpdateCanDropTitle`). Keys outside
  the schema are dropped. A key whose value is undefined sets nothing, so a
  patch without the field leaves the record unchanged (mongoose 6 and later;
  see "Left out").
- Patch and put on a missing id answer 200 with body `null` and change
  nothing. Delete answers 404 for a missing id. A delete id that is not an
  ObjectId answers 500, because this handler's catch uses 500. The other
  handlers answer 400 for a bad id.
- Bulk checks run in this order:
  - a body that is not a non-empty array answers 400;
  - a `null` element makes the filter callback throw, which answers 500;
  - no element with a truthy title and content answers 400;
  - `insertMany` (ordered) validates every kept element, and if one fails
    it answers 500 and inserts nothing.
- `/me` answers 404 "User not found" when a verified token names no user, or
  has no `id` at all. A token whose `id` is not an ObjectId makes `findById`
  throw, which answers 401 "Unauthorized or token expired".
- Login's success body carries the stored user document, password hash
  included. `/me` returns only id, username and role.
- Register does not check that a username is free. Login picks the first
  user with the name (`FirstNamed`).
- Search treats `q` as a case-insensitive regular expression matched
  against the title, not as a literal substring.
- `/me` has a 404 path of its own, besides its two 401 paths.
- No handler emits a change event.

## Model

| member | source | states |
|---|---|---|
| `Mongoose.CastString` | models/metaphore.model.js:5-6 | A String path keeps strings; a number becomes its canonical numeral, which reads back as it ("0" for zero; no leading zero; `-` then the magnitude's digits for a negative); a boolean becomes "true" or "false"; a document gives its string `_id`; null/undefined stay unset; arrays and other objects are refused |
| `Mongoose.CastBoolean` | models/metaphore.model.js:7-8 | A Boolean path accepts exactly mongoose's true and false spellings and null/undefined; anything else is a cast error |
| `Mongoose.CastRequiredString` | models/metaphore.model.js:5 | A required String passes exactly when it casts to a non-empty string; missing, null and "" are refused |
| `Mongoose.NumbersAndBooleansAreRequiredStrings` | models/user.model.js:5-6 | Any number or boolean satisfies a required String path |
| `Http.DecimalRoundTrip` | models/metaphore.model.js:5 | The digits `String(n)` gives a natural read back as that natural |
| `Http.IntToString` | models/metaphore.model.js:5 | `String(n)` of an integer starts with `-` exactly when it is negative, its digits read back as its magnitude, zero is "0" and no other numeral has a leading zero; `CastString` states this of a cast number |
| `MetaphoreModel.FlagWithDefault` | models/metaphore.model.js:7-8 | An explicit null keeps no default; only a value that does not cast is refused; the flag is true exactly when given as a true spelling or missing with default true, and likewise for false |
| `MetaphoreModel.RecordFrom` | routes/metaphore.route.js:9-16 | A record is built only from an object with a title, and has a non-empty title; a missing flag takes its default |
| `MetaphoreModel.NewRecord` | models/metaphore.model.js:4-9 | A saved record has a non-empty title; a missing/null/empty title is refused; a record is refused exactly when a path fails; supplied values are stored; visible defaults to true and downloadable to false |
| `MetaphoreModel.ContentIsOptional` | models/metaphore.model.js:6 | A title alone makes a record with no content and the two defaults |
| `MetaphoreModel.CreatedWithDefaults` | routes/metaphore.route.js:9-16 | A body with only title and content builds the record with those values, visible true, downloadable false |
| `MetaphoreModel.CastUpdate` | routes/metaphore.route.js:144-148 | An update fails exactly when a set schema path does not cast |
| `MetaphoreModel.Apply` | routes/metaphore.route.js:144-148 | An update that sets nothing keeps the record; one that sets every path gives exactly the set values |
| `MetaphoreModel.UpdateStores` | routes/metaphore.route.js:144-148 | After a successful cast, each path the body sets holds the String or Boolean cast of the body's value, and every other path keeps the record's value |
| `MetaphoreModel.UnknownKeysIgnored` | routes/metaphore.route.js:146 | Keys outside the schema do not change the cast update |
| `MetaphoreModel.ApplyIdempotent` | routes/metaphore.route.js:142-149 | Applying an update twice equals applying it once |
| `MetaphoreModel.VisibleUpdate` | routes/metaphore.route.js:56-62 | `{visible: v}` changes nothing when v is undefined, fails exactly when v does not cast, and otherwise sets visible alone |
| `MetaphoreModel.DownloadableUpdate` | routes/metaphore.route.js:72-78 | `{downloadable: v}` changes nothing when undefined, fails exactly when v does not cast, otherwise sets downloadable alone |
| `MetaphoreModel.UpdateCanDropTitle` | routes/metaphore.route.js:144-148 | An update with a null or empty title casts and yields a record without the required title |
| `UserModel.ParseRole` | models/user.model.js:7 | The role enum accepts exactly the names "user" and "admin", each as its own role |
| `UserModel.RoleNameRoundTrip` | models/user.model.js:7 | Each role's name parses back to that role |
| `UserModel.NewUser` | models/user.model.js:4-8 | A user is built exactly when username and password both cast to non-empty strings; they are stored as cast; the role is the default user, which passes the enum; a missing field is refused |
| `UserModel.UserDocument.constructor` | routes/auth.route.js:11 | A new document holds the given user and its password counts as modified |
| `UserModel.UserDocument.Loaded` | models/user.model.js:12 | A document read from the store holds that user with nothing modified |
| `UserModel.UserDocument.PreSave` | models/user.model.js:11-16 | The password becomes its hash with the salt if it was modified, and is otherwise unchanged; username and role never change |
| `UserModel.ResaveKeepsHash` | models/user.model.js:12 | Saving a document read back from the store leaves its stored hash untouched |
| `UserModel.NewUserMatchesOwnPassword` | models/user.model.js:19-21 | After the hook, `comparePassword` with the original password holds when bcrypt accepts a password against its own hash; the stored record is the user with the hashed password |
| `MetaphoreRoutes.Guards` | routes/metaphore.route.js:8-157 | Only delete lists the admin check; only search and get-by-id list no guard; authentication is always the first guard |
| `MetaphoreRoutes.Refusal` | routes/metaphore.route.js:157 | A guard chain passes exactly when every guard passes; otherwise the answer is the first failing guard, all guards before it having passed |
| `MetaphoreRoutes.GuardTable` | routes/metaphore.route.js:8-157 | Search and get-by-id have no guard; delete runs only when auth and then admin pass, and auth refuses first; every other route needs auth alone |
| `Http.Json.Truthy` | routes/metaphore.route.js:94 | A value is truthy exactly when it is none of undefined, null, false, 0 and "" |
| `Http.Json.Prop` | routes/metaphore.route.js:94 | Reading a key gives the object's own field, and anything but undefined only from an object holding that key |
| `MetaphoreRoutes.Keep` | routes/metaphore.route.js:94 | Only an object with a title and a content key can pass the filter callback |
| `MetaphoreRoutes.BulkFilter` | routes/metaphore.route.js:94 | The filtered list is no longer than the input and every element of it passes the callback |
| `MetaphoreRoutes.BulkFilterThrows` | routes/metaphore.route.js:94 | The filter throws exactly when some element is null or undefined |
| `MetaphoreRoutes.BulkFilterKeepsExactly` | routes/metaphore.route.js:94 | The filter's result is an order-preserving subsequence of the input; every kept element has a truthy title and content; each such element is kept as often as it occurs |
| `MetaphoreRoutes.CastAll` | routes/metaphore.route.js:100 | A successful validation gives one record per element, each with a non-empty title |
| `MetaphoreRoutes.CastAllRecords` | routes/metaphore.route.js:100 | `insertMany` validation succeeds exactly when every element makes a record, and gives those records in order |
| `MetaphoreRoutes.PlanBulk` | routes/metaphore.route.js:87-105 | A body that is not a non-empty array is refused with 400; a null element (the callback throws) answers 500; a non-empty kept list is inserted exactly when all of it validates; an insertion is planned only for a non-empty filtered list; every refusal is 400 or 500 |
| `MetaphoreRoutes.PlanBulkInsertsKeptElements` | routes/metaphore.route.js:94-105 | No kept element answers 400; with kept elements, they are inserted exactly when each makes a record, and otherwise the answer is 500; an insertion holds one record per kept element, built from it, in input order, the kept elements being exactly those with truthy title and content |
| `MetaphoreRoutes.BulkExample` | routes/metaphore.route.js:85-101 | Of `[{title:"A",content:"x"},{title:""},{content:"y"}]` only the first is inserted, with the defaults |
| `MetaphoreRoutes.Matching` | routes/metaphore.route.js:30-34 | The search result holds exactly the stored records whose string title the pattern matches, unchanged |
| `MetaphoreRoutes.Metaphores.Create` | routes/metaphore.route.js:8-21 | A valid body adds exactly one record under a fresh id and answers 201 with it; an invalid one answers 400 and adds nothing |
| `MetaphoreRoutes.Metaphores.Search` | routes/metaphore.route.js:24-40 | A non-string q answers 400 "$regex has to be a string" before any query; a refused pattern answers 400; otherwise exactly the documents whose string title matches, with their stored values |
| `MetaphoreRoutes.Metaphores.GetById` | routes/metaphore.route.js:44-51 | The document with that id, or null when absent; a malformed id answers 400; the collection is not changed |
| `MetaphoreRoutes.Metaphores.List` | routes/metaphore.route.js:131-138 | Every document |
| `MetaphoreRoutes.Metaphores.FindOneAndUpdate` | routes/metaphore.route.js:56-66 | Cast errors answer 400 with no change; otherwise only the record with that id gets the update and is returned as updated; a missing id answers null with no change |
| `MetaphoreRoutes.Metaphores.PatchVisibility` | routes/metaphore.route.js:54-67 | Sets only `visible` on that record, to the cast body value, and returns the record after the change; null with no change on a missing id; 400 with no change on a cast error |
| `MetaphoreRoutes.Metaphores.PatchDownloadable` | routes/metaphore.route.js:70-83 | The same for `downloadable` |
| `MetaphoreRoutes.Metaphores.Put` | routes/metaphore.route.js:142-153 | Applies the cast body to that record only and returns it updated; null with no change on a missing id; 400 with no change on a cast error |
| `MetaphoreRoutes.Metaphores.Bulk` | routes/metaphore.route.js:85-106 | Every refusal leaves the collection unchanged and answers as planned; otherwise the planned records are added under fresh ids disjoint from existing ones and returned 201 in input order |
| `MetaphoreRoutes.Metaphores.Delete` | routes/metaphore.route.js:157-169 | A missing id answers 404 and removes nothing; an existing id removes exactly that record and answers the success message; a malformed id answers 500 |
| `MetaphoreRoutes.Metaphores.Handle` | routes/metaphore.route.js:8-157 | A refused guard blocks the request and leaves the collection unchanged; the handler runs exactly when no guard refuses; read routes never change the collection |
| `MetaphoreRoutes.CreateThenGet` | routes/metaphore.route.js:8-51 | Creating `{title, content}` then reading it by id returns those values with visible true and downloadable false |
| `MetaphoreRoutes.DeleteByNonAdmin` | routes/metaphore.route.js:157 | A delete the admin check refuses is blocked before the store is touched |
| `AuthRoutes.Split` | routes/auth.route.js:26 | `split` always yields at least one piece and no piece contains the separator |
| `AuthRoutes.SplitJoin` | routes/auth.route.js:26 | Joining the pieces of a split gives the original string |
| `AuthRoutes.Join` | routes/auth.route.js:26 | The joined string starts with the first piece |
| `AuthRoutes.JoinSplit` | routes/auth.route.js:26 | Pieces without the separator, joined and split again, give the same pieces |
| `AuthRoutes.SplitAfterWord` | routes/auth.route.js:26 | A separator-free first word splits off as the first piece |
| `AuthRoutes.BearerToken` | routes/auth.route.js:21-26 | A token is extracted exactly when the header is present and starts with "Bearer " |
| `AuthRoutes.BearerTokenIsNextWord` | routes/auth.route.js:22-26 | The token is the space-free run right after "Bearer ", followed by the end or a space |
| `AuthRoutes.FirstNamed` | routes/auth.route.js:50 | The result is a user with that name and no lower id has it; None means no user in range has it |
| `AuthRoutes.Users.Register` | routes/auth.route.js:8-17 | A valid body stores exactly one user, with the hashed password and role user, and answers 201 with the message; an invalid one answers 400 and stores nothing |
| `AuthRoutes.Users.Me` | routes/auth.route.js:19-43 | A missing or non-Bearer header answers 401 "Unauthorized" regardless of token and store; a failed verification or non-ObjectId id answers 401 "Unauthorized or token expired"; no user answers 404; otherwise exactly id, username and role |
| `AuthRoutes.Users.Login` | routes/auth.route.js:46-78 | Unknown user and wrong password give the identical 401 "Invalid credentials"; success is 200 with a token signed over id, role and username for "1h" and the user |
| `AuthRoutes.RegisterThenLogin` | routes/auth.route.js:8-73 | Registering a fresh name and logging in with the same password succeeds with role user and the new user's token |

## Left out

- Change broadcasting: no handler emits an event. The socket.io server is only attached to the app (index.js:21), so the model has no events.
- `authMiddleware` and `adminMiddleware`: `middlewares/auth` is not part of this model. Each is a pass/fail predicate, and its own refusal response is not modelled.
- jsonwebtoken, bcrypt and the regex engine: these are foreign libraries, so they are function parameters. Token expiry arithmetic, salting and regex syntax are not modelled.
- Storage failures: lost connections, write errors and duplicate keys in `save`, `insertMany`, `find` or `deleteOne` are not modelled. They account for the 500 answers of list (line 136) and delete (line 167, except a malformed id) and login's 500 (line 76). A partly completed `insertMany` after a storage error is also not modelled.
- Mongoose's error messages: every `{ error: err.message }` is the payload `Thrown`, without its text.
- Timestamps (`createdAt`, `updatedAt`) and `__v`: they depend on the clock and storage.
- JSON output details: an absent content and a null content are both None.
- Result order of search and list: these are maps. The store decides the order of a `find`.
- `findOne` natural order: the model takes it to be id order.
- ObjectId generation: modelled as a counter. Ids are unique and never reused.
- Numbers: only integers are modelled. `NaN`, fractions and the exponent notation of `String(n)` for very large numbers are not.
- `Put` bodies: only plain objects are modelled. By the time `Put` is called, the body is a map of fields, so these are out:
  - update operators (`$set`, ...);
  - `_id` or timestamp keys;
  - an array body, which mongoose treats as an update pipeline.
- Bulk elements that carry their own `_id`: not modelled; the model gives every inserted element a fresh id.
- `Login`: username and password are typed as strings. Query casting for other values is not modelled: an undefined name, an operator object such as `{"$ne": null}`, and bcrypt's errors on a non-string password.
- Request bodies: the model assumes Express 4, whose json parser always sets `req.body` to an object or array (`{}` when nothing is parsed). So every handler with a body requires it to be non-null (`Create`, `PatchVisibility`, `PatchDownloadable`, `Register`, and `BodyParsed` in `Handle`). The Express version is not part of this model. Under Express 5, `req.body` stays undefined for a request without a JSON body. The destructuring at routes/metaphore.route.js:9, routes/auth.route.js:9 and routes/auth.route.js:47 would then throw outside its `try`, and Express's default handler would answer 500. The reads of `req.body.visible` and `req.body.downloadable` at routes/metaphore.route.js:59 and :75 would throw inside the `try` and answer 400. The model does not cover these Express 5 paths.
- Roles: register never supplies a role, and no route of the two routers sets one. How an account becomes admin is not part of this model.
- Mongoose version: the model takes mongoose 6 or later, which removes undefined keys from an update. Under mongoose 5 without `omitUndefined`, `{visible: undefined}` would be sent and store null. The `useNewUrlParser`/`useUnifiedTopology` options at index.js:34-35 are also accepted by 5.x, and the package version is not part of this model. `CastUpdate`, `VisibleUpdate`, `DownloadableUpdate` and `UpdateStores` state the 6.x behaviour only.
- `UserModel.UserRecord.ComparePassword`: it is a direct call to bcrypt's compare on the stored hash, so it has no contract of its own; what it answers after the pre-save hook is stated by `UserModel.NewUserMatchesOwnPassword` and by `AuthRoutes.Users.Login`.
- Bootstrap and route mounting: index.js and routes/index.js are plumbing (Express, CORS, logging, `mongoose.connect`, the `/auth` and `/metaphores` prefixes).
- Concurrency: asynchronous scheduling is not modelled. Each handler is one atomic step.
- `MetaphoreRoutes.Metaphores.Handle`: states only the guard decision and the untouched collection on refusal; what a handled request does is stated by each handler method's own contract.
