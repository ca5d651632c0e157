# User and follow handlers of the snapnest API, modelled in Dafny

This project models the user controller of the snapnest media-sharing API:
account registration, login, logout, profile lookup with follower counts, and
the follow/unfollow toggle. Express, Mongoose, bcrypt and JWT are replaced by
their observable behaviour. The user collection is a sequence of `User`
records. The follow collection is a sequence of `(follower, following)` edges.
Every request ends in an `Outcome`: a response with a status, a JSON body and
an effect on the `token` cookie; no response at all; or the TypeError thrown
when a handler reads a property of a lookup that found nothing.

Modules, one per concern:

- `Values` (values.dfy): `Option`, and `Truthy`, which is JavaScript's test
  `!field` on a string field. A field is falsy when it is missing or empty.
  Mongoose's `required` check on a String path rejects the same values.
- `Crypto` (crypto.dfy): stand-ins for `bcrypt.hash`, `bcrypt.compare`,
  `jwt.sign` and `jwt.verify`. They are concrete definitions chosen so that
  the two laws the controller relies on hold.
  `compare(q, hash(p))` holds iff `q == p` (`CompareHash`).
  `verify(t) == Some(id)` iff `t == sign(id)` (`VerifySigned`).
  A cookie value is either a token the server signed or some other text.
- `UserModel` (user_model.dfy): the schema of models/user.model.js.
  `Document` is what `User.create` receives, and `IsValid` is the schema's
  rule for required paths. `User` is a stored record. `PublicUser` is a record
  without `hashedPassword`.
- `Http` (http.dfy): responses, bodies and outcomes. No body variant has a
  field that could carry a password digest.
- `FollowGraph` (follow_graph.dfy): `countDocuments`, `exists`, `deleteOne`
  (remove first match) and `create` (append) on the edge sequence, and the
  toggle built from them.
- `UserQueries` (user_queries.dfy): `User.findOne` by email or username
  (first match).
- `UserController` (user_controller.dfy): each handler as a function of the
  store contents and the request (`Register`, `LoginUser`, `LogoutUser`,
  `GetUser`, `Follow`), with the properties its handler promises.
- `UserStore` (user_store.dfy): class `Store`, holding the two collections
  and the next id. `RegisterUser` and `FollowUser` update them in place,
  using loops for the lookups and for first-match deletion. Each method is
  proved equal to its specification function. Three client methods use
  only the class's contracts. `SignUpAndLogIn` signs up, logs in and views
  the new profile. `TwoSignUps` registers two distinct users.
  `FollowThenUnfollow` follows and then unfollows a profile.

Behaviour modelled as the code has it:

- A request without `displayName` passes the handler's 400 check, fails
  schema validation inside `User.create`, and gets a 500 with nothing stored.
  The handler's own check does not ask for `displayName`, but the schema
  requires it.
- `registerUser` never sets `img`. A registered record therefore has no
  image, and no image URL is normalised.
- `getUser` with a cookie that fails verification sends no response at all.
  The `jwt.verify` callback has no else branch.
- `getUser` and `followUser` on an unknown username end in
  `NullDereference`. There is no not-found branch.
- `followUser` has no self-follow guard (`FollowSelf`).
- Toggling twice restores the follow store exactly when the pair had no
  edge. When the pair had one edge, the same multiset comes back, with that
  edge moved to the end. If a pair were stored twice, two toggles would delete
  both copies (`ToggleTwiceDuplicated`). This is why `Store.Valid` keeps at
  most one edge per pair.
- The schema declares no unique index. Email and username stay unique only
  because `registerUser` looks them up first (`RegisterKeepsUnique`).
  `Create` alone admits duplicates (`CreateAloneAdmitsDuplicates`).

## Model

| member | source | states |
|---|---|---|
| Values.Truthy | controllers/user.controller.js:11 | JavaScript's `!field` on a string field: missing and "" are falsy; the same test as Mongoose's String `required`, constrained through `RegisterMissingField`, `LoginMissingField` and `Create` |
| Crypto.Hash | controllers/user.controller.js:29 | stand-in for `bcrypt.hash(password, 10)`; constrained by `CompareHash` (the digest matches exactly its own password) |
| Crypto.Compare | controllers/user.controller.js:79-82 | stand-in for `bcrypt.compare`; constrained by `CompareHash` |
| Crypto.CompareHash | controllers/user.controller.js:79-82 | a password matches the digest of a password iff the two are equal |
| Crypto.Sign | controllers/user.controller.js:40 | the token signed for an id verifies to that id |
| Crypto.Verify | controllers/user.controller.js:136-137 | stand-in for `jwt.verify`; constrained by `Sign` (round trip) and `VerifySigned` (only signed tokens verify) |
| Crypto.VerifySigned | controllers/user.controller.js:136-137 | a token verifies to an id iff it is the token signed for that id |
| UserModel.IsValid | models/user.model.js:6-24 | the schema's required-path rule: displayName, username, email and hashedPassword present and non-empty; `Create` succeeds exactly when it holds, and `ImgIsOptional` shows `img` plays no part |
| UserModel.Create | models/user.model.js:4-34 | creation succeeds iff displayName, username, email and hashedPassword are present and non-empty; the record holds exactly the document's paths under the given id, with both timestamps set to the clock |
| UserModel.ImgIsOptional | models/user.model.js:18-20 | validity never depends on `img`; a valid document without `img` is valid |
| UserModel.ToPublic | controllers/user.controller.js:50 | the public record loses only the digest: putting the digest back gives the stored record |
| UserModel.PublicViewHidesDigest | controllers/user.controller.js:48-53 | the public record is the same whatever the stored digest, so no response reveals it |
| FollowGraph.CountBy | controllers/user.controller.js:123-124 | a count query never exceeds the number of stored edges |
| FollowGraph.CountByAppend | controllers/user.controller.js:167 | appending an edge raises exactly the counts that edge matches, by one |
| FollowGraph.CountByIsCardinality | controllers/user.controller.js:123-124 | a count query equals the number of stored positions whose edge has the given end |
| FollowGraph.RemoveFirst | controllers/user.controller.js:165 | deleteOne removes one copy of the edge when stored, and changes nothing otherwise |
| FollowGraph.RemoveFirstSplit | controllers/user.controller.js:165 | deleting an edge no earlier position holds removes the copy right after those positions and keeps everything else |
| FollowGraph.RemoveFirstAt | controllers/user.controller.js:165 | the copy removed is the first one; the other edges keep their order |
| FollowGraph.Toggle | controllers/user.controller.js:164-168 | one copy of the edge is removed if present, otherwise one is added; every other edge is unchanged |
| FollowGraph.ToggleKeepsAtMostOnce | controllers/user.controller.js:159-168 | if no pair has two edges before a toggle, none has after |
| FollowGraph.RemoveFirstAppendAbsent | controllers/user.controller.js:165-167 | deleting an edge just appended to a store without it gives back that store |
| FollowGraph.ToggleTwice | controllers/user.controller.js:159-168 | with at most one edge for the pair, two toggles restore the multiset of edges, and restore the sequence itself when the pair had none |
| FollowGraph.ToggleTwiceDuplicated | controllers/user.controller.js:165 | with the pair stored twice, two toggles remove both copies |
| FollowGraph.CountByRemoveFirst | controllers/user.controller.js:165 | deleting a stored edge lowers exactly the counts that edge matches, by one |
| FollowGraph.ToggleCountBy | controllers/user.controller.js:164-168 | a toggle moves each count the edge matches by one (down for an unfollow, up for a follow) and leaves every other count unchanged |
| UserQueries.FindOne | controllers/user.controller.js:17-24 | a lookup finds a record iff some stored record holds the value, and the record it finds holds the value |
| UserQueries.FindOneFirst | controllers/user.controller.js:17 | the record found is the first stored match |
| UserQueries.FindOneUnique | controllers/user.controller.js:119 | with a unique path, the lookup finds the one record holding the value |
| UserQueries.FindOneAppended | controllers/user.controller.js:72 | a lookup of a value held by no earlier record finds a newly appended record holding it |
| UserController.Register | controllers/user.controller.js:7-61 | a user is created iff username, email, password and displayName are truthy and neither the email nor the username is in use; the new record has the next id, the request's fields, no img and hash(password), and the response is 201 with its public view and a token cookie for its id; otherwise the response is a 400 or 500 message and the cookie is untouched |
| UserController.RegisterMissingField | controllers/user.controller.js:11-13 | a missing username, email or password gives 400 "All fields are required!" and stores nothing |
| UserController.RegisterEmailFirst | controllers/user.controller.js:17-20 | a taken email gives 400 "Email is already in use.", even if the username is taken too, and stores nothing |
| UserController.RegisterUsernameTaken | controllers/user.controller.js:22-26 | a free email with a taken username gives 400 "Username is already taken." and stores nothing |
| UserController.RegisterMissingDisplayName | controllers/user.controller.js:32-59 | without displayName, schema validation fails in create: 500 and nothing stored |
| UserController.Stored | controllers/user.controller.js:32-37 | a registration keeps the old records in order and appends the created record, if any, and nothing else |
| UserController.RegisterKeepsUnique | controllers/user.controller.js:17-37 | a registration keeps emails unique and usernames unique |
| UserController.CreateAloneAdmitsDuplicates | models/user.model.js:10-17 | the schema alone accepts a second record with the same email and username |
| UserController.LoginUser | controllers/user.controller.js:63-108 | a 200 comes only from a stored record with that email whose digest matches the password, and carries its public view and a token for its id; any other response is a message with the cookie untouched; the status is 200, 400 or 401, and 400 exactly when the email or password is missing or empty |
| UserController.LoginMissingField | controllers/user.controller.js:66-68 | a missing or empty email or password gives 400 "All fields are required!" |
| UserController.LoginFailsUniformly | controllers/user.controller.js:72-86 | with email and password given, every failed login is the same 401 "Invalid email or password", whether the email is unknown or the password wrong |
| UserController.LoginFailsOnlyOnMismatch | controllers/user.controller.js:72-86 | with unique emails, login fails iff no record matches the credentials |
| UserController.LoginAfterRegister | controllers/user.controller.js:72-102 | logging in with the credentials just registered returns 200, the new record's public view and a token for its id |
| UserController.LogoutUser | controllers/user.controller.js:110-114 | logout always answers 200 and clears the token cookie |
| UserController.HasToken | controllers/user.controller.js:126-128 | `!token`: a missing cookie and an empty one count as no token; constrained through `GetUser` and `GetUserNoEdges` |
| UserController.GetUser | controllers/user.controller.js:116-152 | an unknown username throws; a cookie that fails verification leaves the request unanswered; otherwise 200 with the public view, followerCount = number of edges into the user, followingCount = number of edges out of the user, and isFollowing iff a verified viewer has an edge to the user (false without a token) |
| UserController.GetUserSignedViewer | controllers/user.controller.js:136-148 | a viewer with a token signed for their id sees isFollowing iff the edge (viewer, profile) is stored |
| UserController.GetUserNoEdges | controllers/user.controller.js:123-134 | a profile with no edges shows counts 0, 0 and isFollowing false to an anonymous viewer |
| UserController.Follow | controllers/user.controller.js:154-171 | an unknown username throws and leaves the edges alone; otherwise the answer is always 200 "Successful", and one (viewer, target) edge is removed if stored or added if not, with every other edge unchanged |
| UserController.FollowTwice | controllers/user.controller.js:159-168 | with at most one edge per pair, following twice restores the multiset of edges, and the exact sequence when the viewer was not following or the username is unknown |
| UserController.FollowKeepsAtMostOnce | controllers/user.controller.js:159-168 | following keeps at most one edge per ordered pair |
| UserController.FollowChangesFollowerCount | controllers/user.controller.js:159-168 | a follow raises the target's follower count by one and an unfollow lowers it by one; the target's following count changes only on a self-follow |
| UserController.FollowSelf | controllers/user.controller.js:157-168 | a user can follow themself: there is no guard |
| UserStore.Store.IndexOfUser | controllers/user.controller.js:17 | the loop finds the first record holding the value, or -1 exactly when findOne finds nothing |
| UserStore.Store.IndexOfEdge | controllers/user.controller.js:159-162 | the loop finds the first stored copy of the edge, or -1 exactly when the edge is not stored |
| UserStore.Store.ToggleEdge | controllers/user.controller.js:164-168 | the edge sequence becomes the toggle of the old one |
| UserStore.Store.RegisterUser | controllers/user.controller.js:7-61 | the store keeps its invariant (distinct ids, unique emails and usernames), returns the response of Register, appends the created record, if any, and advances the next id only then |
| UserStore.Store.FollowUser | controllers/user.controller.js:154-171 | the store keeps its invariant, and the outcome and the new edge sequence are those of Follow; users and next id are unchanged |

## Left out

- index.js (Express bootstrap, middleware, static files, CORS, environment, database connection) is I/O plumbing and is not part of this model.
- bcrypt's salt and cost factor, and JWT signing and verification, are foreign library calls. `Crypto` replaces them with concrete definitions. These satisfy the two laws `CompareHash` and `VerifySigned`, and more besides: the model's digest is deterministic and injective.
- Crypto.Hash: real bcrypt salts every call, so two digests of one password differ; the model's digest of a password is always the same.
- Crypto.CompareHash: bcryptjs compares only the first 72 bytes of a password, so real `compare(q, hash(p))` also holds for distinct `q` and `p` that share those bytes; the model denies that.
- A throw from `jwt.sign` (for example with `JWT_SECRET` unset) is not modelled. In `registerUser` it would give a 500 after `User.create` had already stored the record (controllers/user.controller.js:40, 56-59); in `loginUser` a 500 with nothing stored.
- Cookie attributes (`httpOnly`, `secure`, `maxAge`) are not modelled. An outcome records only "set token", "clear token" or "unchanged".
- Concurrent requests and the races in the check-then-act sequences of register and follow are not modelled. Requests run one at a time, atomically.
- Mongoose ObjectId generation is not modelled. Ids come from a counter in the store. `toObject()` extras such as `__v`, and `console.error` logging, are not modelled either.
- models/follow.model.js and the pin, board and comment routers are not part of this model. An edge is a plain pair of user ids.
- The `verifyToken` middleware that sets `req.userId` for `followUser` is not part of this model. The viewer id is a parameter of `Follow` and `FollowUser`.
- The clock behind `createdAt`/`updatedAt` is a parameter `now`.
- Request fields are strings or missing. Non-string JSON values (numbers, objects), which could make bcrypt or the queries throw, are not modelled.
- The store and hashing failures caught by the `catch` blocks of `registerUser` and `loginUser` are not modelled. The only 500 in the model is the validation failure inside `User.create`.
- What Express then does with the TypeError of `NullDereference`, or with a request left unanswered, is not modelled.
- UserController.FollowTwice: promises restoration of the multiset of edges, not of their order, because an unfollow followed by a follow moves the edge to the end of the collection.
