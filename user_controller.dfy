/** The five request handlers of the user controller, each as a function of
    the store contents and the request, with the properties they promise.
    `registerUser` and `followUser` also change the store; the class in
    module UserStore performs those changes and is proved to match
    `Register` and `Follow` below. */
module UserController {
  import opened Values
  import opened Crypto
  import opened UserModel
  import opened Http
  import opened FollowGraph
  import opened UserQueries

  const AllFieldsRequired: string := "All fields are required!"
  const EmailInUse: string := "Email is already in use."
  const UsernameTaken: string := "Username is already taken."
  const ServerError: string := "Server error. Please try again later."
  const InvalidCredentials: string := "Invalid email or password"
  const LogoutSuccessful: string := "Logout successful"
  const FollowSuccessful: string := "Successful"

  /* ---------------------------------------------------------------- register */

  /** The fields `registerUser` reads from the request body. */
  datatype RegisterRequest = RegisterRequest(
    username: Option<string>,
    displayName: Option<string>,
    email: Option<string>,
    password: Option<string>)

  /** The response of `registerUser`, and the record it created, if any. */
  datatype Registration = Registration(response: Response, created: Option<User>)

  /** The three fields the handler itself insists on. */
  predicate HasRequiredFields(req: RegisterRequest) {
    Truthy(req.username) && Truthy(req.email) && Truthy(req.password)
  }

  /** `registerUser`, given the stored users, the id the store will assign
      next, and the clock. */
  function Register(users: seq<User>, nextId: UserId, req: RegisterRequest, now: nat): (r: Registration)
    ensures r.created.Some? <==>
      HasRequiredFields(req) && Truthy(req.displayName) &&
      !InUse(users, ByEmail, req.email.value) && !InUse(users, ByUsername, req.username.value)
    ensures r.created.Some? ==>
      var u := r.created.value;
      u.id == nextId && u.createdAt == now && u.updatedAt == now &&
      ToDocument(u) == Document(req.displayName, req.username, req.email, None, Some(Hash(req.password.value)), []) &&
      r.response == Response(201, UserBody(ToPublic(u)), SetToken(Sign(nextId)))
    ensures r.created.None? ==>
      r.response.cookie == Unchanged && r.response.body.Message? &&
      (r.response.status == 400 || r.response.status == 500)
  {
    if !HasRequiredFields(req) then
      Registration(Response(400, Message(AllFieldsRequired), Unchanged), None)
    else if FindOne(users, ByEmail, req.email.value).Some? then
      Registration(Response(400, Message(EmailInUse), Unchanged), None)
    else if FindOne(users, ByUsername, req.username.value).Some? then
      Registration(Response(400, Message(UsernameTaken), Unchanged), None)
    else
      var doc := Document(req.displayName, req.username, req.email, None, Some(Hash(req.password.value)), []);
      match Create(doc, nextId, now)
      case None => Registration(Response(500, Message(ServerError), Unchanged), None)
      case Some(u) => Registration(Response(201, UserBody(ToPublic(u)), SetToken(Sign(u.id))), Some(u))
  }

  /** A missing `username`, `email` or `password` is a 400 and stores nothing. */
  lemma RegisterMissingField(users: seq<User>, nextId: UserId, req: RegisterRequest, now: nat)
    requires !HasRequiredFields(req)
    ensures Register(users, nextId, req, now) == Registration(Response(400, Message(AllFieldsRequired), Unchanged), None)
  {
  }

  /** A taken email is a 400 that names the email, even when the username is
      taken too, and stores nothing. */
  lemma RegisterEmailFirst(users: seq<User>, nextId: UserId, req: RegisterRequest, now: nat)
    requires HasRequiredFields(req) && InUse(users, ByEmail, req.email.value)
    ensures Register(users, nextId, req, now) == Registration(Response(400, Message(EmailInUse), Unchanged), None)
  {
  }

  /** A free email with a taken username is a 400 that names the username. */
  lemma RegisterUsernameTaken(users: seq<User>, nextId: UserId, req: RegisterRequest, now: nat)
    requires HasRequiredFields(req) && !InUse(users, ByEmail, req.email.value)
    requires InUse(users, ByUsername, req.username.value)
    ensures Register(users, nextId, req, now) == Registration(Response(400, Message(UsernameTaken), Unchanged), None)
  {
  }

  /** Without a `displayName` the handler's own check passes, but schema
      validation in `User.create` fails: a 500, and nothing is stored. */
  lemma RegisterMissingDisplayName(users: seq<User>, nextId: UserId, req: RegisterRequest, now: nat)
    requires HasRequiredFields(req) && !Truthy(req.displayName)
    requires !InUse(users, ByEmail, req.email.value) && !InUse(users, ByUsername, req.username.value)
    ensures Register(users, nextId, req, now) == Registration(Response(500, Message(ServerError), Unchanged), None)
  {
  }

  /** The records after a registration. */
  function Stored(users: seq<User>, r: Registration): (s: seq<User>)
    ensures |s| == |users| + (if r.created.Some? then 1 else 0)
    ensures s[..|users|] == users
    ensures r.created.Some? ==> s[|users|] == r.created.value
  {
    if r.created.Some? then users + [r.created.value] else users
  }

  /** The lookups before `User.create` are the only thing keeping email and
      username unique: a registration preserves both. */
  lemma RegisterKeepsUnique(users: seq<User>, nextId: UserId, req: RegisterRequest, now: nat)
    requires Unique(users, ByEmail) && Unique(users, ByUsername)
    ensures var after := Stored(users, Register(users, nextId, req, now));
      Unique(after, ByEmail) && Unique(after, ByUsername)
  {
    var r := Register(users, nextId, req, now);
    if r.created.Some? {
      var u := r.created.value;
      var after := users + [u];
      forall key: Key, i, j | 0 <= i < j < |after|
        ensures FieldOf(after[i], key) != FieldOf(after[j], key)
      {
        assert after[i] == users[i];
        if j == |users| {
          assert FieldOf(u, ByEmail) == req.email.value && FieldOf(u, ByUsername) == req.username.value;
        } else {
          assert after[j] == users[j];
        }
      }
    }
  }

  /** Without the lookups, the schema alone lets a second record with the
      same email and username in. */
  lemma CreateAloneAdmitsDuplicates(u: User, now: nat)
    requires IsValid(ToDocument(u))
    ensures var v := Create(ToDocument(u), u.id + 1, now);
      v.Some? && !Unique([u, v.value], ByEmail) && !Unique([u, v.value], ByUsername)
  {
    var v := Create(ToDocument(u), u.id + 1, now).value;
    assert [u, v][0] == u && [u, v][1] == v;
  }

  /* ------------------------------------------------------------------- login */

  /** The fields `loginUser` reads from the request body. */
  datatype LoginRequest = LoginRequest(email: Option<string>, password: Option<string>)

  /** `loginUser`. It reads the store and changes nothing in it. */
  function LoginUser(users: seq<User>, req: LoginRequest): (r: Response)
    ensures r.status == 200 ==>
      exists i :: 0 <= i < |users| && Some(users[i].email) == req.email &&
        req.password.Some? && Compare(req.password.value, users[i].hashedPassword) &&
        r == Response(200, UserBody(ToPublic(users[i])), SetToken(Sign(users[i].id)))
    ensures r.status != 200 ==> r.cookie == Unchanged && r.body.Message?
    ensures r.status == 200 || r.status == 400 || r.status == 401
    ensures r.status == 400 <==> !Truthy(req.email) || !Truthy(req.password)
  {
    if !Truthy(req.email) || !Truthy(req.password) then
      Response(400, Message(AllFieldsRequired), Unchanged)
    else
      match FindOne(users, ByEmail, req.email.value)
      case None => Response(401, Message(InvalidCredentials), Unchanged)
      case Some(u) =>
        if !Compare(req.password.value, u.hashedPassword) then
          Response(401, Message(InvalidCredentials), Unchanged)
        else
          Response(200, UserBody(ToPublic(u)), SetToken(Sign(u.id)))
  }

  /** A missing or empty email or password is a 400 "All fields are required!". */
  lemma LoginMissingField(users: seq<User>, req: LoginRequest)
    requires !Truthy(req.email) || !Truthy(req.password)
    ensures LoginUser(users, req) == Response(400, Message(AllFieldsRequired), Unchanged)
  {
  }

  /** An unknown email and a wrong password give one and the same 401: a
      failed login never tells which of the two was wrong. */
  lemma LoginFailsUniformly(users: seq<User>, req: LoginRequest)
    requires Truthy(req.email) && Truthy(req.password)
    ensures var r := LoginUser(users, req);
      r.status != 200 ==> r == Response(401, Message(InvalidCredentials), Unchanged)
  {
  }

  /** The credentials match a stored record. */
  ghost predicate CredentialsMatch(users: seq<User>, email: string, password: string) {
    exists i :: 0 <= i < |users| && users[i].email == email && Compare(password, users[i].hashedPassword)
  }

  /** With unique emails, login fails exactly when no record matches the credentials. */
  lemma LoginFailsOnlyOnMismatch(users: seq<User>, email: string, password: string)
    requires Unique(users, ByEmail) && email != "" && password != ""
    ensures LoginUser(users, LoginRequest(Some(email), Some(password))).status != 200 <==>
      !CredentialsMatch(users, email, password)
  {
    if CredentialsMatch(users, email, password) {
      var i :| 0 <= i < |users| && users[i].email == email && Compare(password, users[i].hashedPassword);
      FindOneUnique(users, ByEmail, i);
    }
  }

  /** Logging in with the credentials just registered succeeds for the new record. */
  lemma LoginAfterRegister(users: seq<User>, nextId: UserId, req: RegisterRequest, now: nat)
    requires Register(users, nextId, req, now).created.Some?
    ensures var u := Register(users, nextId, req, now).created.value;
      LoginUser(users + [u], LoginRequest(req.email, req.password)) ==
        Response(200, UserBody(ToPublic(u)), SetToken(Sign(nextId)))
  {
    var u := Register(users, nextId, req, now).created.value;
    assert ToDocument(u).email == req.email && ToDocument(u).hashedPassword == Some(Hash(req.password.value));
    FindOneAppended(users, u, ByEmail);
  }

  /* ------------------------------------------------------------------ logout */

  /** `logoutUser`: whatever the request, 200 and the cookie cleared. */
  function LogoutUser(): (r: Response)
    ensures r.status == 200 && r.cookie == ClearToken
  {
    Response(200, Message(LogoutSuccessful), ClearToken)
  }

  /* ----------------------------------------------------------------- getUser */

  /** `if (!token)`: a missing cookie and an empty one count as no token. */
  predicate HasToken(cookie: Option<Token>) {
    cookie.Some? && cookie.value != Unsigned("")
  }

  /** `getUser` for the profile `username`, with the request's `token` cookie. */
  function GetUser(users: seq<User>, edges: seq<Edge>, username: string, cookie: Option<Token>): (o: Outcome)
    ensures o.NullDereference? <==> !InUse(users, ByUsername, username)
    ensures o.NoReply? <==> InUse(users, ByUsername, username) && HasToken(cookie) && Verify(cookie.value).None?
    ensures o.Reply? ==>
      var u := FindOne(users, ByUsername, username).value;
      o.response.status == 200 && o.response.cookie == Unchanged &&
      o.response.body == ProfileBody(ToPublic(u),
        |FollowGraph.Matches(edges, Following, u.id)|,
        |FollowGraph.Matches(edges, Follower, u.id)|,
        HasToken(cookie) && Edge(Verify(cookie.value).value, u.id) in edges)
  {
    match FindOne(users, ByUsername, username)
    case None => NullDereference
    case Some(u) =>
      CountByIsCardinality(edges, Following, u.id);
      CountByIsCardinality(edges, Follower, u.id);
      var followerCount := CountBy(edges, Following, u.id);
      var followingCount := CountBy(edges, Follower, u.id);
      if !HasToken(cookie) then
        Reply(Response(200, ProfileBody(ToPublic(u), followerCount, followingCount, false), Unchanged))
      else
        match Verify(cookie.value)
        case None => NoReply
        case Some(viewer) =>
          Reply(Response(200, ProfileBody(ToPublic(u), followerCount, followingCount, Edge(viewer, u.id) in edges), Unchanged))
  }

  /** A viewer holding a token signed for `viewer` sees `isFollowing` exactly
      when the edge (viewer, profile) is stored. */
  lemma GetUserSignedViewer(users: seq<User>, edges: seq<Edge>, u: User, viewer: UserId)
    requires Unique(users, ByUsername) && u in users
    ensures var o := GetUser(users, edges, u.username, Some(Sign(viewer)));
      o.Reply? && o.response.body.isFollowing == (Edge(viewer, u.id) in edges)
  {
    var i :| 0 <= i < |users| && users[i] == u;
    FindOneUnique(users, ByUsername, i);
  }

  /** A profile nobody follows and who follows nobody shows zero, zero and
      false to an anonymous viewer. */
  lemma GetUserNoEdges(users: seq<User>, edges: seq<Edge>, u: User)
    requires Unique(users, ByUsername) && u in users
    requires forall k :: 0 <= k < |edges| ==> edges[k].follower != u.id && edges[k].following != u.id
    ensures GetUser(users, edges, u.username, None) ==
      Reply(Response(200, ProfileBody(ToPublic(u), 0, 0, false), Unchanged))
  {
    var i :| 0 <= i < |users| && users[i] == u;
    FindOneUnique(users, ByUsername, i);
    assert FollowGraph.Matches(edges, Following, u.id) == {};
    assert FollowGraph.Matches(edges, Follower, u.id) == {};
  }

  /* -------------------------------------------------------------- followUser */

  /** The outcome of `followUser` and the edges it leaves. */
  datatype Toggled = Toggled(outcome: Outcome, edges: seq<Edge>)

  /** `followUser` by the authenticated `viewer` on the profile `username`.
      There is no self-follow guard. */
  function Follow(users: seq<User>, edges: seq<Edge>, viewer: UserId, username: string): (r: Toggled)
    ensures !InUse(users, ByUsername, username) ==> r == Toggled(NullDereference, edges)
    ensures InUse(users, ByUsername, username) ==>
      var e := Edge(viewer, FindOne(users, ByUsername, username).value.id);
      r.outcome == Reply(Response(200, Message(FollowSuccessful), Unchanged)) &&
      multiset(r.edges) == (if e in edges then multiset(edges) - multiset{e} else multiset(edges) + multiset{e})
  {
    match FindOne(users, ByUsername, username)
    case None => Toggled(NullDereference, edges)
    case Some(u) => Toggled(Reply(Response(200, Message(FollowSuccessful), Unchanged)), Toggle(edges, Edge(viewer, u.id)))
  }

  /** Following twice in a row restores the follow store (exactly when the
      viewer was not following; up to the order of edges when they were). */
  lemma FollowTwice(users: seq<User>, edges: seq<Edge>, viewer: UserId, username: string)
    requires AtMostOnce(edges)
    ensures var twice := Follow(users, Follow(users, edges, viewer, username).edges, viewer, username).edges;
      multiset(twice) == multiset(edges)
    ensures var target := FindOne(users, ByUsername, username);
      (target.None? || Edge(viewer, target.value.id) !in edges) ==>
        Follow(users, Follow(users, edges, viewer, username).edges, viewer, username).edges == edges
  {
    match FindOne(users, ByUsername, username)
    case None =>
    case Some(u) => ToggleTwice(edges, Edge(viewer, u.id));
  }

  /** `followUser` keeps at most one edge per ordered pair. */
  lemma FollowKeepsAtMostOnce(users: seq<User>, edges: seq<Edge>, viewer: UserId, username: string)
    requires AtMostOnce(edges)
    ensures AtMostOnce(Follow(users, edges, viewer, username).edges)
  {
    match FindOne(users, ByUsername, username)
    case None =>
    case Some(u) => ToggleKeepsAtMostOnce(edges, Edge(viewer, u.id));
  }

  /** Following raises the profile's follower count by one, unfollowing lowers
      it by one; the profile's own following count moves only on a self-follow. */
  lemma FollowChangesFollowerCount(users: seq<User>, edges: seq<Edge>, viewer: UserId, u: User)
    requires Unique(users, ByUsername) && u in users
    ensures var after := Follow(users, edges, viewer, u.username).edges;
      CountBy(after, Following, u.id) ==
        (if Edge(viewer, u.id) in edges then CountBy(edges, Following, u.id) - 1 else CountBy(edges, Following, u.id) + 1) &&
      (viewer != u.id ==> CountBy(after, Follower, u.id) == CountBy(edges, Follower, u.id))
  {
    var i :| 0 <= i < |users| && users[i] == u;
    FindOneUnique(users, ByUsername, i);
    ToggleCountBy(edges, Edge(viewer, u.id), Following, u.id);
    ToggleCountBy(edges, Edge(viewer, u.id), Follower, u.id);
  }

  /** Nothing stops a user from following themself. */
  lemma FollowSelf(users: seq<User>, edges: seq<Edge>, u: User)
    requires Unique(users, ByUsername) && u in users && Edge(u.id, u.id) !in edges
    ensures Edge(u.id, u.id) in Follow(users, edges, u.id, u.username).edges
  {
    var i :| 0 <= i < |users| && users[i] == u;
    FindOneUnique(users, ByUsername, i);
  }
}
