/** The two collections the handlers work on, updated in place one request
    at a time: the user store and the follow store. */
module UserStore {
  import opened Values
  import opened Crypto
  import opened UserModel
  import opened Http
  import opened FollowGraph
  import opened UserQueries
  import opened UserController

  class Store {
    /** The user collection, in insertion order. */
    var users: seq<User>
    /** The follow collection, in insertion order. */
    var edges: seq<Edge>
    /** The id the store gives the next record it creates. */
    var nextId: UserId

    /** Ids are distinct and below `nextId`; emails and usernames are unique;
        no ordered pair has two edges. */
    ghost predicate Valid()
      reads this
    {
      (forall i :: 0 <= i < |users| ==> users[i].id < nextId) &&
      (forall i, j :: 0 <= i < j < |users| ==> users[i].id != users[j].id) &&
      Unique(users, ByEmail) && Unique(users, ByUsername) &&
      AtMostOnce(edges)
    }

    constructor ()
      ensures Valid() && users == [] && edges == [] && nextId == 0
    {
      users, edges, nextId := [], [], 0;
    }

    /** `User.findOne({ key: value })`: the position of the first match, or -1. */
    method IndexOfUser(key: Key, value: string) returns (i: int)
      ensures -1 <= i < |users|
      ensures i == -1 <==> FindOne(users, key, value).None?
      ensures 0 <= i ==> FindOne(users, key, value) == Some(users[i])
    {
      var n := 0;
      while n < |users|
        invariant 0 <= n <= |users|
        invariant forall j :: 0 <= j < n ==> FieldOf(users[j], key) != value
      {
        if FieldOf(users[n], key) == value {
          FindOneFirst(users, key, value, n);
          return n;
        }
        n := n + 1;
      }
      return -1;
    }

    /** `Follow.exists(e)` and where `Follow.deleteOne(e)` would delete:
        the position of the first stored copy of `e`, or -1. */
    method IndexOfEdge(e: Edge) returns (i: int)
      ensures -1 <= i < |edges|
      ensures i == -1 <==> e !in edges
      ensures 0 <= i ==> edges[i] == e && forall j :: 0 <= j < i ==> edges[j] != e
    {
      var n := 0;
      while n < |edges|
        invariant 0 <= n <= |edges|
        invariant forall j :: 0 <= j < n ==> edges[j] != e
      {
        if edges[n] == e {
          return n;
        }
        n := n + 1;
      }
      return -1;
    }

    /** The follow store's side of `followUser`: `Follow.deleteOne(e)` when
        `e` is stored, `Follow.create(e)` otherwise. */
    method ToggleEdge(e: Edge)
      modifies this`edges
      ensures edges == Toggle(old(edges), e)
    {
      var k := IndexOfEdge(e);
      if k >= 0 {
        RemoveFirstAt(edges, e, k);
        edges := edges[..k] + edges[k + 1..];
      } else {
        edges := edges + [e];
      }
    }

    /** `registerUser`: checks, then at most one `User.create`. */
    method RegisterUser(req: RegisterRequest, now: nat) returns (response: Response)
      requires Valid()
      modifies this`users, this`nextId
      ensures Valid()
      ensures var r := Register(old(users), old(nextId), req, now);
        response == r.response && users == Stored(old(users), r) &&
        nextId == (if r.created.Some? then old(nextId) + 1 else old(nextId))
    {
      if !HasRequiredFields(req) {
        return Response(400, Message(AllFieldsRequired), Unchanged);
      }
      var existingEmail := IndexOfUser(ByEmail, req.email.value);
      if existingEmail >= 0 {
        return Response(400, Message(EmailInUse), Unchanged);
      }
      var existingUsername := IndexOfUser(ByUsername, req.username.value);
      if existingUsername >= 0 {
        return Response(400, Message(UsernameTaken), Unchanged);
      }
      var hashed := Hash(req.password.value);
      var created := Create(Document(req.displayName, req.username, req.email, None, Some(hashed), []), nextId, now);
      if created.None? {
        return Response(500, Message(ServerError), Unchanged);
      }
      RegisterKeepsUnique(users, nextId, req, now);
      var u := created.value;
      users := users + [u];
      nextId := nextId + 1;
      response := Response(201, UserBody(ToPublic(u)), SetToken(Sign(u.id)));
    }

    /** `followUser` by the authenticated `viewer` on the profile `username`. */
    method FollowUser(viewer: UserId, username: string) returns (outcome: Outcome)
      requires Valid()
      modifies this`edges
      ensures Valid()
      ensures var f := Follow(old(users), old(edges), viewer, username);
        outcome == f.outcome && edges == f.edges
    {
      var target := IndexOfUser(ByUsername, username);
      if target < 0 {
        return NullDereference;
      }
      var e := Edge(viewer, users[target].id);
      ToggleKeepsAtMostOnce(edges, e);
      ToggleEdge(e);
      outcome := Reply(Response(200, Message(FollowSuccessful), Unchanged));
    }
  }

  /** A user signs up, logs in with the same credentials and views their
      own profile. */
  method SignUpAndLogIn()
  {
    var store := new Store();
    var ana := RegisterRequest(Some("ana"), Some("Ana"), Some("ana@x.com"), Some("secret1"));
    var registered := store.RegisterUser(ana, 1);
    assert registered.status == 201 && registered.cookie == SetToken(Sign(0));
    assert FieldOf(store.users[0], ByUsername) == "ana";
    FindOneUnique(store.users, ByUsername, 0);

    var login := LoginUser(store.users, LoginRequest(Some("ana@x.com"), Some("secret1")));
    LoginAfterRegister([], 0, ana, 1);
    assert login.status == 200 && login.cookie == SetToken(Sign(0));

    var profile := GetUser(store.users, store.edges, "ana", Some(Sign(0)));
    assert profile.Reply? && !profile.response.body.isFollowing;
  }

  /** Two users with different emails and usernames both sign up. */
  method TwoSignUps()
  {
    var store := new Store();
    var ana := RegisterRequest(Some("ana"), Some("Ana"), Some("ana@x.com"), Some("secret1"));
    var bob := RegisterRequest(Some("bob"), Some("Bob"), Some("bob@x.com"), Some("secret2"));
    var first := store.RegisterUser(ana, 1);
    assert store.users[0].email == "ana@x.com" && store.users[0].username == "ana";
    var second := store.RegisterUser(bob, 2);
    assert second.status == 201 && second.cookie == SetToken(Sign(1));
  }

  /** On a store whose first user is "ana" and which has no edges yet, a
      second user follows "ana", which shows one follower, and then follows
      again, which shows none. */
  method FollowThenUnfollow(store: Store, viewer: UserId)
    requires store.Valid() && store.edges == []
    requires |store.users| > 0 && store.users[0].username == "ana"
    modifies store
  {
    var ana := store.users[0].id;
    assert FieldOf(store.users[0], ByUsername) == "ana";
    FindOneUnique(store.users, ByUsername, 0);

    var followed := store.FollowUser(viewer, "ana");
    assert store.edges == [Edge(viewer, ana)];
    var profile := GetUser(store.users, store.edges, "ana", None);
    assert profile.response.body.followerCount == 1 by {
      CountByIsCardinality(store.edges, Following, ana);
    }

    followed := store.FollowUser(viewer, "ana");
    assert store.edges == [];
    profile := GetUser(store.users, store.edges, "ana", None);
    assert profile.response.body.followerCount == 0;
  }
}
