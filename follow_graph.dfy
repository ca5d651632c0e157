/** The follow store: a sequence of directed edges, the count and existence
    queries the controller runs on it, and the toggle it performs. A sequence
    (not a set) keeps `deleteOne` and `create` faithful even if the same pair
    were stored twice. */
module FollowGraph {
  import opened Crypto

  /** "`follower` follows `following`". */
  datatype Edge = Edge(follower: UserId, following: UserId)

  /** The field a count query filters on: `{ follower: u }` or `{ following: u }`. */
  datatype End = Follower | Following

  function EndOf(e: Edge, end: End): UserId {
    match end
    case Follower => e.follower
    case Following => e.following
  }

  /** `Follow.countDocuments({ end: u })`. */
  function CountBy(edges: seq<Edge>, end: End, u: UserId): (n: nat)
    ensures n <= |edges|
  {
    if edges == [] then 0
    else (if EndOf(edges[0], end) == u then 1 else 0) + CountBy(edges[1..], end, u)
  }

  /** The positions of the stored edges a count query matches. */
  ghost function Matches(edges: seq<Edge>, end: End, u: UserId): set<nat> {
    set i: nat | i < |edges| && EndOf(edges[i], end) == u
  }

  lemma {:induction false} CountByAppend(edges: seq<Edge>, x: Edge, end: End, u: UserId)
    ensures CountBy(edges + [x], end, u) == CountBy(edges, end, u) + (if EndOf(x, end) == u then 1 else 0)
  {
    if edges == [] {
      assert [] + [x] == [x];
    } else {
      assert (edges + [x])[1..] == edges[1..] + [x];
      CountByAppend(edges[1..], x, end, u);
    }
  }

  /** A count query returns the number of stored edges it matches. */
  lemma {:induction false} CountByIsCardinality(edges: seq<Edge>, end: End, u: UserId)
    ensures CountBy(edges, end, u) == |Matches(edges, end, u)|
  {
    if edges == [] {
      assert Matches(edges, end, u) == {};
    } else {
      var n := |edges| - 1;
      var init := edges[..n];
      assert edges == init + [edges[n]];
      CountByAppend(init, edges[n], end, u);
      CountByIsCardinality(init, end, u);
      if EndOf(edges[n], end) == u {
        assert Matches(edges, end, u) == Matches(init, end, u) + {n};
      } else {
        assert Matches(edges, end, u) == Matches(init, end, u);
      }
    }
  }

  /** `Follow.deleteOne(e)`: removes the first stored edge equal to `e`. */
  function RemoveFirst(edges: seq<Edge>, e: Edge): (r: seq<Edge>)
    ensures e in edges ==> multiset(r) == multiset(edges) - multiset{e}
    ensures e !in edges ==> r == edges
  {
    if edges == [] then []
    else if edges[0] == e then
      assert edges == [e] + edges[1..];
      edges[1..]
    else
      assert edges == [edges[0]] + edges[1..];
      [edges[0]] + RemoveFirst(edges[1..], e)
  }

  /** Deleting `e` from a sequence in which `before` holds no `e` removes the
      copy right after `before`. */
  lemma {:induction false} RemoveFirstSplit(before: seq<Edge>, e: Edge, after: seq<Edge>)
    requires e !in before
    ensures RemoveFirst(before + [e] + after, e) == before + after
  {
    var all := before + [e] + after;
    if before == [] {
      assert all == [e] + after;
    } else {
      var tail := before[1..] + [e] + after;
      calc {
        RemoveFirst(all, e);
        == { assert all[0] == before[0] && before[0] in before && all[1..] == tail; }
        [before[0]] + RemoveFirst(tail, e);
        == { RemoveFirstSplit(before[1..], e, after); }
        [before[0]] + (before[1..] + after);
        == { assert before == [before[0]] + before[1..]; }
        before + after;
      }
    }
  }

  /** The edge `deleteOne` removes is the first match; the others keep their order. */
  lemma RemoveFirstAt(edges: seq<Edge>, e: Edge, k: nat)
    requires k < |edges| && edges[k] == e
    requires forall j :: 0 <= j < k ==> edges[j] != e
    ensures RemoveFirst(edges, e) == edges[..k] + edges[k + 1..]
  {
    assert edges == edges[..k] + [e] + edges[k + 1..];
    RemoveFirstSplit(edges[..k], e, edges[k + 1..]);
  }

  /** The follow store's effect of `followUser`: delete one `e` if present, else append one. */
  function Toggle(edges: seq<Edge>, e: Edge): (r: seq<Edge>)
    ensures multiset(r) == if e in edges then multiset(edges) - multiset{e} else multiset(edges) + multiset{e}
  {
    if e in edges then RemoveFirst(edges, e) else edges + [e]
  }

  /** At most one stored edge per ordered pair. */
  ghost predicate AtMostOnce(edges: seq<Edge>) {
    forall x :: multiset(edges)[x] <= 1
  }

  /** Toggling never creates a second edge for any pair. */
  lemma ToggleKeepsAtMostOnce(edges: seq<Edge>, e: Edge)
    requires AtMostOnce(edges)
    ensures AtMostOnce(Toggle(edges, e))
  {
    forall x ensures multiset(Toggle(edges, e))[x] <= 1 {
      if x == e && e !in edges {
        assert multiset(edges)[e] == 0;
      }
    }
  }

  lemma {:induction false} RemoveFirstAppendAbsent(edges: seq<Edge>, e: Edge)
    requires e !in edges
    ensures RemoveFirst(edges + [e], e) == edges
  {
    if edges != [] {
      assert (edges + [e])[0] == edges[0];
      assert (edges + [e])[1..] == edges[1..] + [e];
      RemoveFirstAppendAbsent(edges[1..], e);
      assert edges == [edges[0]] + edges[1..];
    }
  }

  /** Toggling a pair twice restores the store: exactly when the pair had no
      edge; up to order (the edge moves to the end) when it had one. */
  lemma ToggleTwice(edges: seq<Edge>, e: Edge)
    requires multiset(edges)[e] <= 1
    ensures multiset(Toggle(Toggle(edges, e), e)) == multiset(edges)
    ensures e !in edges ==> Toggle(Toggle(edges, e), e) == edges
  {
    if e !in edges {
      RemoveFirstAppendAbsent(edges, e);
    } else {
      var once := RemoveFirst(edges, e);
      assert multiset(once)[e] == 0;
      assert e !in once;
    }
  }

  /** The bound in ToggleTwice is needed: with a duplicated pair, two
      toggles delete both copies. */
  lemma ToggleTwiceDuplicated(e: Edge)
    ensures Toggle(Toggle([e, e], e), e) == []
  {
    assert RemoveFirst([e, e], e) == [e];
    assert RemoveFirst([e], e) == [];
  }

  lemma {:induction false} CountByRemoveFirst(edges: seq<Edge>, e: Edge, end: End, u: UserId)
    requires e in edges
    ensures CountBy(RemoveFirst(edges, e), end, u) + (if EndOf(e, end) == u then 1 else 0) == CountBy(edges, end, u)
  {
    if edges[0] != e {
      assert e in edges[1..];
      var rest := RemoveFirst(edges[1..], e);
      assert RemoveFirst(edges, e) == [edges[0]] + rest;
      assert ([edges[0]] + rest)[1..] == rest;
      CountByRemoveFirst(edges[1..], e, end, u);
    }
  }

  /** A toggle moves the count of every query the toggled edge matches by one
      (down when it removed the edge, up when it added it) and no other count. */
  lemma ToggleCountBy(edges: seq<Edge>, e: Edge, end: End, u: UserId)
    ensures CountBy(Toggle(edges, e), end, u) ==
      if EndOf(e, end) != u then CountBy(edges, end, u)
      else if e in edges then CountBy(edges, end, u) - 1
      else CountBy(edges, end, u) + 1
  {
    if e in edges {
      CountByRemoveFirst(edges, e, end, u);
    } else {
      CountByAppend(edges, e, end, u);
    }
  }
}
