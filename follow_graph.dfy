/** The follow graph: `User.follow`, `User.unfollow` and `User.is_following`
    over the `followers` junction table (app/models.py:62-64, 111-123). The
    table carries no uniqueness constraint, so it is a sequence of rows that
    may repeat; `follow` keeps it duplicate-free by asking `is_following` first.
    The functions here state what the `Users.Database` methods do to the table. */
module FollowGraph {
  import opened Records
  import opened Sequences

  /** The number of rows of `edges` saying that `follower` follows `followed`:
      `self.followed.filter(followers.c.followed_id == user.id).count()`. */
  function CountEdges(edges: seq<Edge>, follower: int, followed: int): nat {
    if edges == [] then 0
    else
      CountEdges(edges[..|edges| - 1], follower, followed)
      + (if edges[|edges| - 1] == Edge(follower, followed) then 1 else 0)
  }

  /** `is_following`: the count is positive. */
  predicate IsFollowing(edges: seq<Edge>, follower: int, followed: int) {
    CountEdges(edges, follower, followed) > 0
  }

  /** The SQL count is the multiplicity of the pair in the table. */
  lemma {:induction false} CountIsMultiplicity(edges: seq<Edge>, follower: int, followed: int)
    ensures CountEdges(edges, follower, followed) == multiset(edges)[Edge(follower, followed)]
  {
    if edges != [] {
      var init := edges[..|edges| - 1];
      assert edges == init + [edges[|edges| - 1]];
      CountIsMultiplicity(init, follower, followed);
    }
  }

  lemma IsFollowingIffEdge(edges: seq<Edge>, follower: int, followed: int)
    ensures IsFollowing(edges, follower, followed) <==> Edge(follower, followed) in edges
  {
    CountIsMultiplicity(edges, follower, followed);
  }

  /** The rows left by a `DELETE FROM followers` matching both columns of `x`: every
      copy of the row goes. */
  function RemoveAll(s: seq<Edge>, x: Edge): (r: seq<Edge>)
    ensures forall e :: e in r <==> e in s && e != x
    ensures multiset(r)[x] == 0
    ensures forall e | e != x :: multiset(r)[e] == multiset(s)[e]
  {
    if s == [] then []
    else
      var init, e := s[..|s| - 1], s[|s| - 1];
      assert s == init + [e];
      RemoveAll(init, x) + (if e == x then [] else [e])
  }

  /** The table after `follower.follow(followed)` (app/models.py:111-114). */
  function WithFollow(edges: seq<Edge>, follower: int, followed: int): (r: seq<Edge>)
    ensures Edge(follower, followed) in r
    ensures forall e :: e in r <==> e in edges || e == Edge(follower, followed)
  {
    IsFollowingIffEdge(edges, follower, followed);
    if IsFollowing(edges, follower, followed) then edges else edges + [Edge(follower, followed)]
  }

  /** The table after `follower.unfollow(followed)` (app/models.py:116-119). */
  function WithoutFollow(edges: seq<Edge>, follower: int, followed: int): (r: seq<Edge>)
    ensures Edge(follower, followed) !in r
    ensures forall e :: e in r <==> e in edges && e != Edge(follower, followed)
  {
    IsFollowingIffEdge(edges, follower, followed);
    if IsFollowing(edges, follower, followed) then RemoveAll(edges, Edge(follower, followed))
    else edges
  }

  /** After `follow`, the user is following; the pair's count is what it was, or one
      if it was zero; every other pair's count is unchanged. */
  lemma FollowEffect(edges: seq<Edge>, follower: int, followed: int, x: int, y: int)
    ensures IsFollowing(WithFollow(edges, follower, followed), follower, followed)
    ensures CountEdges(WithFollow(edges, follower, followed), x, y)
         == if (x, y) == (follower, followed) && CountEdges(edges, x, y) == 0 then 1
            else CountEdges(edges, x, y)
  {
    var e' := WithFollow(edges, follower, followed);
    CountIsMultiplicity(edges, x, y);
    CountIsMultiplicity(e', x, y);
    CountIsMultiplicity(edges, follower, followed);
    CountIsMultiplicity(e', follower, followed);
  }

  /** Following twice is following once. */
  lemma FollowIdempotent(edges: seq<Edge>, follower: int, followed: int)
    ensures WithFollow(WithFollow(edges, follower, followed), follower, followed)
         == WithFollow(edges, follower, followed)
  {
    FollowEffect(edges, follower, followed, follower, followed);
  }

  /** `follow` never creates a duplicate row. */
  lemma FollowKeepsDistinct(edges: seq<Edge>, follower: int, followed: int)
    requires NoDuplicates(edges)
    ensures NoDuplicates(WithFollow(edges, follower, followed))
  {
    IsFollowingIffEdge(edges, follower, followed);
  }

  /** `unfollow` when not following changes nothing; otherwise it deletes every row of
      the pair, and every other pair's count is unchanged. */
  lemma UnfollowEffect(edges: seq<Edge>, follower: int, followed: int, x: int, y: int)
    ensures !IsFollowing(edges, follower, followed) ==> WithoutFollow(edges, follower, followed) == edges
    ensures CountEdges(WithoutFollow(edges, follower, followed), x, y)
         == if (x, y) == (follower, followed) then 0 else CountEdges(edges, x, y)
  {
    var e' := WithoutFollow(edges, follower, followed);
    CountIsMultiplicity(edges, x, y);
    CountIsMultiplicity(e', x, y);
  }

  /** After `unfollow` the user no longer follows, whatever copies of the row the table held. */
  lemma UnfollowEnds(edges: seq<Edge>, follower: int, followed: int)
    ensures !IsFollowing(WithoutFollow(edges, follower, followed), follower, followed)
  {
    UnfollowEffect(edges, follower, followed, follower, followed);
  }

  /** `unfollow` never creates a duplicate row. */
  lemma {:induction false} RemoveAllKeepsDistinct(s: seq<Edge>, x: Edge)
    requires NoDuplicates(s)
    ensures NoDuplicates(RemoveAll(s, x))
  {
    if s != [] {
      var init := s[..|s| - 1];
      assert forall i, j | 0 <= i < j < |init| :: init[i] == s[i] && init[j] == s[j];
      RemoveAllKeepsDistinct(init, x);
      assert s[|s| - 1] !in init;
    }
  }

  lemma UnfollowKeepsDistinct(edges: seq<Edge>, follower: int, followed: int)
    requires NoDuplicates(edges)
    ensures NoDuplicates(WithoutFollow(edges, follower, followed))
  {
    RemoveAllKeepsDistinct(edges, Edge(follower, followed));
  }

  /** `unfollow` undoes a `follow` that added a row. */
  lemma FollowUnfollowRoundTrip(edges: seq<Edge>, follower: int, followed: int)
    requires !IsFollowing(edges, follower, followed)
    ensures WithoutFollow(WithFollow(edges, follower, followed), follower, followed) == edges
  {
    var x := Edge(follower, followed);
    IsFollowingIffEdge(edges, follower, followed);
    FollowEffect(edges, follower, followed, follower, followed);
    RemoveAllAbsent(edges, x);
    assert (edges + [x])[..|edges|] == edges;
  }

  /** Deleting a row the table does not hold changes nothing. */
  lemma {:induction false} RemoveAllAbsent(s: seq<Edge>, x: Edge)
    requires x !in s
    ensures RemoveAll(s, x) == s
  {
    if s != [] {
      var init := s[..|s| - 1];
      assert s == init + [s[|s| - 1]];
      RemoveAllAbsent(init, x);
    }
  }
}
