/** Timeline assembly: `User.followed_posts` (app/models.py:125-136), one query
    that joins `post` with `followers`, takes the `UNION` with the user's own
    posts and orders the rows by `timestamp` descending. */
module Timeline {
  import opened Records
  import opened Sequences
  import opened FollowGraph

  /** `n` copies of `p`. */
  function Repeat(p: Post, n: nat): (r: seq<Post>)
    ensures |r| == n && forall k | 0 <= k < n :: r[k] == p
  {
    if n == 0 then [] else [p] + Repeat(p, n - 1)
  }

  /** `Post.query.join(followers, followers.c.followed_id == Post.user_id)
      .filter(followers.c.follower_id == self.id)`: every post of the table once for
      each row saying that `viewer` follows its author. */
  function JoinFollowed(edges: seq<Edge>, posts: seq<Post>, viewer: int): seq<Post> {
    if posts == [] then []
    else
      var p := posts[|posts| - 1];
      JoinFollowed(edges, posts[..|posts| - 1], viewer) + Repeat(p, CountEdges(edges, viewer, p.userId))
  }

  /** `Post.query.filter_by(user_id=self.id)`. */
  function OwnPosts(posts: seq<Post>, viewer: int): seq<Post> {
    if posts == [] then []
    else
      var p := posts[|posts| - 1];
      OwnPosts(posts[..|posts| - 1], viewer) + (if p.userId == viewer then [p] else [])
  }

  /** The sort key of `ORDER BY timestamp DESC`. */
  function NewestFirst(p: Post): int {
    -p.timestamp
  }

  /** `followed.union(own).order_by(Post.timestamp.desc())`. Rows with equal
      timestamps come out in an order SQL leaves unspecified; the model picks one. */
  function FollowedPosts(edges: seq<Edge>, posts: seq<Post>, viewer: int): seq<Post> {
    SortBy(Distinct(JoinFollowed(edges, posts, viewer) + OwnPosts(posts, viewer)), NewestFirst)
  }

  /** Whether `p` belongs on `viewer`'s timeline. */
  predicate OnTimeline(edges: seq<Edge>, viewer: int, p: Post) {
    p.userId == viewer || IsFollowing(edges, viewer, p.userId)
  }

  lemma {:induction false} JoinFollowedMembers(edges: seq<Edge>, posts: seq<Post>, viewer: int, p: Post)
    ensures p in JoinFollowed(edges, posts, viewer) <==> p in posts && IsFollowing(edges, viewer, p.userId)
  {
    if posts != [] {
      var init, last := posts[..|posts| - 1], posts[|posts| - 1];
      assert posts == init + [last];
      JoinFollowedMembers(edges, init, viewer, p);
      var copies := Repeat(last, CountEdges(edges, viewer, last.userId));
      assert p in copies <==> p == last && IsFollowing(edges, viewer, last.userId) by {
        if p in copies { assert copies[0] == last; }
        if p == last && IsFollowing(edges, viewer, last.userId) { assert copies[0] == last; }
      }
    }
  }

  lemma {:induction false} OwnPostsMembers(posts: seq<Post>, viewer: int, p: Post)
    ensures p in OwnPosts(posts, viewer) <==> p in posts && p.userId == viewer
  {
    if posts != [] {
      var init := posts[..|posts| - 1];
      assert posts == init + [posts[|posts| - 1]];
      OwnPostsMembers(init, viewer, p);
    }
  }

  /** A post is on the timeline exactly when it is in the table and its author is the
      viewer or someone the viewer follows. */
  lemma TimelineMembers(edges: seq<Edge>, posts: seq<Post>, viewer: int, p: Post)
    ensures p in FollowedPosts(edges, posts, viewer) <==> p in posts && OnTimeline(edges, viewer, p)
  {
    JoinFollowedMembers(edges, posts, viewer, p);
    OwnPostsMembers(posts, viewer, p);
    var both := JoinFollowed(edges, posts, viewer) + OwnPosts(posts, viewer);
    var u := Distinct(both);
    var r := SortBy(u, NewestFirst);
    assert p in r <==> p in multiset(r);
    assert p in u <==> p in multiset(u);
    assert p in u <==> p in both;
  }

  /** Every post appears at most once, even when the follow table repeats a row or the
      viewer follows themself. */
  lemma TimelineDistinct(edges: seq<Edge>, posts: seq<Post>, viewer: int)
    ensures NoDuplicates(FollowedPosts(edges, posts, viewer))
  {
    SortByKeepsDistinct(Distinct(JoinFollowed(edges, posts, viewer) + OwnPosts(posts, viewer)), NewestFirst);
  }

  /** The timeline is ordered by timestamp, newest first. */
  lemma TimelineNewestFirst(edges: seq<Edge>, posts: seq<Post>, viewer: int)
    ensures var r := FollowedPosts(edges, posts, viewer);
            forall i, j | 0 <= i < j < |r| :: r[i].timestamp >= r[j].timestamp
  {
    var r := FollowedPosts(edges, posts, viewer);
    forall i, j | 0 <= i < j < |r| ensures r[i].timestamp >= r[j].timestamp {
      assert NewestFirst(r[i]) <= NewestFirst(r[j]);
    }
  }

  /** A viewer who follows no author of the table sees exactly their own posts. */
  lemma TimelineFollowingNobody(edges: seq<Edge>, posts: seq<Post>, viewer: int, p: Post)
    requires forall q | q in posts :: !IsFollowing(edges, viewer, q.userId)
    ensures p in FollowedPosts(edges, posts, viewer) <==> p in OwnPosts(posts, viewer)
  {
    TimelineMembers(edges, posts, viewer, p);
    OwnPostsMembers(posts, viewer, p);
  }

  /** A viewer without posts sees exactly the posts of the authors they follow. */
  lemma TimelineWithoutOwnPosts(edges: seq<Edge>, posts: seq<Post>, viewer: int, p: Post)
    requires forall q | q in posts :: q.userId != viewer
    ensures p in FollowedPosts(edges, posts, viewer) <==> p in JoinFollowed(edges, posts, viewer)
  {
    TimelineMembers(edges, posts, viewer, p);
    JoinFollowedMembers(edges, posts, viewer, p);
  }

  /** User 1 follows user 2; 2 posts "hi", then 1 posts "yo": 1's timeline is "yo", "hi". */
  lemma TimelineExample(tHi: Timestamp, tYo: Timestamp)
    requires tHi < tYo
    ensures var hi := Post(10, "hi", tHi, 2);
            var yo := Post(11, "yo", tYo, 1);
            FollowedPosts([Edge(1, 2)], [hi, yo], 1) == [yo, hi]
  {
    var hi := Post(10, "hi", tHi, 2);
    var yo := Post(11, "yo", tYo, 1);
    var edges := [Edge(1, 2)];
    assert CountEdges(edges, 1, 2) == 1 by { assert edges[..0] == []; }
    assert CountEdges(edges, 1, 1) == 0 by { assert edges[..0] == []; }
    assert [hi, yo][..1] == [hi] && [hi][..0] == [];
    assert Repeat(hi, 1) == [hi] && Repeat(yo, 0) == [];
    assert JoinFollowed(edges, [hi], 1) == [hi];
    assert JoinFollowed(edges, [hi, yo], 1) == [hi];
    assert OwnPosts([hi], 1) == [];
    assert OwnPosts([hi, yo], 1) == [yo];
    assert Distinct([hi]) == [hi] by { assert [hi][..0] == []; }
    assert Distinct([hi, yo]) == [hi, yo];
    assert [hi, yo][1..] == [yo] && [yo][1..] == [];
    assert SortBy([yo], NewestFirst) == [yo];
  }
}
