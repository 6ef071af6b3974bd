# Micro-blog domain layer in Dafny

A model of the domain layer of a Flask micro-blogging application
(`app/models.py`): the follow graph between users, the timeline of posts a
user sees, the per-user notification log and unread-message count, and the
hooks that keep an external full-text index in step with committed posts,
together with the rank-preserving search over that index.

The relational store is replaced by plain sequences of rows, one per table
(`followers`, `post`, `message`, `notification`); the ORM queries become
functions over those sequences; the external search service becomes a map
from `(index name, row id)` to the indexed document plus a log of the calls
made on it. Date-time columns are integers (microseconds since 1970).

Files, one module each:

- `records.dfy` (`Records`): the row shapes and `datetime(1900, 1, 1)`.
- `sequences.dfy` (`Sequences`): removing duplicate rows and ordering rows by an integer key.
- `follow_graph.dfy` (`FollowGraph`): `is_following` and what `follow`/`unfollow` do to the `followers` table.
- `timeline.dfy` (`Timeline`): `followed_posts` as join, union and descending sort.
- `notifications.dfy` (`Notifications`): `add_notification` on the table and `new_messages`.
- `search.dfy` (`Search`): `SearchableMixin.search`, with the loop that builds the `CASE` list.
- `search_sync.dfy` (`SearchSync`): the calls `after_commit` and `reindex` make, their effect on the index, and the `Session` class holding `_changes` and the index.
- `users.dfy` (`Users`): the `Database` class whose methods `Follow`, `Unfollow` and `AddNotification` change the tables in place.

Points where the code behaves differently from what one might expect of it, and which the model follows:

- The `followers` table declares no uniqueness constraint; only `follow`'s `is_following` check keeps it duplicate-free. The model lets the table repeat rows and proves that `follow` and `unfollow` keep a duplicate-free table duplicate-free.
- `unfollow` removes the relationship from a dynamic relationship; the flush turns that into a DELETE matching both columns, so every copy of the row goes.
- A search with no hits does not return an empty list: it returns the query `filter_by(id=0)` with count 0. The model returns the rows with id 0, and proves that there are none when primary keys are positive.
- A search whose page has no ids while the total is not zero builds a `CASE` with no `WHEN`, which SQL rejects; the model reports this case as a failure.
- The commit snapshot holds every new, dirty and deleted object; `after_commit` filters by `isinstance`.
- The timeline's `ORDER BY` leaves posts with equal timestamps in no particular order. The model's contracts hold for any tie order.

## Model

| member | source | states |
|---|---|---|
| `Sequences.Distinct` | app/models.py:136 | `UNION` keeps each row once: the result has the same members as the input and no duplicates |
| `Sequences.SortBy` | app/models.py:136 | `ORDER BY`: the result is a permutation of the input, ordered by the key |
| `Sequences.SortByKeepsDistinct` | app/models.py:136 | ordering rows without duplicates yields rows without duplicates |
| `FollowGraph.CountEdges` | app/models.py:121-123 | the `count()` of the `is_following` query: the rows of the junction table for the ordered pair |
| `FollowGraph.IsFollowing` | app/models.py:121-123 | `is_following`: that count is positive |
| `FollowGraph.WithFollow` | app/models.py:111-114 | the table after `follow`: the pair's row is in it, and its rows are the old ones plus that row |
| `FollowGraph.WithoutFollow` | app/models.py:116-119 | the table after `unfollow`: the pair has no row, and every other row is kept |
| `FollowGraph.CountIsMultiplicity` | app/models.py:121-123 | the `is_following` count is the number of rows of the pair in the junction table |
| `FollowGraph.IsFollowingIffEdge` | app/models.py:121-123 | `is_following` holds exactly when the table has a row for the ordered pair |
| `FollowGraph.RemoveAll` | app/models.py:119 | the DELETE the flush issues for the removed relationship: every row equal to the pair goes, every other row keeps its multiplicity |
| `FollowGraph.FollowEffect` | app/models.py:111-114 | after `follow` the user is following; the pair's row count becomes one if it was zero and is otherwise unchanged; every other pair's count is unchanged |
| `FollowGraph.FollowIdempotent` | app/models.py:111-114 | following twice leaves the same table as following once |
| `FollowGraph.FollowKeepsDistinct` | app/models.py:111-114 | `follow` never creates a duplicate row |
| `FollowGraph.UnfollowEffect` | app/models.py:116-119 | `unfollow` when not following changes nothing; otherwise the pair has no row left; every other pair's count is unchanged |
| `FollowGraph.UnfollowEnds` | app/models.py:116-119 | after `unfollow` the user no longer follows, whatever copies of the row the table held |
| `FollowGraph.UnfollowKeepsDistinct` | app/models.py:116-119 | `unfollow` keeps a duplicate-free table duplicate-free |
| `FollowGraph.FollowUnfollowRoundTrip` | app/models.py:111-119 | `unfollow` restores the table a `follow` of a not-yet-followed user extended |
| `Timeline.JoinFollowed` | app/models.py:131-132 | the join of `post` with `followers` filtered on the viewer: each post once per row saying the viewer follows its author |
| `Timeline.OwnPosts` | app/models.py:134 | `filter_by(user_id=self.id)` on the `post` table |
| `Timeline.FollowedPosts` | app/models.py:125-136 | `followed_posts`: the union of the two queries, newest first |
| `Timeline.JoinFollowedMembers` | app/models.py:131-132 | the join yields exactly the stored posts whose author the viewer follows |
| `Timeline.OwnPostsMembers` | app/models.py:134 | the second query yields exactly the viewer's own stored posts |
| `Timeline.TimelineMembers` | app/models.py:125-136 | a post is on the timeline if and only if it is stored and its author is the viewer or someone the viewer follows |
| `Timeline.TimelineDistinct` | app/models.py:131-136 | each post appears at most once, also with repeated follow rows or a self-follow |
| `Timeline.TimelineNewestFirst` | app/models.py:136 | the timeline is ordered by timestamp, newest first |
| `Timeline.TimelineFollowingNobody` | app/models.py:131-136 | a viewer who follows no author sees exactly their own posts |
| `Timeline.TimelineWithoutOwnPosts` | app/models.py:131-136 | a viewer without posts sees exactly the followed authors' posts |
| `Timeline.TimelineExample` | app/models.py:125-136 | user 1 follows user 2, 2 posts "hi" and later 1 posts "yo": the timeline of 1 is exactly "yo", "hi" |
| `Notifications.DeleteNamed` | app/models.py:105 | the table after the bulk delete of the user's notifications called `name` |
| `Notifications.WithNotification` | app/models.py:102-108 | the table after `add_notification`: the bulk delete, then the new row |
| `Notifications.LastReadTime` | app/models.py:99 | `last_message_read_time`, or 1900-01-01 when it is unset |
| `Notifications.CountNewer` | app/models.py:100 | the `count()` of messages to the user with a timestamp after the given time |
| `Notifications.NewMessages` | app/models.py:97-100 | `new_messages`: that count after the last read time |
| `Notifications.DeleteNamedThenNamed` | app/models.py:105 | the bulk delete removes every notification of the user with that name and no other |
| `Notifications.AddNotificationEffect` | app/models.py:102-108 | afterwards the user has exactly one notification with that name, carrying the new payload and time; every other (user, name) pair keeps its notifications |
| `Notifications.AddNotificationKeepsOnePerName` | app/models.py:102-108 | at most one notification per user and name is preserved |
| `Notifications.AddNotificationTwice` | app/models.py:102-108 | adding the same name twice leaves one notification, with the second payload |
| `Notifications.CountNewerIsRowCount` | app/models.py:100 | the count query counts exactly the rows addressed to the user with a timestamp after the given time |
| `Notifications.NewMessagesCounts` | app/models.py:97-100 | `new_messages` is the number of messages received after the last read time, which is 1900-01-01 when unset |
| `Notifications.CountNewerAntitone` | app/models.py:100 | a later read time never raises the count |
| `Notifications.NewMessagesAppend` | app/models.py:97-100 | a new message raises the count by one exactly when it is addressed to the user and newer than the last read time |
| `Search.Case` | app/models.py:29 | `db.case(when, value=id)`: the value of the first `WHEN` whose key is the id, or NULL |
| `Search.CaseOrder` | app/models.py:28-29 | the sort key of a row; NULL is never reached, because `in_` keeps only rows on the page |
| `Search.Position` | app/models.py:25-27 | the rank of an id is the index of its first occurrence in the page, or the page length when absent |
| `Search.WithIdIn` | app/models.py:28 | `id IN ids` keeps exactly the stored rows whose id is on the page |
| `Search.WithId` | app/models.py:24 | `filter_by(id=0)` keeps exactly the rows with id 0 |
| `Search.CaseFirstMatch` | app/models.py:29 | the `CASE` takes the value of its first matching `WHEN` |
| `Search.CaseIsPosition` | app/models.py:25-29 | over the `WHEN` list built from the page, the `CASE` of an id on the page is its rank |
| `Search.OrderByCase` | app/models.py:28-29 | ordering by the `CASE` is a permutation ordered by the `CASE` value |
| `Search.RankOrder` | app/models.py:25-29 | rows ordered by the `CASE` are in rank order, strictly so with unique keys |
| `Search.OrderByCaseIsRankedPage` | app/models.py:25-29 | the query returns exactly the page's stored rows, in rank order |
| `Search.NoRowWithIdZero` | app/models.py:23-24 | with positive primary keys, the no-hit query matches nothing |
| `Search.Search` | app/models.py:21-29 | with no hits: count 0 and the `id=0` rows, none when keys are positive; a page without ids but with hits fails (a `CASE` without `WHEN`); otherwise the total passed through and exactly the stored rows on the page, ordered by their id's position in the page |
| `SearchSync.Apply` | app/models.py:43 | the effect of one `add_to_index` or `remove_from_index` call on the index |
| `SearchSync.ApplyAll` | app/models.py:40-55 | the effect of a run of calls, in order |
| `SearchSync.UpsertCalls` | app/models.py:41-46 | the `add_to_index` calls one `add` or `update` loop makes: one per searchable object, in list order |
| `SearchSync.RemoveCalls` | app/models.py:47-49 | the `remove_from_index` calls of the `delete` loop: one per searchable object, in list order |
| `SearchSync.CommitCalls` | app/models.py:40-50 | the calls of `after_commit`: the `add` loop, then `update`, then `delete` |
| `SearchSync.ReindexCalls` | app/models.py:52-55 | the calls of `reindex`: one `add_to_index` per stored post, in table order |
| `SearchSync.ApplyAllAt` | app/models.py:40-55 | what the index holds under a key after a run of calls is decided by the last call on that key |
| `SearchSync.UpsertCallsLast` | app/models.py:41-46 | the last upsert on a key comes from a searchable object with that key in the snapshot list, and there is one exactly when such an object is there |
| `SearchSync.RemoveCallsLast` | app/models.py:47-49 | the same for removals from the `delete` snapshot |
| `SearchSync.CommitRemovesDeleted` | app/models.py:47-49 | after the commit hook a deleted post is not in the index |
| `SearchSync.CommitUpsertsChanged` | app/models.py:41-46 | after the commit hook an added or updated post that was not deleted is in the index with its body |
| `SearchSync.CommitLeavesOthers` | app/models.py:40-50 | the commit hook leaves alone every key no searchable object of the snapshot has |
| `SearchSync.UpsertCallsCount` | app/models.py:41-46 | one `add_to_index` per occurrence of a searchable object in the list, none for anything else |
| `SearchSync.RemoveCallsCount` | app/models.py:47-49 | one `remove_from_index` per occurrence of a searchable object in the list, none for anything else |
| `SearchSync.CommitCallsCount` | app/models.py:40-50 | `after_commit` upserts each post as often as it occurs in `add` and `update`, removes it as often as it occurs in `delete`, and calls nothing for non-searchable objects |
| `SearchSync.ReindexCallsLast` | app/models.py:52-55 | the last `reindex` call on a key upserts a stored post with that key, and there is one exactly when such a post is stored |
| `SearchSync.ReindexEffect` | app/models.py:52-55 | after `reindex` every stored post is in the index with its body, and every other key is unchanged |
| `SearchSync.Session.constructor` | app/models.py:31-37 | a session starts without a snapshot and with no index calls made |
| `SearchSync.Session.IndexPost` | app/models.py:43 | `add_to_index` logs one call and upserts the post's document |
| `SearchSync.Session.UnindexPost` | app/models.py:49 | `remove_from_index` logs one call and removes the post's key |
| `SearchSync.Session.BeforeCommit` | app/models.py:31-37 | `_changes` becomes exactly the new, dirty and deleted objects; the index is untouched |
| `SearchSync.Session.UpsertEach` | app/models.py:41-46 | one loop over a snapshot list makes exactly its upsert calls |
| `SearchSync.Session.RemoveEach` | app/models.py:47-49 | the loop over the `delete` snapshot makes exactly its removal calls |
| `SearchSync.Session.AfterCommit` | app/models.py:39-50 | the calls made are exactly those of the snapshot, the index is the result of applying them, and `_changes` is `None` afterwards |
| `SearchSync.Session.Reindex` | app/models.py:52-55 | one upsert call per stored post, in table order |
| `Users.Database.constructor` | app/models.py:62-64 | the tables start as given |
| `Users.Database.Follow` | app/models.py:111-114 | the table afterwards is the one `follow` specifies; the user follows; a duplicate-free table stays duplicate-free |
| `Users.Database.Unfollow` | app/models.py:116-119 | the table afterwards is the one `unfollow` specifies; the user no longer follows; a duplicate-free table stays duplicate-free |
| `Users.Database.AddNotification` | app/models.py:102-108 | returns the new notification with the encoded payload; the table afterwards has it as the user's only one with that name; at most one per user and name is preserved |

## Left out

- Password hashing and checking, the Gravatar URL and the reset-password token (app/models.py:138-165): calls into werkzeug, hashlib and PyJWT. As written, the token carries the user id under the claim `reset_password` (line 155) but verification reads `rest_password` (line 162), so the bare `except` makes every verification return `None`; this is not modelled.
- JSON encoding and decoding of notification payloads: `AddNotification` takes the encoder as a parameter, and `Notification.get_data` is not modelled.
- Notification ids and the floating-point `time()` default: a notification row is its name, time, payload and user; the time is an integer parameter.
- Wall-clock defaults (`datetime.utcnow`): timestamps are inputs.
- The external search service (`app.search`): its state is a map from `(index, id)` to the post body and a log of calls; failures of the service (a missing document on removal, an unreachable server) are not modelled, and a removal of a missing key is a no-op.
- `query_index` is an oracle: `Search.Search` takes its `(ids, total)` answer as parameters, and the stored table as a sequence.
- SQLAlchemy mechanics: event registration (app/models.py:58-59), lazy query objects (a query is modelled by the rows it returns), autoflush, `load_user` and the `__repr__`s. The session's `new`, `dirty` and `deleted` collections are passed to `BeforeCommit` as sequences.
- `SearchSync.Session.BeforeCommit`: the sequences passed in stand for the objects as `after_commit` will see them after the flush (the source keeps references to live objects, so a new post has its id by then); which objects the ORM puts in `new`, `dirty` and `deleted` is left to the caller, including that an object an earlier autoflush already wrote is in none of them and so is not indexed.
- `FollowGraph.WithoutFollow`: on backends where the ORM checks the row count of the DELETE, a table holding the pair more than once makes the flush fail instead of deleting every copy; that failure is not modelled.
- Transactions: durability, rollback and concurrent requests. Only `AfterCommit` calls the index, so a transaction rolled back after `before_commit` makes no index call.
- `SearchSync.Session.AfterCommit`: requires a snapshot; in the source `_changes` being `None` would raise, and the ORM always runs `before_commit` first.
- The `user` table beyond the id and `last_message_read_time`; foreign keys are not checked (the core does not check them either).
- Equal timestamps on the timeline: the order SQL gives them is unspecified; the model's sort picks one order and no contract depends on it.
