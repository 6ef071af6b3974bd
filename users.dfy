/** The `User` methods that change stored state: `follow`, `unfollow`
    (app/models.py:111-119) and `add_notification` (app/models.py:102-108). The
    tables they change are fields of one `Database` object; a call
    `u.follow(v)` of the source is `db.Follow(u.id, v.id)` here. */
module Users {
  import opened Records
  import opened Sequences
  import opened FollowGraph
  import opened Notifications

  class Database {
    /** The `followers` junction table. */
    var followers: seq<Edge>
    /** The `notification` table. */
    var notifications: seq<Notification>

    constructor (edges: seq<Edge>, ns: seq<Notification>)
      ensures followers == edges && notifications == ns
    {
      followers := edges;
      notifications := ns;
    }

    /** `follow`: append the row unless `is_following` already holds. Afterwards the user
        follows, and a table without duplicate rows stays so. */
    method Follow(userId: int, otherId: int)
      modifies this`followers
      ensures followers == WithFollow(old(followers), userId, otherId)
      ensures IsFollowing(followers, userId, otherId)
      ensures NoDuplicates(old(followers)) ==> NoDuplicates(followers)
    {
      if !IsFollowing(followers, userId, otherId) {
        followers := followers + [Edge(userId, otherId)];
      }
      FollowEffect(old(followers), userId, otherId, userId, otherId);
      if NoDuplicates(old(followers)) {
        FollowKeepsDistinct(old(followers), userId, otherId);
      }
    }

    /** `unfollow`: if `is_following` holds, remove the relationship, which the flush turns
        into a DELETE of every row of the pair. Afterwards the user does not follow, and a
        table without duplicate rows stays so. */
    method Unfollow(userId: int, otherId: int)
      modifies this`followers
      ensures followers == WithoutFollow(old(followers), userId, otherId)
      ensures !IsFollowing(followers, userId, otherId)
      ensures NoDuplicates(old(followers)) ==> NoDuplicates(followers)
    {
      if IsFollowing(followers, userId, otherId) {
        followers := RemoveAll(followers, Edge(userId, otherId));
      }
      UnfollowEnds(old(followers), userId, otherId);
      if NoDuplicates(old(followers)) {
        UnfollowKeepsDistinct(old(followers), userId, otherId);
      }
    }

    /** `add_notification(name, data)` at time `now`, where `encode` is `json.dumps`:
        delete the user's notifications called `name`, then add the new one and return it. */
    method AddNotification<D>(userId: int, name: string, data: D, encode: D -> string, now: Timestamp)
      returns (n: Notification)
      modifies this`notifications
      ensures n == Notification(name, now, encode(data), userId)
      ensures notifications == WithNotification(old(notifications), userId, name, encode(data), now)
      ensures Named(notifications, userId, name) == [n]
      ensures OnePerName(old(notifications)) ==> OnePerName(notifications)
    {
      notifications := DeleteNamed(notifications, userId, name);
      n := Notification(name, now, encode(data), userId);
      notifications := notifications + [n];
      AddNotificationEffect(old(notifications), userId, name, encode(data), now, userId, name);
      if OnePerName(old(notifications)) {
        AddNotificationKeepsOnePerName(old(notifications), userId, name, encode(data), now);
      }
    }
  }
}
