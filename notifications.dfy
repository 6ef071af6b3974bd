/** The notification log and the unread-message count of a user:
    `User.add_notification` (app/models.py:102-108) and `User.new_messages`
    (app/models.py:97-100). */
module Notifications {
  import opened Records

  /** The table without the rows `self.notifications.filter_by(name=name).delete()` removes. */
  function DeleteNamed(ns: seq<Notification>, userId: int, name: string): seq<Notification> {
    if ns == [] then []
    else
      var n := ns[|ns| - 1];
      DeleteNamed(ns[..|ns| - 1], userId, name)
      + (if n.userId == userId && n.name == name then [] else [n])
  }

  /** The table after `add_notification(name, data)` on the user `userId` at time `now`,
      where `payloadJson` is `json.dumps(data)`: the deletion, then one new row. */
  function WithNotification(ns: seq<Notification>, userId: int, name: string, payloadJson: string,
                            now: Timestamp): seq<Notification>
  {
    DeleteNamed(ns, userId, name) + [Notification(name, now, payloadJson, userId)]
  }

  /** The notifications of user `userId` called `name`, in table order. */
  function Named(ns: seq<Notification>, userId: int, name: string): seq<Notification> {
    if ns == [] then []
    else
      var n := ns[|ns| - 1];
      Named(ns[..|ns| - 1], userId, name) + (if n.userId == userId && n.name == name then [n] else [])
  }

  lemma {:induction false} DeleteNamedThenNamed(ns: seq<Notification>, userId: int, name: string,
                                                 u: int, m: string)
    ensures Named(DeleteNamed(ns, userId, name), u, m)
         == if (u, m) == (userId, name) then [] else Named(ns, u, m)
  {
    if ns != [] {
      var init, n := ns[..|ns| - 1], ns[|ns| - 1];
      DeleteNamedThenNamed(init, userId, name, u, m);
      var d := DeleteNamed(init, userId, name);
      if n.userId == userId && n.name == name {
        assert DeleteNamed(ns, userId, name) == d;
        assert Named(ns, u, m) == Named(init, u, m) + (if (u, m) == (userId, name) then [n] else []);
      } else {
        assert (d + [n])[..|d + [n]| - 1] == d;
      }
    }
  }

  /** After `add_notification`, the user has exactly one notification with that name, holding
      the new payload; the notifications of every other (user, name) pair are unchanged. */
  lemma AddNotificationEffect(ns: seq<Notification>, userId: int, name: string, payloadJson: string,
                              now: Timestamp, u: int, m: string)
    ensures Named(WithNotification(ns, userId, name, payloadJson, now), u, m)
         == if (u, m) == (userId, name) then [Notification(name, now, payloadJson, userId)]
            else Named(ns, u, m)
  {
    var d := DeleteNamed(ns, userId, name);
    DeleteNamedThenNamed(ns, userId, name, u, m);
    assert (d + [Notification(name, now, payloadJson, userId)])[..|d| + 1 - 1] == d;
  }

  /** No user has two notifications with the same name. */
  ghost predicate OnePerName(ns: seq<Notification>) {
    forall i, j | 0 <= i < j < |ns| :: ns[i].userId == ns[j].userId ==> ns[i].name != ns[j].name
  }

  lemma {:induction false} DeleteNamedSubset(ns: seq<Notification>, userId: int, name: string)
    ensures forall x | x in DeleteNamed(ns, userId, name) :: x in ns && !(x.userId == userId && x.name == name)
  {
    if ns != [] {
      DeleteNamedSubset(ns[..|ns| - 1], userId, name);
    }
  }

  lemma {:induction false} DeleteNamedKeepsOnePerName(ns: seq<Notification>, userId: int, name: string)
    requires OnePerName(ns)
    ensures OnePerName(DeleteNamed(ns, userId, name))
  {
    if ns != [] {
      var init, n := ns[..|ns| - 1], ns[|ns| - 1];
      assert OnePerName(init) by {
        forall i, j | 0 <= i < j < |init| ensures init[i].userId == init[j].userId ==> init[i].name != init[j].name {
          assert init[i] == ns[i] && init[j] == ns[j];
        }
      }
      DeleteNamedKeepsOnePerName(init, userId, name);
      DeleteNamedSubset(init, userId, name);
      var d := DeleteNamed(init, userId, name);
      forall x | x in d ensures x.userId == n.userId ==> x.name != n.name {
        var k :| 0 <= k < |init| && init[k] == x;
        assert ns[k] == x;
      }
    }
  }

  /** `add_notification` keeps at most one notification per user and name. */
  lemma AddNotificationKeepsOnePerName(ns: seq<Notification>, userId: int, name: string,
                                       payloadJson: string, now: Timestamp)
    requires OnePerName(ns)
    ensures OnePerName(WithNotification(ns, userId, name, payloadJson, now))
  {
    DeleteNamedKeepsOnePerName(ns, userId, name);
    DeleteNamedSubset(ns, userId, name);
    var d := DeleteNamed(ns, userId, name);
    var r := WithNotification(ns, userId, name, payloadJson, now);
    forall i, j | 0 <= i < j < |r| ensures r[i].userId == r[j].userId ==> r[i].name != r[j].name {
      if j < |d| {
        assert r[i] == d[i] && r[j] == d[j];
      } else {
        assert r[i] in d;
      }
    }
  }

  /** Adding "N" twice leaves one "N", with the second payload. */
  lemma AddNotificationTwice(ns: seq<Notification>, userId: int, name: string,
                             first: string, second: string, t1: Timestamp, t2: Timestamp)
    ensures Named(WithNotification(WithNotification(ns, userId, name, first, t1), userId, name, second, t2),
                  userId, name)
         == [Notification(name, t2, second, userId)]
  {
    AddNotificationEffect(WithNotification(ns, userId, name, first, t1), userId, name, second, t2, userId, name);
  }

  /** `self.last_message_read_time or datetime(1900, 1, 1)`. */
  function LastReadTime(user: User): Timestamp {
    match user.lastMessageReadTime
    case Some(t) => t
    case None => Jan1st1900
  }

  predicate IsNewFor(m: Message, recipientId: int, since: Timestamp) {
    m.recipientId == recipientId && m.timestamp > since
  }

  /** `Message.query.filter_by(recipient=self).filter(Message.timestamp > since).count()`. */
  function CountNewer(msgs: seq<Message>, recipientId: int, since: Timestamp): nat {
    if msgs == [] then 0
    else
      CountNewer(msgs[..|msgs| - 1], recipientId, since)
      + (if IsNewFor(msgs[|msgs| - 1], recipientId, since) then 1 else 0)
  }

  /** `user.new_messages()` over the message table `msgs`. */
  function NewMessages(msgs: seq<Message>, user: User): nat {
    CountNewer(msgs, user.id, LastReadTime(user))
  }

  /** The positions of the rows the query counts. */
  ghost function NewerRows(msgs: seq<Message>, recipientId: int, since: Timestamp): set<int> {
    set k | 0 <= k < |msgs| && IsNewFor(msgs[k], recipientId, since)
  }

  /** The count is the number of rows sent to the user after `since`. */
  lemma {:induction false} CountNewerIsRowCount(msgs: seq<Message>, recipientId: int, since: Timestamp)
    ensures CountNewer(msgs, recipientId, since) == |NewerRows(msgs, recipientId, since)|
  {
    if msgs == [] {
      assert NewerRows(msgs, recipientId, since) == {};
    } else {
      var init := msgs[..|msgs| - 1];
      var last := |msgs| - 1;
      CountNewerIsRowCount(init, recipientId, since);
      var before := NewerRows(init, recipientId, since);
      assert last !in before;
      if IsNewFor(msgs[last], recipientId, since) {
        assert NewerRows(msgs, recipientId, since) == before + {last};
      } else {
        assert NewerRows(msgs, recipientId, since) == before;
      }
    }
  }

  /** `new_messages` counts the messages received by the user after their last read time, or
      after 1900-01-01 when they have never read their messages. */
  lemma NewMessagesCounts(msgs: seq<Message>, user: User)
    ensures NewMessages(msgs, user)
         == |set k | 0 <= k < |msgs| && msgs[k].recipientId == user.id
                                    && msgs[k].timestamp > LastReadTime(user)|
    ensures user.lastMessageReadTime.None? ==> LastReadTime(user) == Jan1st1900
  {
    CountNewerIsRowCount(msgs, user.id, LastReadTime(user));
    assert NewerRows(msgs, user.id, LastReadTime(user))
        == set k | 0 <= k < |msgs| && msgs[k].recipientId == user.id && msgs[k].timestamp > LastReadTime(user);
  }

  /** Reading later never raises the count. */
  lemma {:induction false} CountNewerAntitone(msgs: seq<Message>, recipientId: int, s1: Timestamp, s2: Timestamp)
    requires s1 <= s2
    ensures CountNewer(msgs, recipientId, s2) <= CountNewer(msgs, recipientId, s1)
  {
    if msgs != [] {
      CountNewerAntitone(msgs[..|msgs| - 1], recipientId, s1, s2);
    }
  }

  /** A new row adds one to the count exactly when it is addressed to the user and newer
      than their last read time. */
  lemma NewMessagesAppend(msgs: seq<Message>, user: User, m: Message)
    ensures NewMessages(msgs + [m], user)
         == NewMessages(msgs, user) + (if m.recipientId == user.id && m.timestamp > LastReadTime(user) then 1 else 0)
  {
    assert (msgs + [m])[..|msgs|] == msgs;
  }
}
