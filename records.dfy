/** The record shapes of the micro-blogging domain layer: the rows of the
    `followers`, `post`, `message` and `notification` tables, with every
    date-time column modelled as an integer count of microseconds since
    1970-01-01T00:00:00 (Python's naive `datetime` has microsecond resolution,
    so comparisons between the two agree). */
module Records {

  datatype Option<+T> = None | Some(value: T)

  /** A `DateTime` column value: microseconds since 1970-01-01T00:00:00. */
  type Timestamp = int

  /** `datetime(1900, 1, 1)`: 25567 days before 1970-01-01. */
  const Jan1st1900: Timestamp := -2208988800 * 1000000

  /** One row of the `followers` junction table: `follower` follows `followed`. */
  datatype Edge = Edge(follower: int, followed: int)

  /** A row of the `post` table. */
  datatype Post = Post(id: int, body: string, timestamp: Timestamp, userId: int)

  /** The `id` primary key is unique over the rows of the `post` table. */
  ghost predicate UniqueIds(rows: seq<Post>) {
    forall i, j | 0 <= i < j < |rows| :: rows[i].id != rows[j].id
  }

  /** A row of the `message` table. */
  datatype Message = Message(id: int, senderId: int, recipientId: int, body: string, timestamp: Timestamp)

  /** A row of the `notification` table; `payloadJson` holds the JSON text of the payload. */
  datatype Notification = Notification(name: string, timestamp: Timestamp, payloadJson: string, userId: int)

  /** The part of a `user` row the core reads: its key and `last_message_read_time`,
      which is NULL (`None`) until the user first opens the messages page. */
  datatype User = User(id: int, lastMessageReadTime: Option<Timestamp>)
}
