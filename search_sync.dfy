/** Keeping the external full-text index in step with committed changes:
    `SearchableMixin.before_commit`, `after_commit` and `reindex`
    (app/models.py:31-55). The external service is modelled by its state, a map
    from `(index name, row id)` to the indexed document, and by the log of the
    calls made on it (`add_to_index`, `remove_from_index`). */
module SearchSync {
  import opened Records

  /** An object of the session. Only `Post` mixes in `SearchableMixin`. */
  datatype Entity =
    | PostEntity(post: Post)
    | UserEntity(user: User)
    | MessageEntity(message: Message)
    | NotificationEntity(notification: Notification)

  /** `isinstance(obj, SearchableMixin)`. */
  predicate IsSearchable(e: Entity) {
    e.PostEntity?
  }

  /** `Post.__tablename__`, the name of the index posts go to. */
  const PostIndex: string := "post"

  /** The `__searchable__` fields of a post: its body. */
  datatype Document = Document(body: string)

  type IndexKey = (string, int)

  /** A call on the external search service. */
  datatype IndexCall =
    | AddToIndex(index: string, post: Post)
    | RemoveFromIndex(index: string, post: Post)
  {
    function Key(): IndexKey { (index, post.id) }
  }

  /** `session._changes`: the session's new, dirty and deleted objects. */
  datatype Changes = Changes(add: seq<Entity>, update: seq<Entity>, delete: seq<Entity>)

  /** The effect of one call on the index: an upsert or a removal by `(index, id)`. */
  function Apply(index: map<IndexKey, Document>, call: IndexCall): map<IndexKey, Document> {
    match call
    case AddToIndex(_, p) => index[call.Key() := Document(p.body)]
    case RemoveFromIndex(_, _) => index - {call.Key()}
  }

  function ApplyAll(index: map<IndexKey, Document>, calls: seq<IndexCall>): map<IndexKey, Document> {
    if calls == [] then index
    else Apply(ApplyAll(index, calls[..|calls| - 1]), calls[|calls| - 1])
  }

  /** The calls of `for obj in objs: if isinstance(obj, SearchableMixin): add_to_index(...)`. */
  function UpsertCalls(objs: seq<Entity>): seq<IndexCall> {
    if objs == [] then []
    else
      var e := objs[|objs| - 1];
      UpsertCalls(objs[..|objs| - 1]) + (if IsSearchable(e) then [AddToIndex(PostIndex, e.post)] else [])
  }

  /** The calls of `for obj in objs: if isinstance(obj, SearchableMixin): remove_from_index(...)`. */
  function RemoveCalls(objs: seq<Entity>): seq<IndexCall> {
    if objs == [] then []
    else
      var e := objs[|objs| - 1];
      RemoveCalls(objs[..|objs| - 1]) + (if IsSearchable(e) then [RemoveFromIndex(PostIndex, e.post)] else [])
  }

  /** Every call `after_commit` makes, in order. */
  function CommitCalls(c: Changes): seq<IndexCall> {
    UpsertCalls(c.add) + UpsertCalls(c.update) + RemoveCalls(c.delete)
  }

  /** The calls of `for obj in Post.query: add_to_index('post', obj)`. */
  function ReindexCalls(rows: seq<Post>): seq<IndexCall> {
    if rows == [] then []
    else ReindexCalls(rows[..|rows| - 1]) + [AddToIndex(PostIndex, rows[|rows| - 1])]
  }

  /** The last call of `calls` on the key `k`, if any. */
  function LastCallOn(calls: seq<IndexCall>, k: IndexKey): Option<IndexCall> {
    if calls == [] then None
    else if calls[|calls| - 1].Key() == k then Some(calls[|calls| - 1])
    else LastCallOn(calls[..|calls| - 1], k)
  }

  /** What a sequence of calls leaves under a key is decided by the last call on that key. */
  lemma {:induction false} ApplyAllAt(index: map<IndexKey, Document>, calls: seq<IndexCall>, k: IndexKey)
    ensures var r := ApplyAll(index, calls);
            match LastCallOn(calls, k)
            case None => (k in r <==> k in index) && (k in index ==> r[k] == index[k])
            case Some(AddToIndex(_, p)) => k in r && r[k] == Document(p.body)
            case Some(RemoveFromIndex(_, _)) => k !in r
  {
    if calls != [] {
      ApplyAllAt(index, calls[..|calls| - 1], k);
    }
  }

  lemma {:induction false} LastCallOnAppend(a: seq<IndexCall>, b: seq<IndexCall>, k: IndexKey)
    ensures LastCallOn(a + b, k) == if LastCallOn(b, k).Some? then LastCallOn(b, k) else LastCallOn(a, k)
  {
    if b == [] {
      assert a + b == a;
    } else {
      assert (a + b)[..|a + b| - 1] == a + b[..|b| - 1];
      assert (a + b)[|a + b| - 1] == b[|b| - 1];
      LastCallOnAppend(a, b[..|b| - 1], k);
      if b[|b| - 1].Key() == k {
        assert LastCallOn(a + b, k) == Some(b[|b| - 1]) == LastCallOn(b, k);
      } else {
        assert LastCallOn(a + b, k) == LastCallOn(a + b[..|b| - 1], k);
        assert LastCallOn(b, k) == LastCallOn(b[..|b| - 1], k);
      }
    }
  }

  /** The last upsert for a key comes from a searchable object of the list with that key;
      there is one exactly when such an object is in the list. */
  lemma {:induction false} UpsertCallsLast(objs: seq<Entity>, k: IndexKey)
    ensures match LastCallOn(UpsertCalls(objs), k)
            case None => forall p | PostEntity(p) in objs :: (PostIndex, p.id) != k
            case Some(call) =>
              call.AddToIndex? && call.index == PostIndex && call.Key() == k && PostEntity(call.post) in objs
  {
    if objs != [] {
      var init, e := objs[..|objs| - 1], objs[|objs| - 1];
      assert objs == init + [e];
      UpsertCallsLast(init, k);
      LastCallOnAppend(UpsertCalls(init), if IsSearchable(e) then [AddToIndex(PostIndex, e.post)] else [], k);
    }
  }

  lemma {:induction false} RemoveCallsLast(objs: seq<Entity>, k: IndexKey)
    ensures match LastCallOn(RemoveCalls(objs), k)
            case None => forall p | PostEntity(p) in objs :: (PostIndex, p.id) != k
            case Some(call) =>
              call.RemoveFromIndex? && call.index == PostIndex && call.Key() == k && PostEntity(call.post) in objs
  {
    if objs != [] {
      var init, e := objs[..|objs| - 1], objs[|objs| - 1];
      assert objs == init + [e];
      RemoveCallsLast(init, k);
      LastCallOnAppend(RemoveCalls(init), if IsSearchable(e) then [RemoveFromIndex(PostIndex, e.post)] else [], k);
    }
  }

  /** After a commit, a deleted post is no longer in the index. */
  lemma CommitRemovesDeleted(index: map<IndexKey, Document>, c: Changes, p: Post)
    requires PostEntity(p) in c.delete
    ensures (PostIndex, p.id) !in ApplyAll(index, CommitCalls(c))
  {
    var k := (PostIndex, p.id);
    RemoveCallsLast(c.delete, k);
    LastCallOnAppend(UpsertCalls(c.add) + UpsertCalls(c.update), RemoveCalls(c.delete), k);
    ApplyAllAt(index, CommitCalls(c), k);
  }

  /** After a commit, an added or updated post that was not also deleted is in the index
      with its body, provided the snapshot holds one version of that row. */
  lemma CommitUpsertsChanged(index: map<IndexKey, Document>, c: Changes, p: Post)
    requires PostEntity(p) in c.add || PostEntity(p) in c.update
    requires forall q | PostEntity(q) in c.delete :: q.id != p.id
    requires forall q | PostEntity(q) in c.add || PostEntity(q) in c.update :: q.id == p.id ==> q == p
    ensures var r := ApplyAll(index, CommitCalls(c));
            (PostIndex, p.id) in r && r[(PostIndex, p.id)] == Document(p.body)
  {
    var k := (PostIndex, p.id);
    var ups := UpsertCalls(c.add) + UpsertCalls(c.update);
    RemoveCallsLast(c.delete, k);
    assert LastCallOn(RemoveCalls(c.delete), k).None?;
    UpsertCallsLast(c.add, k);
    UpsertCallsLast(c.update, k);
    LastCallOnAppend(UpsertCalls(c.add), UpsertCalls(c.update), k);
    LastCallOnAppend(ups, RemoveCalls(c.delete), k);
    assert LastCallOn(CommitCalls(c), k) == LastCallOn(ups, k);
    assert LastCallOn(ups, k).Some?;
    var call := LastCallOn(ups, k).value;
    assert call.AddToIndex? && call.post == p;
    ApplyAllAt(index, CommitCalls(c), k);
  }

  /** A commit leaves alone every key no searchable object of the snapshot has. */
  lemma CommitLeavesOthers(index: map<IndexKey, Document>, c: Changes, k: IndexKey)
    requires forall p | PostEntity(p) in c.add || PostEntity(p) in c.update || PostEntity(p) in c.delete
               :: (PostIndex, p.id) != k
    ensures var r := ApplyAll(index, CommitCalls(c));
            (k in r <==> k in index) && (k in index ==> r[k] == index[k])
  {
    var ups := UpsertCalls(c.add) + UpsertCalls(c.update);
    RemoveCallsLast(c.delete, k);
    UpsertCallsLast(c.add, k);
    UpsertCallsLast(c.update, k);
    assert LastCallOn(RemoveCalls(c.delete), k).None?;
    assert LastCallOn(UpsertCalls(c.add), k).None?;
    assert LastCallOn(UpsertCalls(c.update), k).None?;
    LastCallOnAppend(UpsertCalls(c.add), UpsertCalls(c.update), k);
    LastCallOnAppend(ups, RemoveCalls(c.delete), k);
    assert LastCallOn(CommitCalls(c), k).None?;
    ApplyAllAt(index, CommitCalls(c), k);
  }

  /** `add_to_index` is called once per occurrence of a searchable object in a list, and
      never for anything else. */
  lemma {:induction false} UpsertCallsCount(objs: seq<Entity>, call: IndexCall)
    ensures multiset(UpsertCalls(objs))[call]
         == if call.AddToIndex? && call.index == PostIndex then multiset(objs)[PostEntity(call.post)] else 0
  {
    if objs != [] {
      var init := objs[..|objs| - 1];
      assert objs == init + [objs[|objs| - 1]];
      UpsertCallsCount(init, call);
    }
  }

  lemma {:induction false} RemoveCallsCount(objs: seq<Entity>, call: IndexCall)
    ensures multiset(RemoveCalls(objs))[call]
         == if call.RemoveFromIndex? && call.index == PostIndex then multiset(objs)[PostEntity(call.post)] else 0
  {
    if objs != [] {
      var init := objs[..|objs| - 1];
      assert objs == init + [objs[|objs| - 1]];
      RemoveCallsCount(init, call);
    }
  }

  /** `after_commit` calls `add_to_index` once for each time a post occurs in the `add` and
      `update` snapshots, `remove_from_index` once for each time it occurs in `delete`, and
      makes no other call; in particular none for an object that is not searchable. */
  lemma CommitCallsCount(c: Changes, p: Post)
    ensures multiset(CommitCalls(c))[AddToIndex(PostIndex, p)]
         == multiset(c.add)[PostEntity(p)] + multiset(c.update)[PostEntity(p)]
    ensures multiset(CommitCalls(c))[RemoveFromIndex(PostIndex, p)] == multiset(c.delete)[PostEntity(p)]
    ensures forall call | call in CommitCalls(c) :: call.index == PostIndex
  {
    UpsertCallsCount(c.add, AddToIndex(PostIndex, p));
    UpsertCallsCount(c.update, AddToIndex(PostIndex, p));
    RemoveCallsCount(c.delete, AddToIndex(PostIndex, p));
    UpsertCallsCount(c.add, RemoveFromIndex(PostIndex, p));
    UpsertCallsCount(c.update, RemoveFromIndex(PostIndex, p));
    RemoveCallsCount(c.delete, RemoveFromIndex(PostIndex, p));
    forall call | call in CommitCalls(c) ensures call.index == PostIndex {
      UpsertCallsCount(c.add, call);
      UpsertCallsCount(c.update, call);
      RemoveCallsCount(c.delete, call);
    }
  }

  lemma {:induction false} ReindexCallsLast(rows: seq<Post>, k: IndexKey)
    ensures match LastCallOn(ReindexCalls(rows), k)
            case None => forall p | p in rows :: (PostIndex, p.id) != k
            case Some(call) => call.AddToIndex? && call.index == PostIndex && call.Key() == k && call.post in rows
  {
    if rows != [] {
      var init, p := rows[..|rows| - 1], rows[|rows| - 1];
      assert rows == init + [p];
      ReindexCallsLast(init, k);
      LastCallOnAppend(ReindexCalls(init), [AddToIndex(PostIndex, p)], k);
    }
  }

  /** After `reindex`, every stored post is in the index with its body, and every key that
      is not a stored post's is unchanged. */
  lemma ReindexEffect(index: map<IndexKey, Document>, rows: seq<Post>, k: IndexKey)
    requires UniqueIds(rows)
    ensures var r := ApplyAll(index, ReindexCalls(rows));
            && (forall p | p in rows && k == (PostIndex, p.id) :: k in r && r[k] == Document(p.body))
            && ((forall p | p in rows :: k != (PostIndex, p.id)) ==>
                  (k in r <==> k in index) && (k in index ==> r[k] == index[k]))
  {
    ReindexCallsLast(rows, k);
    ApplyAllAt(index, ReindexCalls(rows), k);
  }

  /** Applying the commit's calls is applying the three loops' calls one after another. */
  lemma CommitCallsApply(index: map<IndexKey, Document>, c: Changes)
    ensures ApplyAll(index, CommitCalls(c))
         == ApplyAll(ApplyAll(ApplyAll(index, UpsertCalls(c.add)), UpsertCalls(c.update)), RemoveCalls(c.delete))
  {
    var a, u, d := UpsertCalls(c.add), UpsertCalls(c.update), RemoveCalls(c.delete);
    ApplyAllConcat(index, a + u, d);
    ApplyAllConcat(index, a, u);
  }

  lemma {:induction false} ApplyAllConcat(index: map<IndexKey, Document>, a: seq<IndexCall>, b: seq<IndexCall>)
    ensures ApplyAll(index, a + b) == ApplyAll(ApplyAll(index, a), b)
  {
    if b == [] {
      assert a + b == a;
    } else {
      assert (a + b)[..|a + b| - 1] == a + b[..|b| - 1];
      ApplyAllConcat(index, a, b[..|b| - 1]);
    }
  }

  lemma ApplyAllSnoc(index: map<IndexKey, Document>, calls: seq<IndexCall>, call: IndexCall)
    ensures ApplyAll(index, calls + [call]) == Apply(ApplyAll(index, calls), call)
  {
    assert (calls + [call])[..|calls|] == calls;
  }

  lemma UpsertCallsSnoc(objs: seq<Entity>, i: nat)
    requires i < |objs|
    ensures UpsertCalls(objs[..i + 1])
         == UpsertCalls(objs[..i]) + if IsSearchable(objs[i]) then [AddToIndex(PostIndex, objs[i].post)] else []
  {
    assert objs[..i + 1][..i] == objs[..i];
  }

  lemma RemoveCallsSnoc(objs: seq<Entity>, i: nat)
    requires i < |objs|
    ensures RemoveCalls(objs[..i + 1])
         == RemoveCalls(objs[..i]) + if IsSearchable(objs[i]) then [RemoveFromIndex(PostIndex, objs[i].post)] else []
  {
    assert objs[..i + 1][..i] == objs[..i];
  }

  lemma ReindexCallsSnoc(rows: seq<Post>, i: nat)
    requires i < |rows|
    ensures ReindexCalls(rows[..i + 1]) == ReindexCalls(rows[..i]) + [AddToIndex(PostIndex, rows[i])]
  {
    assert rows[..i + 1][..i] == rows[..i];
  }

  /** The session's commit-hook state, and the external index the hooks drive. */
  class Session {
    /** `session._changes`: the snapshot `before_commit` took, or `None`. */
    var changes: Option<Changes>
    /** The documents the external index holds. */
    var index: map<IndexKey, Document>
    /** Every call made on the external index, oldest first. */
    var calls: seq<IndexCall>

    constructor (documents: map<IndexKey, Document>)
      ensures changes == None && index == documents && calls == []
    {
      changes := None;
      index := documents;
      calls := [];
    }

    /** `add_to_index(indexName, p)` on the external service. */
    method IndexPost(indexName: string, p: Post)
      modifies this`index, this`calls
      ensures calls == old(calls) + [AddToIndex(indexName, p)]
      ensures index == Apply(old(index), AddToIndex(indexName, p))
    {
      calls := calls + [AddToIndex(indexName, p)];
      index := index[(indexName, p.id) := Document(p.body)];
    }

    /** `remove_from_index(indexName, p)` on the external service. */
    method UnindexPost(indexName: string, p: Post)
      modifies this`index, this`calls
      ensures calls == old(calls) + [RemoveFromIndex(indexName, p)]
      ensures index == Apply(old(index), RemoveFromIndex(indexName, p))
    {
      calls := calls + [RemoveFromIndex(indexName, p)];
      index := index - {(indexName, p.id)};
    }

    /** `before_commit`: snapshot `session.new`, `session.dirty` and `session.deleted`.
        The index is not touched. */
    method BeforeCommit(added: seq<Entity>, dirty: seq<Entity>, deleted: seq<Entity>)
      modifies this`changes
      ensures changes == Some(Changes(added, dirty, deleted))
    {
      changes := Some(Changes(added, dirty, deleted));
    }

    /** One loop of `after_commit` over a snapshot list: `add_to_index` for each
        searchable object. */
    method UpsertEach(objs: seq<Entity>)
      modifies this`index, this`calls
      ensures calls == old(calls) + UpsertCalls(objs)
      ensures index == ApplyAll(old(index), UpsertCalls(objs))
    {
      assert UpsertCalls(objs[..0]) == [];
      for i := 0 to |objs|
        invariant calls == old(calls) + UpsertCalls(objs[..i])
        invariant index == ApplyAll(old(index), UpsertCalls(objs[..i]))
      {
        UpsertCallsSnoc(objs, i);
        var obj := objs[i];
        if IsSearchable(obj) {
          ApplyAllSnoc(old(index), UpsertCalls(objs[..i]), AddToIndex(PostIndex, obj.post));
          IndexPost(PostIndex, obj.post);
        } else {
          assert UpsertCalls(objs[..i + 1]) == UpsertCalls(objs[..i]);
        }
      }
      assert objs[..|objs|] == objs;
    }

    /** The last loop of `after_commit`: `remove_from_index` for each searchable object. */
    method RemoveEach(objs: seq<Entity>)
      modifies this`index, this`calls
      ensures calls == old(calls) + RemoveCalls(objs)
      ensures index == ApplyAll(old(index), RemoveCalls(objs))
    {
      assert RemoveCalls(objs[..0]) == [];
      for i := 0 to |objs|
        invariant calls == old(calls) + RemoveCalls(objs[..i])
        invariant index == ApplyAll(old(index), RemoveCalls(objs[..i]))
      {
        RemoveCallsSnoc(objs, i);
        var obj := objs[i];
        if IsSearchable(obj) {
          ApplyAllSnoc(old(index), RemoveCalls(objs[..i]), RemoveFromIndex(PostIndex, obj.post));
          UnindexPost(PostIndex, obj.post);
        } else {
          assert RemoveCalls(objs[..i + 1]) == RemoveCalls(objs[..i]);
        }
      }
      assert objs[..|objs|] == objs;
    }

    /** `after_commit`: upsert the searchable objects of the `add` and `update` snapshots,
        remove those of the `delete` snapshot, then clear the snapshot. */
    method AfterCommit()
      requires changes.Some?
      modifies this`index, this`calls, this`changes
      ensures calls == old(calls) + CommitCalls(old(changes).value)
      ensures index == ApplyAll(old(index), CommitCalls(old(changes).value))
      ensures changes == None
    {
      var c := changes.value;
      UpsertEach(c.add);
      UpsertEach(c.update);
      RemoveEach(c.delete);
      CommitCallsApply(old(index), c);
      assert calls == old(calls) + UpsertCalls(c.add) + UpsertCalls(c.update) + RemoveCalls(c.delete);
      changes := None;
    }

    /** `Post.reindex()`: upsert every stored row of the `post` table. */
    method Reindex(rows: seq<Post>)
      modifies this`index, this`calls
      ensures calls == old(calls) + ReindexCalls(rows)
      ensures index == ApplyAll(old(index), ReindexCalls(rows))
    {
      assert ReindexCalls(rows[..0]) == [];
      for i := 0 to |rows|
        invariant calls == old(calls) + ReindexCalls(rows[..i])
        invariant index == ApplyAll(old(index), ReindexCalls(rows[..i]))
      {
        ReindexCallsSnoc(rows, i);
        ApplyAllSnoc(old(index), ReindexCalls(rows[..i]), AddToIndex(PostIndex, rows[i]));
        IndexPost(PostIndex, rows[i]);
      }
      assert rows[..|rows|] == rows;
    }
  }
}
