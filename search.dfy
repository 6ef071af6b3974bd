/** Rank-preserving search: `SearchableMixin.search` (app/models.py:21-29). The
    external index answers a query with a page of row ids ranked by relevance and
    the total number of hits; the method fetches exactly those rows from the table
    and orders them by their position in the page with an SQL `CASE`. */
module Search {
  import opened Records
  import opened Sequences

  /** `db.case(whens, value=id)`: the result of the first `WHEN` whose key equals `id`,
      or NULL (`None`) when none does. */
  function Case(whens: seq<(int, int)>, id: int): Option<int> {
    if whens == [] then None
    else if whens[0].0 == id then Some(whens[0].1)
    else Case(whens[1..], id)
  }

  /** The sort key the query orders by. Rows that match no `WHEN` would get NULL;
      the `in_` filter keeps no such row, so the value used for them never matters. */
  function CaseOrder(whens: seq<(int, int)>, id: int): int {
    match Case(whens, id)
    case Some(k) => k
    case None => -1
  }

  /** The position of the first occurrence of `id` in `ids`, or `|ids|` if it does not occur. */
  function Position(ids: seq<int>, id: int): (r: nat)
    ensures r <= |ids|
    ensures r < |ids| <==> id in ids
    ensures r < |ids| ==> ids[r] == id
    ensures forall k | 0 <= k < r :: ids[k] != id
  {
    if ids == [] then 0
    else if ids[0] == id then 0
    else 1 + Position(ids[1..], id)
  }

  /** `cls.query.filter(cls.id.in_(ids))`. */
  function WithIdIn(rows: seq<Post>, ids: seq<int>): (r: seq<Post>)
    ensures forall p :: p in r <==> p in rows && p.id in ids
  {
    if rows == [] then []
    else
      var init, p := rows[..|rows| - 1], rows[|rows| - 1];
      assert rows == init + [p];
      WithIdIn(init, ids) + (if p.id in ids then [p] else [])
  }

  /** `cls.query.filter_by(id=id)`. */
  function WithId(rows: seq<Post>, id: int): (r: seq<Post>)
    ensures forall p :: p in r <==> p in rows && p.id == id
  {
    if rows == [] then []
    else
      var init, p := rows[..|rows| - 1], rows[|rows| - 1];
      assert rows == init + [p];
      WithId(init, id) + (if p.id == id then [p] else [])
  }

  /** The first `WHEN` with key `id` decides the `CASE`. */
  lemma {:induction false} CaseFirstMatch(whens: seq<(int, int)>, id: int, k: nat)
    requires k < |whens| && whens[k].0 == id
    requires forall j | 0 <= j < k :: whens[j].0 != id
    ensures Case(whens, id) == Some(whens[k].1)
  {
    if k > 0 {
      CaseFirstMatch(whens[1..], id, k - 1);
    }
  }

  /** Over the `WHEN` list built from `ids`, the `CASE` is the position of the id. */
  lemma CaseIsPosition(whens: seq<(int, int)>, ids: seq<int>, id: int)
    requires |whens| == |ids| && forall k | 0 <= k < |ids| :: whens[k] == (ids[k], k)
    requires id in ids
    ensures CaseOrder(whens, id) == Position(ids, id)
  {
    CaseFirstMatch(whens, id, Position(ids, id));
  }

  lemma {:induction false} WithIdInKeepsUnique(rows: seq<Post>, ids: seq<int>)
    requires UniqueIds(rows)
    ensures UniqueIds(WithIdIn(rows, ids)) && NoDuplicates(WithIdIn(rows, ids))
  {
    if rows != [] {
      var init, p := rows[..|rows| - 1], rows[|rows| - 1];
      WithIdInKeepsUnique(init, ids);
      var f := WithIdIn(init, ids);
      forall q | q in f ensures q.id != p.id {
        var k :| 0 <= k < |init| && init[k] == q;
        assert rows[k] == q;
      }
      var r := WithIdIn(rows, ids);
      forall i, j | 0 <= i < j < |r| ensures r[i].id != r[j].id {
        if j == |f| { assert r[i] in f; }
      }
    }
  }

  /** Reordering rows with unique keys, without repeating any, keeps the keys unique. */
  lemma PermutationKeepsUniqueIds(a: seq<Post>, b: seq<Post>)
    requires UniqueIds(a) && NoDuplicates(b) && multiset(a) == multiset(b)
    ensures UniqueIds(b)
  {
    forall i, j | 0 <= i < j < |b| ensures b[i].id != b[j].id {
      assert b[i] in multiset(a) && b[j] in multiset(a);
      var x :| 0 <= x < |a| && a[x] == b[i];
      var y :| 0 <= y < |a| && a[y] == b[j];
      assert x != y;
    }
  }

  /** `query.order_by(db.case(whens, value=cls.id))`. */
  function OrderByCase(matching: seq<Post>, whens: seq<(int, int)>): (r: seq<Post>)
    ensures multiset(r) == multiset(matching)
    ensures forall i, j | 0 <= i < j < |r| :: CaseOrder(whens, r[i].id) <= CaseOrder(whens, r[j].id)
  {
    SortBy(matching, (p: Post) => CaseOrder(whens, p.id))
  }

  /** What `search` promises of the rows it returns for the page `ids`: exactly the stored
      rows whose id is in `ids`, each as often as the table holds it, ordered by the position
      of their id in `ids`, strictly so when primary keys are unique. */
  ghost predicate RankedPage(r: seq<Post>, rows: seq<Post>, ids: seq<int>) {
    && multiset(r) == multiset(WithIdIn(rows, ids))
    && (forall p :: p in r <==> p in rows && p.id in ids)
    && (forall i, j | 0 <= i < j < |r| :: Position(ids, r[i].id) <= Position(ids, r[j].id))
    && (UniqueIds(rows) ==> forall i, j | 0 <= i < j < |r| :: Position(ids, r[i].id) < Position(ids, r[j].id))
  }

  /** Ordering the rows of the page by the `CASE` over the `WHEN` list built from `ids`
      orders them by their position in `ids`. */
  lemma RankOrder(rows: seq<Post>, ids: seq<int>, whens: seq<(int, int)>, i: int, j: int)
    requires |whens| == |ids| && forall k | 0 <= k < |ids| :: whens[k] == (ids[k], k)
    requires 0 <= i < j < |OrderByCase(WithIdIn(rows, ids), whens)|
    ensures var r := OrderByCase(WithIdIn(rows, ids), whens);
            Position(ids, r[i].id) <= Position(ids, r[j].id)
            && (UniqueIds(rows) ==> Position(ids, r[i].id) < Position(ids, r[j].id))
  {
    var matching := WithIdIn(rows, ids);
    var r := OrderByCase(matching, whens);
    assert r[i] in multiset(matching) && r[j] in multiset(matching);
    CaseIsPosition(whens, ids, r[i].id);
    CaseIsPosition(whens, ids, r[j].id);
    if UniqueIds(rows) {
      WithIdInKeepsUnique(rows, ids);
      SortByKeepsDistinct(matching, (p: Post) => CaseOrder(whens, p.id));
      PermutationKeepsUniqueIds(matching, r);
    }
  }

  /** The query built from the `WHEN` list of `ids` returns the ranked page. */
  lemma OrderByCaseIsRankedPage(rows: seq<Post>, ids: seq<int>, whens: seq<(int, int)>)
    requires |whens| == |ids| && forall k | 0 <= k < |ids| :: whens[k] == (ids[k], k)
    ensures RankedPage(OrderByCase(WithIdIn(rows, ids), whens), rows, ids)
  {
    var r := OrderByCase(WithIdIn(rows, ids), whens);
    assert forall p :: p in r <==> p in multiset(WithIdIn(rows, ids));
    forall i, j | 0 <= i < j < |r|
      ensures Position(ids, r[i].id) <= Position(ids, r[j].id)
      ensures UniqueIds(rows) ==> Position(ids, r[i].id) < Position(ids, r[j].id)
    {
      RankOrder(rows, ids, whens, i, j);
    }
  }

  /** With positive primary keys, `filter_by(id=0)` matches nothing. */
  lemma {:induction false} NoRowWithIdZero(rows: seq<Post>)
    requires forall p | p in rows :: p.id > 0
    ensures WithId(rows, 0) == []
  {
    if rows != [] {
      var init := rows[..|rows| - 1];
      assert forall p | p in init :: p in rows;
      NoRowWithIdZero(init);
      assert rows[|rows| - 1] in rows;
    }
  }

  /** `search(expression, page, per_page)` given the index's answer `(ids, total)` for
      the query and the table `rows`: the rows of the page ordered by rank, and the total.
      A page without ids but with hits (a page past the last hit) builds a `CASE` without
      any `WHEN`, which SQL rejects: `failed` reports that the returned query cannot run,
      and no rows are produced. */
  method Search(rows: seq<Post>, ids: seq<int>, total: int)
    returns (result: seq<Post>, count: int, failed: bool)
    ensures failed <==> total != 0 && ids == []
    ensures failed ==> result == []
    ensures total == 0 ==> count == 0 && result == WithId(rows, 0)
    ensures total == 0 && (forall p | p in rows :: p.id > 0) ==> result == []
    ensures total != 0 ==> count == total
    ensures total != 0 && !failed ==> RankedPage(result, rows, ids)
  {
    if total == 0 {
      if forall p | p in rows :: p.id > 0 {
        NoRowWithIdZero(rows);
      }
      return WithId(rows, 0), 0, false;
    }
    var when: seq<(int, int)> := [];
    for i := 0 to |ids|
      invariant |when| == i
      invariant forall k | 0 <= k < i :: when[k] == (ids[k], k)
    {
      when := when + [(ids[i], i)];
    }
    count := total;
    if when == [] {
      return [], count, true;
    }
    result := OrderByCase(WithIdIn(rows, ids), when);
    failed := false;
    OrderByCaseIsRankedPage(rows, ids, when);
  }
}
