/**
 * `getAllOrders`: the optional status filter, the offset/limit window over the rows the
 * store returns newest first, and the page count reported beside it.
 */
module Listing {
  import opened Wrappers
  import opened Orders

  /** The query object: 1-based page, page size, optional status filter. */
  datatype OrdersQuery = OrdersQuery(page: int, limit: int, statusId: Option<StatusId>)

  /** The response object. */
  datatype OrdersPage = OrdersPage(data: seq<Order>, page: int, limit: int, totalPages: nat, totalItems: nat)

  /** The request layer only lets through positive page and limit values. */
  predicate ValidQuery(q: OrdersQuery)
  {
    q.page >= 1 && q.limit >= 1
  }

  /** The filter applies only when `statusId` is truthy: present and not the number 0. */
  predicate FilterActive(q: OrdersQuery)
  {
    q.statusId.Some? && q.statusId.value != 0
  }

  predicate Matches(o: Order, q: OrdersQuery)
  {
    FilterActive(q) ==> o.statusId == q.statusId.value
  }

  /** Newest first, as `ORDER BY createdAt DESC` returns them. */
  ghost predicate NewestFirst(s: seq<Order>)
  {
    forall i, j :: 0 <= i < j < |s| ==> s[i].createdAt >= s[j].createdAt
  }

  /** The rows the WHERE clause keeps, in their original order. */
  function Matching(rows: seq<Order>, q: OrdersQuery): (r: seq<Order>)
    ensures |r| <= |rows|
    ensures forall o :: o in r <==> o in rows && Matches(o, q)
    ensures !FilterActive(q) ==> r == rows
  {
    if rows == [] then []
    else (if Matches(rows[0], q) then [rows[0]] else []) + Matching(rows[1..], q)
  }

  /** The filter keeps each matching row as often as the table holds it and drops every other row,
      so `totalItems` counts the matching rows exactly. */
  lemma {:induction false} MatchingMultiset(rows: seq<Order>, q: OrdersQuery)
    ensures forall o :: multiset(Matching(rows, q))[o] == if Matches(o, q) then multiset(rows)[o] else 0
    decreases |rows|
  {
    if rows != [] {
      MatchingMultiset(rows[1..], q);
      assert rows == [rows[0]] + rows[1..];
    }
  }

  /** `skip = (page - 1) * limit`. */
  function Offset(page: int, limit: int): nat
    requires page >= 1 && limit >= 1
  {
    var before: nat := page - 1;
    before * limit
  }

  /** Integer ceiling of `total / limit`, what `Math.ceil` yields for these operands. */
  function CeilDiv(total: nat, limit: int): (pages: nat)
    requires limit >= 1
    ensures total <= pages * limit
    ensures pages == 0 || (pages - 1) * limit < total
  {
    var p := (total + limit - 1) / limit;
    var rem := (total + limit - 1) % limit;
    assert total + limit - 1 == p * limit + rem;
    assert (p - 1) * limit == p * limit - limit;
    p
  }

  /** `take(limit).skip(skip)` over an already filtered and ordered sequence. */
  function Window(s: seq<Order>, skip: nat, limit: nat): (r: seq<Order>)
    ensures |r| == if skip >= |s| then 0 else if |s| - skip < limit then |s| - skip else limit
    ensures forall k :: 0 <= k < |r| ==> r[k] == s[skip + k]
  {
    if skip >= |s| then [] else if |s| - skip < limit then s[skip..] else s[skip..skip + limit]
  }

  /** The page `page` of `s`, for pages of `limit` rows. */
  function PageOf(s: seq<Order>, page: int, limit: int): seq<Order>
    requires page >= 1 && limit >= 1
  {
    Window(s, Offset(page, limit), limit)
  }

  function GetAllOrders(rows: seq<Order>, q: OrdersQuery): (r: OrdersPage)
    requires ValidQuery(q)
    ensures r.page == q.page && r.limit == q.limit
    ensures r.totalItems == |Matching(rows, q)|
    ensures r.totalItems <= r.totalPages * q.limit
    ensures r.totalPages == 0 || (r.totalPages - 1) * q.limit < r.totalItems
    ensures |r.data| <= q.limit
    ensures |r.data| == if Offset(q.page, q.limit) >= r.totalItems then 0
                        else if r.totalItems - Offset(q.page, q.limit) < q.limit then r.totalItems - Offset(q.page, q.limit)
                        else q.limit
    ensures forall k :: 0 <= k < |r.data| ==> r.data[k] == Matching(rows, q)[Offset(q.page, q.limit) + k]
    ensures forall o :: o in r.data ==> o in rows && Matches(o, q)
  {
    var matching := Matching(rows, q);
    var data := PageOf(matching, q.page, q.limit);
    assert forall o :: o in data ==> o in matching by {
      forall o | o in data ensures o in matching {
        var k :| 0 <= k < |data| && data[k] == o;
        assert o == matching[Offset(q.page, q.limit) + k];
      }
    }
    OrdersPage(data, q.page, q.limit, CeilDiv(|matching|, q.limit), |matching|)
  }

  // ---------------------------------------------------------------------------
  // Properties of the listing

  /** Filtering keeps the newest-first order. */
  lemma {:induction false} MatchingNewestFirst(rows: seq<Order>, q: OrdersQuery)
    requires NewestFirst(rows)
    ensures NewestFirst(Matching(rows, q))
    decreases |rows|
  {
    if rows != [] {
      var rest := Matching(rows[1..], q);
      assert NewestFirst(rows[1..]) by {
        forall i, j | 0 <= i < j < |rows[1..]| ensures rows[1..][i].createdAt >= rows[1..][j].createdAt {
          assert rows[1..][i] == rows[i + 1] && rows[1..][j] == rows[j + 1];
        }
      }
      MatchingNewestFirst(rows[1..], q);
      forall o | o in rest ensures rows[0].createdAt >= o.createdAt {
        assert o in rows[1..];
        var k :| 0 <= k < |rows[1..]| && rows[1..][k] == o;
        assert rows[k + 1] == o;
      }
    }
  }

  /** Every page is newest first. */
  lemma PageNewestFirst(rows: seq<Order>, q: OrdersQuery)
    requires ValidQuery(q)
    requires NewestFirst(rows)
    ensures NewestFirst(GetAllOrders(rows, q).data)
  {
    MatchingNewestFirst(rows, q);
    var m := Matching(rows, q);
    var data := GetAllOrders(rows, q).data;
    var skip := Offset(q.page, q.limit);
    forall i, j | 0 <= i < j < |data| ensures data[i].createdAt >= data[j].createdAt {
      assert data[i] == m[skip + i] && data[j] == m[skip + j];
    }
  }

  /** Pages 1..p laid end to end. */
  function PagesUpTo(s: seq<Order>, limit: int, p: nat): seq<Order>
    requires limit >= 1
  {
    if p == 0 then [] else PagesUpTo(s, limit, p - 1) + PageOf(s, p, limit)
  }

  /** The first `p` pages are exactly the first `p * limit` rows (or all of them). */
  lemma {:induction false} PagesUpToPrefix(s: seq<Order>, limit: int, p: nat)
    requires limit >= 1
    ensures PagesUpTo(s, limit, p) == s[..if p * limit < |s| then p * limit else |s|]
  {
    if p > 0 {
      PagesUpToPrefix(s, limit, p - 1);
      assert (p - 1) * limit + limit == p * limit;
    }
  }

  /**
   * Pages 1..totalPages partition the matching rows: laid end to end they give every
   * matching row once, in order.
   */
  lemma PagesCoverMatching(rows: seq<Order>, q: OrdersQuery)
    requires ValidQuery(q)
    ensures PagesUpTo(Matching(rows, q), q.limit, GetAllOrders(rows, q).totalPages) == Matching(rows, q)
  {
    PagesUpToPrefix(Matching(rows, q), q.limit, GetAllOrders(rows, q).totalPages);
  }

  /** Pages after the `pages`-th start at or beyond `pages * limit`. */
  lemma {:induction false} OffsetPastPages(page: int, limit: int, pages: nat)
    requires page >= 1 && limit >= 1 && page - 1 >= pages
    ensures Offset(page, limit) >= pages * limit
    decreases page - 1 - pages
  {
    if page - 1 > pages {
      OffsetPastPages(page - 1, limit, pages);
      assert Offset(page, limit) == Offset(page - 1, limit) + limit;
    }
  }

  /** A page past the last one is empty. */
  lemma PastLastPageEmpty(rows: seq<Order>, q: OrdersQuery)
    requires ValidQuery(q)
    requires q.page > GetAllOrders(rows, q).totalPages
    ensures GetAllOrders(rows, q).data == []
  {
    var r := GetAllOrders(rows, q);
    OffsetPastPages(q.page, q.limit, r.totalPages);
  }

  /** Twenty-five matching rows, ten per page: page 2 is rows 11 to 20, of 3 pages. */
  lemma SecondPageOfTwentyFive(rows: seq<Order>)
    requires |rows| == 25
    ensures var r := GetAllOrders(rows, OrdersQuery(2, 10, None));
            r.data == rows[10..20] && r.totalPages == 3 && r.totalItems == 25
  {
  }
}
