/**
 * The `ram_orders` table as a sequence of rows in insertion order, with the
 * queries the order handlers run against it: one user's rows, the count of
 * pending ones, `ORDER BY order_date DESC LIMIT 5 OFFSET (page-1)*5`, and the
 * text lines the listing prints for each order.
 */
module RamOrders {

  type UserId = int

  /** `order_status` together with the column that only that status fills in. */
  datatype Status = Pending | Success(transactionId: string) | Failed(failureReason: string)

  /**
   * One row. `order_date` is the clock reading at insertion; `ram_bytes` and
   * `price_per_kb` are the values the unseen converters produced.
   */
  datatype RamOrder = RamOrder(
    orderId: nat,
    userId: UserId,
    accountName: string,
    ramBytes: int,
    pricePerKb: real,
    status: Status,
    orderDate: nat)

  /** The most pending orders one user may have. */
  const MaxPending := 5

  /** Orders per listing page. */
  const PageSize := 5

  // ---------------------------------------------------------------------------
  // per-user queries

  /** `WHERE user_id = u`, in table order: every row of `u` and only those. */
  function UserOrders(s: seq<RamOrder>, u: UserId): (r: seq<RamOrder>)
    ensures |r| <= |s|
    ensures forall k :: 0 <= k < |r| ==> r[k].userId == u && r[k] in s
    ensures forall x :: x in s && x.userId == u ==> x in r
  {
    if |s| == 0 then []
    else
      assert s == s[..|s| - 1] + [s[|s| - 1]];
      UserOrders(s[..|s| - 1], u) + (if s[|s| - 1].userId == u then [s[|s| - 1]] else [])
  }

  /**
   * `COUNT(*) ... WHERE user_id = u AND order_status = 'pending'`: zero
   * exactly when the user has no pending row.
   */
  function PendingCount(s: seq<RamOrder>, u: UserId): (n: nat)
    ensures n <= |s|
    ensures n == 0 <==> forall k :: 0 <= k < |s| ==> !(s[k].userId == u && s[k].status.Pending?)
  {
    if |s| == 0 then 0
    else
      assert forall k :: 0 <= k < |s| - 1 ==> s[..|s| - 1][k] == s[k];
      PendingCount(s[..|s| - 1], u) + (if s[|s| - 1].userId == u && s[|s| - 1].status.Pending? then 1 else 0)
  }

  /** The user's pending orders are among the user's orders. */
  lemma {:induction false} PendingCountBound(s: seq<RamOrder>, u: UserId)
    ensures PendingCount(s, u) <= |UserOrders(s, u)|
  {
    if |s| > 0 {
      PendingCountBound(s[..|s| - 1], u);
    }
  }

  /** Appending one row changes only its own user's queries, by that row. */
  lemma AppendOrder(s: seq<RamOrder>, o: RamOrder, u: UserId)
    ensures UserOrders(s + [o], u) == UserOrders(s, u) + (if o.userId == u then [o] else [])
    ensures PendingCount(s + [o], u) == PendingCount(s, u) + (if o.userId == u && o.status.Pending? then 1 else 0)
  {
    assert (s + [o])[..|s|] == s;
  }

  /** AppendOrder for every user at once. */
  lemma AppendOrderEveryUser(s: seq<RamOrder>, o: RamOrder)
    ensures forall v :: UserOrders(s + [o], v) == UserOrders(s, v) + (if o.userId == v then [o] else [])
    ensures forall v :: PendingCount(s + [o], v) == PendingCount(s, v) + (if o.userId == v && o.status.Pending? then 1 else 0)
  {
    forall v {
      AppendOrder(s, o, v);
    }
  }

  /** No user has more pending orders than the limit. */
  ghost predicate WithinLimit(s: seq<RamOrder>)
  {
    forall v :: PendingCount(s, v) <= MaxPending
  }

  /** An insert for a user below the limit keeps every user within it. */
  lemma AppendKeepsLimit(s: seq<RamOrder>, o: RamOrder)
    requires WithinLimit(s)
    requires PendingCount(s, o.userId) < MaxPending
    ensures WithinLimit(s + [o])
  {
    AppendOrderEveryUser(s, o);
  }

  /**
   * An insert that does not check the limit: a user who already has the
   * maximum of pending orders ends up with one more than the limit.
   */
  lemma SixthPendingOrder(s: seq<RamOrder>, o: RamOrder)
    requires PendingCount(s, o.userId) == MaxPending && o.status.Pending?
    ensures PendingCount(s + [o], o.userId) == MaxPending + 1
  {
    AppendOrder(s, o, o.userId);
  }

  /** `DELETE FROM ram_orders WHERE user_id = u`. */
  function WithoutUser(s: seq<RamOrder>, u: UserId): (r: seq<RamOrder>)
    ensures forall k :: 0 <= k < |r| ==> r[k].userId != u
  {
    if |s| == 0 then []
    else WithoutUser(s[..|s| - 1], u) + (if s[|s| - 1].userId == u then [] else [s[|s| - 1]])
  }

  /** WithoutUserQueries for every user at once; the delete keeps every user within the limit. */
  lemma WithoutUserEveryUser(s: seq<RamOrder>, u: UserId)
    ensures forall v :: UserOrders(WithoutUser(s, u), v) == (if v == u then [] else UserOrders(s, v))
    ensures forall v :: PendingCount(WithoutUser(s, u), v) == (if v == u then 0 else PendingCount(s, v))
    ensures WithinLimit(s) ==> WithinLimit(WithoutUser(s, u))
  {
    forall v {
      WithoutUserQueries(s, u, v);
    }
  }

  /** After the delete the user has no orders left and every other user keeps exactly theirs. */
  lemma {:induction false} WithoutUserQueries(s: seq<RamOrder>, u: UserId, v: UserId)
    ensures UserOrders(WithoutUser(s, u), v) == (if v == u then [] else UserOrders(s, v))
    ensures PendingCount(WithoutUser(s, u), v) == (if v == u then 0 else PendingCount(s, v))
  {
    if |s| > 0 {
      var init, last := s[..|s| - 1], s[|s| - 1];
      assert s == init + [last];
      WithoutUserStep(init, last, u);
      WithoutUserQueries(init, u, v);
      AppendOrder(init, last, v);
      if last.userId != u {
        AppendOrder(WithoutUser(init, u), last, v);
      }
    }
  }

  /** The delete on a table with one more row: that row goes exactly when it is the user's. */
  lemma WithoutUserStep(init: seq<RamOrder>, last: RamOrder, u: UserId)
    ensures WithoutUser(init + [last], u) == if last.userId == u then WithoutUser(init, u) else WithoutUser(init, u) + [last]
  {
    assert (init + [last])[..|init|] == init;
    if last.userId == u {
      assert WithoutUser(init, u) + [] == WithoutUser(init, u);
    }
  }

  // ---------------------------------------------------------------------------
  // ORDER BY order_date DESC

  predicate NewestFirst(s: seq<RamOrder>)
  {
    forall i, j :: 0 <= i < j < |s| ==> s[i].orderDate >= s[j].orderDate
  }

  /** A row no older than every row of a newest-first list can go in front of it. */
  lemma PrependNewest(x: RamOrder, s: seq<RamOrder>)
    requires NewestFirst(s)
    requires forall k :: 0 <= k < |s| ==> s[k].orderDate <= x.orderDate
    ensures NewestFirst([x] + s)
  {
    var r := [x] + s;
    forall i, j | 0 <= i < j < |r| ensures r[i].orderDate >= r[j].orderDate {
      if i > 0 { assert r[i] == s[i - 1] && r[j] == s[j - 1]; }
      else { assert r[j] == s[j - 1]; }
    }
  }

  /** Puts `o` into a newest-first list, before the first row that is not newer. */
  function InsertByDate(o: RamOrder, s: seq<RamOrder>): (r: seq<RamOrder>)
    requires NewestFirst(s)
    ensures NewestFirst(r)
    ensures multiset(r) == multiset(s) + multiset{o}
    ensures |r| == |s| + 1
    ensures forall k :: 0 <= k < |r| ==> r[k] == o || r[k] in s
  {
    if |s| == 0 || s[0].orderDate <= o.orderDate then
      PrependNewest(o, s);
      [o] + s
    else
      var tail := s[1..];
      assert s == [s[0]] + tail;
      assert NewestFirst(tail);
      var rest := InsertByDate(o, tail);
      RowsNotNewer(o, tail, rest, s[0].orderDate);
      PrependNewest(s[0], rest);
      [s[0]] + rest
  }

  /** Rows drawn from `tail` or equal to `o`, all no newer than `date`, are no newer than `date`. */
  lemma RowsNotNewer(o: RamOrder, tail: seq<RamOrder>, rest: seq<RamOrder>, date: int)
    requires o.orderDate < date
    requires forall k :: 0 <= k < |tail| ==> tail[k].orderDate <= date
    requires forall k :: 0 <= k < |rest| ==> rest[k] == o || rest[k] in tail
    ensures forall k :: 0 <= k < |rest| ==> rest[k].orderDate <= date
  {
    forall k | 0 <= k < |rest| ensures rest[k].orderDate <= date {
      if rest[k] != o {
        var j :| 0 <= j < |tail| && tail[j] == rest[k];
      }
    }
  }

  /**
   * The rows newest first. Rows with the same date keep table order (SQL
   * leaves their order open).
   */
  function NewestFirstOrder(s: seq<RamOrder>): (r: seq<RamOrder>)
    ensures NewestFirst(r)
    ensures multiset(r) == multiset(s)
    ensures |r| == |s|
  {
    if |s| == 0 then []
    else
      assert s == [s[0]] + s[1..];
      InsertByDate(s[0], NewestFirstOrder(s[1..]))
  }

  // ---------------------------------------------------------------------------
  // paging

  /** `(page - 1) * pageSize`: a multiple of the page size, negative only before page 1. */
  function Offset(page: int): (offset: int)
    ensures offset % PageSize == 0
    ensures offset >= 0 <==> page >= 1
  {
    (page - 1) * PageSize
  }

  /** `Math.ceil(count / pageSize)`: at least one page for any order, never more pages than orders. */
  function TotalPages(total: nat): (pages: nat)
    ensures pages <= total
    ensures total > 0 ==> pages >= 1
  {
    (total + PageSize - 1) / PageSize
  }

  /** TotalPages is the least number of full-size pages that hold every order. */
  lemma TotalPagesIsCeiling(total: nat)
    ensures TotalPages(total) * PageSize >= total
    ensures total > 0 ==> (TotalPages(total) - 1) * PageSize < total
    ensures total == 0 <==> TotalPages(total) == 0
  {
  }

  function Min(a: int, b: int): int { if a <= b then a else b }

  /**
   * `LIMIT 5 OFFSET offset` on the sorted rows; a negative offset reads as
   * 0, as in SQLite. From page 1 on, the page is the run of rows that starts
   * at the offset and is 5 long or stops at the end.
   */
  function PageOf(sorted: seq<RamOrder>, page: int): (r: seq<RamOrder>)
    ensures |r| <= PageSize
    ensures page >= 1 ==> |r| == (if Offset(page) >= |sorted| then 0 else Min(PageSize, |sorted| - Offset(page)))
    ensures page >= 1 ==> forall k :: 0 <= k < |r| ==> r[k] == sorted[Offset(page) + k]
  {
    var start := if Offset(page) < 0 then 0 else Offset(page);
    var lo := Min(start, |sorted|);
    var hi := Min(start + PageSize, |sorted|);
    sorted[lo..hi]
  }

  /** Order number k (from 0, newest first) is entry k % 5 of page k / 5 + 1, a page that exists. */
  lemma OrderOnItsPage(sorted: seq<RamOrder>, k: nat)
    requires k < |sorted|
    ensures 1 <= k / PageSize + 1 <= TotalPages(|sorted|)
    ensures k % PageSize < |PageOf(sorted, k / PageSize + 1)|
    ensures PageOf(sorted, k / PageSize + 1)[k % PageSize] == sorted[k]
  {
    var p := k / PageSize + 1;
    assert Offset(p) == k - k % PageSize;
  }

  /**
   * From page 1 on, the header's "shown" figure `offset + page length` is
   * below the total exactly when a later page exists.
   */
  lemma ShownBelowTotal(sorted: seq<RamOrder>, page: int)
    requires page >= 1
    ensures Offset(page) + |PageOf(sorted, page)| < |sorted| <==> page < TotalPages(|sorted|)
    ensures page <= TotalPages(|sorted|) ==> Offset(page) + |PageOf(sorted, page)| == Min(page * PageSize, |sorted|)
  {
  }

  // ---------------------------------------------------------------------------
  // listing lines

  /** The lines of the order listing, without their formatting. */
  datatype Line =
    | OrderLine(order: RamOrder)        // account, amount, price, status, date
    | TransactionLine(transactionId: string)
    | FailureLine(failureReason: string)
    | BlankLine
    | NoOrdersLine                      // "No RAM orders found."

  /**
   * What one order adds to the listing: its line, a transaction or failure
   * line unless it is pending, and a blank line.
   */
  function OrderBlock(o: RamOrder): (block: seq<Line>)
    ensures |block| == (if o.status.Pending? then 2 else 3)
    ensures block[0] == OrderLine(o) && block[|block| - 1] == BlankLine
    ensures forall k :: 0 < k < |block| ==> !block[k].OrderLine?
  {
    [OrderLine(o)]
    + (match o.status
       case Success(id) => [TransactionLine(id)]
       case Failed(reason) => [FailureLine(reason)]
       case Pending => [])
    + [BlankLine]
  }

  /** The blocks of `os` one after the other. */
  function Blocks(os: seq<RamOrder>): seq<Line>
  {
    if |os| == 0 then [] else Blocks(os[..|os| - 1]) + OrderBlock(os[|os| - 1])
  }

  /** The orders the listing names, in the order it names them. */
  function ListedOrders(lines: seq<Line>): seq<RamOrder>
  {
    if |lines| == 0 then []
    else ListedOrders(lines[..|lines| - 1]) + (if lines[|lines| - 1].OrderLine? then [lines[|lines| - 1].order] else [])
  }

  lemma {:induction false} ListedOrdersAppend(a: seq<Line>, b: seq<Line>)
    ensures ListedOrders(a + b) == ListedOrders(a) + ListedOrders(b)
  {
    if |b| > 0 {
      ListedOrdersAppend(a, b[..|b| - 1]);
      assert (a + b)[..|a + b| - 1] == a + b[..|b| - 1];
    } else {
      assert a + b == a;
    }
  }

  /** One order's block names that order alone. */
  lemma ListedOrdersOfBlock(o: RamOrder)
    ensures ListedOrders(OrderBlock(o)) == [o]
  {
    var mid: seq<Line> := match o.status
      case Success(id) => [TransactionLine(id)]
      case Failed(reason) => [FailureLine(reason)]
      case Pending => [];
    assert OrderBlock(o) == [OrderLine(o)] + mid + [BlankLine];
    ListedOrdersAppend([OrderLine(o)] + mid, [BlankLine]);
    ListedOrdersAppend([OrderLine(o)], mid);
    assert [OrderLine(o)][..0] == [];
    assert [BlankLine][..0] == [];
    if |mid| == 1 { assert mid[..0] == []; }
  }

  /** The listing names exactly the page's orders, in page order, and nothing else. */
  lemma {:induction false} ListedOrdersOfBlocks(os: seq<RamOrder>)
    ensures ListedOrders(Blocks(os)) == os
  {
    if |os| > 0 {
      var init, last := os[..|os| - 1], os[|os| - 1];
      ListedOrdersOfBlocks(init);
      ListedOrdersAppend(Blocks(init), OrderBlock(last));
      ListedOrdersOfBlock(last);
      assert init + [last] == os;
    }
  }
}
