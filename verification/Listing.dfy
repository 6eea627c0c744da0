/** `list_orders_by_user`: a limited listing determined by the stored set of orders. */
module Listing {
  import opened Wrappers
  import opened Sets
  import opened Sorting
  import opened Settings
  import opened OrderStore

  /** ORDER BY created_at DESC, id DESC: whether one row comes before another. */
  predicate Newer(a: Order, b: Order) {
    a.createdAt > b.createdAt || (a.createdAt == b.createdAt && a.id > b.id)
  }

  /** `min(limit or default_list_limit, max_list_limit)`: no limit and zero both mean the default. */
  function SafeLimit(s: Settings, limit: Option<int>): int {
    var asked := if limit.Some? && limit.value != 0 then limit.value else s.defaultListLimit;
    if asked < s.maxListLimit then asked else s.maxListLimit
  }

  /** The rows of a user, in the order the table happens to hold them. */
  function RowsOf(table: seq<Order>, userId: int): seq<Order> {
    if table == [] then []
    else (if table[0].userId == userId then [table[0]] else []) + RowsOf(table[1..], userId)
  }

  /** The query: the rows of the user, newest first, cut at the limit; a negative LIMIT is an error. */
  function ListOrders(s: Settings, table: seq<Order>, userId: int, limit: Option<int>): Option<seq<Order>> {
    var n := SafeLimit(s, limit);
    if n < 0 then None
    else
      var rows := Sort(RowsOf(table, userId), Newer);
      Some(if n < |rows| then rows[..n] else rows)
  }

  /** PRIMARY KEY (user_id, id) over the rows of a table. */
  ghost predicate KeyedRows(table: seq<Order>) {
    forall i, j | 0 <= i < j < |table| :: PkOf(table[i]) != PkOf(table[j])
  }

  /**
   * What a listing is, said without sorting: newest first, of the right length, rows of the user only, and
   * no row left out that is newer than one included.
   */
  ghost predicate IsListing(rows: set<Order>, userId: int, limit: nat, result: seq<Order>) {
    var mine := set o | o in rows && o.userId == userId;
    && Ascending(result, Newer)
    && |result| == (if limit < |mine| then limit else |mine|)
    && (forall o | o in result :: o in mine)
    && (forall o, p | o in result && p in mine && p !in result :: Newer(o, p))
  }

  // ---- proofs -----------------------------------------------------------------------

  lemma NewerIsOrder()
    ensures StrictOrder(Newer)
  {}

  lemma {:induction false} RowsOfMembers(table: seq<Order>, userId: int)
    ensures forall o :: o in RowsOf(table, userId) <==> o in table && o.userId == userId
  {
    if table != [] {
      RowsOfMembers(table[1..], userId);
      assert forall o :: o in table <==> o == table[0] || o in table[1..];
    }
  }

  /** Two rows of one user differ in their id, so one of them is newer. */
  lemma RowsApart(table: seq<Order>, o: Order)
    requires KeyedRows(table) && table != [] && o in table[1..] && o.userId == table[0].userId
    ensures Newer(table[0], o) || Newer(o, table[0])
  {
    var k :| 0 <= k < |table[1..]| && table[1..][k] == o;
    assert PkOf(table[0]) != PkOf(table[k + 1]);
  }

  lemma {:induction false} RowsOfComparable(table: seq<Order>, userId: int)
    requires KeyedRows(table)
    ensures Comparable(RowsOf(table, userId), Newer)
  {
    if table != [] {
      RowsOfComparable(table[1..], userId);
      RowsOfMembers(table[1..], userId);
      var rest := RowsOf(table[1..], userId);
      if table[0].userId == userId {
        forall j | 0 <= j < |rest| ensures Newer(table[0], rest[j]) || Newer(rest[j], table[0]) {
          assert rest[j] in rest;
          RowsApart(table, rest[j]);
        }
        ComparableCons(table[0], rest);
      } else {
        assert [] + rest == rest;
      }
    }
  }

  lemma ComparableCons(o: Order, rest: seq<Order>)
    requires Comparable(rest, Newer)
    requires forall j | 0 <= j < |rest| :: Newer(o, rest[j]) || Newer(rest[j], o)
    ensures Comparable([o] + rest, Newer)
  {}

  lemma {:induction false} AscendingSize(q: seq<Order>)
    requires Ascending(q, Newer)
    ensures |Elements(q)| == |q|
  {
    if q == [] {
      assert Elements(q) == {};
    } else {
      AscendingSize(q[1..]);
      assert q == [q[0]] + q[1..];
      assert Elements(q) == {q[0]} + Elements(q[1..]);
      assert q[0] !in q[1..];
    }
  }

  lemma SortedRows(table: seq<Order>, userId: int) returns (rows: seq<Order>)
    requires KeyedRows(table)
    ensures rows == Sort(RowsOf(table, userId), Newer) && Ascending(rows, Newer)
    ensures forall o :: o in rows <==> o in Elements(table) && o.userId == userId
    ensures |rows| == |set o | o in Elements(table) && o.userId == userId|
  {
    rows := Sort(RowsOf(table, userId), Newer);
    NewerIsOrder();
    RowsOfComparable(table, userId);
    SortAscending(RowsOf(table, userId), Newer);
    SameElements(rows, RowsOf(table, userId));
    RowsOfMembers(table, userId);
    AscendingSize(rows);
    assert Elements(rows) == set o | o in Elements(table) && o.userId == userId;
  }

  /** A prefix of the sorted rows is a listing of its length. */
  lemma PrefixIsListing(rows: seq<Order>, all: set<Order>, userId: int, n: nat)
    requires Ascending(rows, Newer)
    requires forall o :: o in rows <==> o in all && o.userId == userId
    requires |rows| == |set o | o in all && o.userId == userId|
    ensures IsListing(all, userId, n, if n < |rows| then rows[..n] else rows)
  {
    var result := if n < |rows| then rows[..n] else rows;
    forall o, p | o in result && p in rows && p !in result ensures Newer(o, p) {
      var i :| 0 <= i < |result| && result[i] == o;
      var j :| 0 <= j < |rows| && rows[j] == p;
      assert j >= |result|;
      assert rows[i] == o;
    }
  }

  lemma CommonPrefix(rows: seq<Order>, result: seq<Order>)
    requires Ascending(rows, Newer) && Ascending(result, Newer) && |result| <= |rows|
    requires forall o | o in result :: o in rows
    requires forall o, p | o in result && p in rows && p !in result :: Newer(o, p)
    ensures result == rows[..|result|]
  {
    NewerIsOrder();
    var n := |result|;
    forall i | 0 <= i < n ensures rows[i] in result {
      FirstRowsListed(rows, result, i);
    }
    var head := rows[..n];
    assert Elements(head) <= Elements(result) by {
      forall o | o in Elements(head) ensures o in result {
        var i :| 0 <= i < n && head[i] == o;
        assert rows[i] == o;
      }
    }
    AscendingSize(head);
    AscendingSize(result);
    SubsetEqual(Elements(head), Elements(result));
    assert forall o :: o in head <==> o in Elements(head);
    assert forall o :: o in result <==> o in Elements(result);
    AscendingUnique(head, result, Newer);
  }

  /** If one of the first rows were left out, every row listed would come before it, and there are too few of those. */
  lemma FirstRowsListed(rows: seq<Order>, result: seq<Order>, i: nat)
    requires Ascending(rows, Newer) && Ascending(result, Newer) && i < |result| <= |rows|
    requires forall o | o in result :: o in rows
    requires forall o, p | o in result && p in rows && p !in result :: Newer(o, p)
    ensures rows[i] in result
  {
    if rows[i] !in result {
      assert rows[i] in rows;
      forall o | o in result ensures o in Elements(rows[..i]) {
        assert Newer(o, rows[i]);
        var k :| 0 <= k < |rows| && rows[k] == o;
        assert k < i;
        assert rows[..i][k] == o;
      }
      AscendingSize(result);
      AscendingSize(rows[..i]);
      SubsetSize(Elements(result), Elements(rows[..i]));
      assert false;
    }
  }

  lemma SubsetEqual(a: set<Order>, b: set<Order>)
    requires a <= b && |a| == |b|
    ensures a == b
  {
    if a != b {
      var x :| x in b && x !in a;
      SubsetSize(a, b - {x});
    }
  }

  /** There is exactly one listing of a set of rows for a user and a limit. */
  lemma ListingUnique(rows: seq<Order>, all: set<Order>, userId: int, n: nat, result: seq<Order>)
    requires Ascending(rows, Newer)
    requires forall o :: o in rows <==> o in all && o.userId == userId
    requires |rows| == |set o | o in all && o.userId == userId|
    requires IsListing(all, userId, n, result)
    ensures result == if n < |rows| then rows[..n] else rows
  {
    CommonPrefix(rows, result);
    assert rows[..|rows|] == rows;
  }

  /**
   * The listing for a non-negative effective limit is the one and only listing of the stored set of rows:
   * the order in which rows were inserted does not show.
   */
  lemma DeterminedBySet(s: Settings, table: seq<Order>, userId: int, limit: Option<int>, result: seq<Order>)
    requires KeyedRows(table) && SafeLimit(s, limit) >= 0
    ensures ListOrders(s, table, userId, limit) == Some(result) <==>
            IsListing(Elements(table), userId, SafeLimit(s, limit), result)
  {
    var rows := SortedRows(table, userId);
    PrefixIsListing(rows, Elements(table), userId, SafeLimit(s, limit));
    if IsListing(Elements(table), userId, SafeLimit(s, limit), result) {
      ListingUnique(rows, Elements(table), userId, SafeLimit(s, limit), result);
    }
  }

  /** A listing with a smaller effective limit is a prefix of one with a larger limit. */
  lemma SmallerLimitIsPrefix(s: Settings, table: seq<Order>, userId: int, low: Option<int>, high: Option<int>)
    requires 0 <= SafeLimit(s, low) <= SafeLimit(s, high)
    ensures ListOrders(s, table, userId, low).value <= ListOrders(s, table, userId, high).value
  {
    var rows := Sort(RowsOf(table, userId), Newer);
    if SafeLimit(s, high) < |rows| {
      assert rows[..SafeLimit(s, high)][..SafeLimit(s, low)] == rows[..SafeLimit(s, low)];
    }
  }

  // ---- the order and the length, spelled out ---------------------------------------------

  /** A listing is newest first, the larger id first among rows of one time, and leaves out older rows only. */
  lemma NewestFirst(rows: set<Order>, userId: int, limit: nat, result: seq<Order>)
    requires IsListing(rows, userId, limit, result)
    ensures forall i, j | 0 <= i < j < |result| ::
              || result[i].createdAt > result[j].createdAt
              || (result[i].createdAt == result[j].createdAt && result[i].id > result[j].id)
    ensures forall o, p | o in result && p in rows && p.userId == userId && p !in result ::
              o.createdAt > p.createdAt || (o.createdAt == p.createdAt && o.id > p.id)
  {}

  /** A limit within the range that the reader service accepts is the limit of the listing. */
  lemma ListedAsAsked(s: Settings, table: seq<Order>, userId: int, limit: nat, result: seq<Order>)
    requires KeyedRows(table) && 1 <= limit <= s.maxListLimit
    ensures ListOrders(s, table, userId, Some(limit)) == Some(result) <==>
            IsListing(Elements(table), userId, limit, result)
  {
    DeterminedBySet(s, table, userId, Some(limit), result);
  }

  /** Without a limit the default counts, and never more than the maximum. */
  lemma ListedByDefault(s: Settings, table: seq<Order>, userId: int)
    requires Ranged(s)
    ensures ListOrders(s, table, userId, None) == ListOrders(s, table, userId, Some(0))
    ensures ListOrders(s, table, userId, None) == ListOrders(s, table, userId, Some(s.defaultListLimit))
    ensures forall n | n >= s.maxListLimit ::
              ListOrders(s, table, userId, Some(n)) == ListOrders(s, table, userId, Some(s.maxListLimit))
  {}
}
