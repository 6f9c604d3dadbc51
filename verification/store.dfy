/**
 * The database the views read and write, as one immutable value, and the
 * query helpers the views use: ordered filtering (`filter(...).order_by`),
 * single-row lookup (`objects.get`), and bulk update (`queryset.update`).
 */
module Store {
  import opened Wrappers
  import opened Models

  // Messages of the views
  const OrderNotFoundMsg := "Order not found"
  const MultipleReturnedMsg := "MultipleObjectsReturned"
  const InvalidActionMsg := "Invalid action"
  const NotPharmacyMsg := "User is not a pharmacy"

  datatype Db = Db(
    users: map<UserId, User>,
    pharmacies: map<PharmacyId, Pharmacy>,
    medicines: map<MedicineId, Medicine>,
    orders: map<RowId, OrderLine>,
    inventory: Inventory,
    deliveries: map<RowId, Delivery>,
    payments: map<RowId, Payment>,
    partnerNotes: seq<PartnerNote>,
    userNotes: seq<UserNote>,
    nextNoteId: nat)

  /** One line of the "stock issues" list an acceptance refusal carries. */
  datatype StockIssue =
    | NotListed(medicine: MedicineId)
    | Short(medicine: MedicineId, available: nat, required: nat)

  /** The error responses: 403, 404, 400, 400 with stock details, and 500. */
  datatype Failure =
    | Forbidden(reason: string)
    | NotFound(reason: string)
    | BadRequest(reason: string)
    | StockIssues(issues: seq<StockIssue>)
    | ServerError(reason: string)

  /**
   * What a view leaves behind: the database after the request (writes are
   * committed one by one, so an error response can follow some writes) and
   * the response body.
   */
  datatype Reply<+T> = Reply(db: Db, body: Result<T, Failure>)

  function Refuse<T>(db: Db, f: Failure): (r: Reply<T>)
    ensures r.db == db && r.body.Failure?
  {
    Reply(db, Failure(f))
  }

  // ---------------------------------------------------------------------------
  // Reading the order table
  // ---------------------------------------------------------------------------

  predicate Distinct<T(==)>(s: seq<T>) {
    forall i, j | 0 <= i < j < |s| :: s[i] != s[j]
  }

  predicate NewestFirst(orders: map<RowId, OrderLine>, rows: seq<RowId>) {
    forall i, j | 0 <= i < j < |rows| && rows[i] in orders && rows[j] in orders ::
      orders[rows[i]].createdAt >= orders[rows[j]].createdAt
  }

  /**
   * `scan` lists every order row once, newest first (the model's default
   * ordering `-created_at`); rows created at the same instant come in the
   * order the database returns them.
   */
  predicate IsScan(db: Db, scan: seq<RowId>) {
    && Distinct(scan)
    && (forall r | r in scan :: r in db.orders)
    && (forall r | r in db.orders :: r in scan)
    && NewestFirst(db.orders, scan)
  }

  /** `filter(keep)` over the scan: the matching rows in scan order. */
  function Select(orders: map<RowId, OrderLine>, scan: seq<RowId>, keep: OrderLine -> bool): (rows: seq<RowId>)
    requires forall r | r in scan :: r in orders
    ensures forall r :: r in rows <==> r in scan && keep(orders[r])
    ensures |rows| <= |scan|
    ensures Distinct(scan) ==> Distinct(rows)
    ensures NewestFirst(orders, scan) ==> NewestFirst(orders, rows)
  {
    if scan == [] then []
    else
      var rest := Select(orders, scan[1..], keep);
      ConsKeeps(orders, scan, rest);
      if keep(orders[scan[0]]) then [scan[0]] + rest else rest
  }

  /** Dropping the head, or keeping it in front of a sub-list of the tail, keeps both orderings. */
  lemma ConsKeeps(orders: map<RowId, OrderLine>, scan: seq<RowId>, rest: seq<RowId>)
    requires scan != [] && forall r | r in scan :: r in orders
    requires forall r | r in rest :: r in scan[1..]
    ensures Distinct(scan) ==> Distinct(scan[1..])
    ensures NewestFirst(orders, scan) ==> NewestFirst(orders, scan[1..])
    ensures Distinct(scan) && Distinct(rest) ==> Distinct([scan[0]] + rest)
    ensures NewestFirst(orders, scan) && NewestFirst(orders, rest) ==> NewestFirst(orders, [scan[0]] + rest)
  {
    var tail := scan[1..];
    var out := [scan[0]] + rest;
    if Distinct(scan) {
      forall i, j | 0 <= i < j < |tail| ensures tail[i] != tail[j] {
        assert tail[i] == scan[i + 1] && tail[j] == scan[j + 1];
      }
      assert scan[0] !in tail by {
        forall k | 0 <= k < |tail| ensures tail[k] != scan[0] {
          assert tail[k] == scan[k + 1];
        }
      }
    }
    if NewestFirst(orders, scan) {
      forall i, j | 0 <= i < j < |tail| && tail[i] in orders && tail[j] in orders
        ensures orders[tail[i]].createdAt >= orders[tail[j]].createdAt
      {
        assert tail[i] == scan[i + 1] && tail[j] == scan[j + 1];
      }
      forall x | x in rest ensures orders[scan[0]].createdAt >= orders[x].createdAt {
        var k :| 0 <= k < |tail| && tail[k] == x;
        assert scan[k + 1] == x;
      }
    }
    if Distinct(scan) && Distinct(rest) {
      forall i, j | 0 <= i < j < |out| ensures out[i] != out[j] {
        assert out[j] == rest[j - 1];
        if i > 0 { assert out[i] == rest[i - 1]; } else { assert out[j] in tail; }
      }
    }
    if NewestFirst(orders, scan) && NewestFirst(orders, rest) {
      forall i, j | 0 <= i < j < |out| && out[i] in orders && out[j] in orders
        ensures orders[out[i]].createdAt >= orders[out[j]].createdAt
      {
        assert out[j] == rest[j - 1];
        if i > 0 { assert out[i] == rest[i - 1]; }
      }
    }
  }

  /** Filtering with two tests that agree on every listed row gives the same rows. */
  lemma {:induction false} SelectCongruent(o1: map<RowId, OrderLine>, o2: map<RowId, OrderLine>, scan: seq<RowId>, k1: OrderLine -> bool, k2: OrderLine -> bool)
    requires forall r | r in scan :: r in o1 && r in o2 && k1(o1[r]) == k2(o2[r])
    ensures Select(o1, scan, k1) == Select(o2, scan, k2)
  {
    if scan != [] {
      SelectCongruent(o1, o2, scan[1..], k1, k2);
    }
  }

  /** Rows that satisfy `keep`, as a set: the reference reading of `Select`. */
  function Matching(orders: map<RowId, OrderLine>, keep: OrderLine -> bool): set<RowId> {
    set r | r in orders && keep(orders[r])
  }

  /** The filter finds nothing exactly when no row matches. */
  lemma SelectEmptyIffNoMatch(db: Db, scan: seq<RowId>, keep: OrderLine -> bool)
    requires IsScan(db, scan)
    ensures Select(db.orders, scan, keep) == [] <==> Matching(db.orders, keep) == {}
  {
    var rows := Select(db.orders, scan, keep);
    if rows != [] {
      assert rows[0] in Matching(db.orders, keep);
    }
  }

  /** A distinct listing of a set has the set's size. */
  lemma {:induction false} DistinctListingSize(rows: seq<RowId>, s: set<RowId>)
    requires Distinct(rows)
    requires forall r :: r in rows <==> r in s
    ensures |rows| == |s|
  {
    if rows != [] {
      var tail := rows[1..];
      assert forall r :: r in tail <==> r in s - {rows[0]} by {
        forall r
          ensures r in tail <==> r in s - {rows[0]}
        {
          if r in tail {
            var k :| 0 <= k < |tail| && tail[k] == r;
            assert rows[k + 1] == r;
          }
          if r in s - {rows[0]} {
            var k :| 0 <= k < |rows| && rows[k] == r;
            assert k != 0;
            assert tail[k - 1] == r;
          }
        }
      }
      DistinctListingSize(tail, s - {rows[0]});
    } else {
      assert s == {};
    }
  }

  /**
   * `Order.objects.get(...)`: the one row that matches. No match is a 404;
   * more than one raises `MultipleObjectsReturned`, which no view catches
   * specifically, so it is a 500.
   */
  function GetOne(db: Db, scan: seq<RowId>, keep: OrderLine -> bool): (r: Result<RowId, Failure>)
    requires IsScan(db, scan)
    ensures r.Success? <==> |Matching(db.orders, keep)| == 1
    ensures r.Success? ==> Matching(db.orders, keep) == {r.value}
    ensures r.Failure? ==> r.error.NotFound? || r.error.ServerError?
    ensures r.Failure? && r.error.NotFound? <==> Matching(db.orders, keep) == {}
  {
    var rows := Select(db.orders, scan, keep);
    DistinctListingSize(rows, Matching(db.orders, keep));
    if |rows| == 0 then Failure(NotFound(OrderNotFoundMsg))
    else if |rows| > 1 then Failure(ServerError(MultipleReturnedMsg))
    else
      assert Matching(db.orders, keep) == {rows[0]} by {
        forall x | x in Matching(db.orders, keep) ensures x == rows[0] {
          assert x in rows;
        }
      }
      Success(rows[0])
  }

  // ---------------------------------------------------------------------------
  // Writing the order table
  // ---------------------------------------------------------------------------

  /** `queryset.update(...)`: applies `f` to the listed rows and leaves every other row as it was. */
  function UpdateRows(orders: map<RowId, OrderLine>, rows: seq<RowId>, f: OrderLine -> OrderLine): (o: map<RowId, OrderLine>)
    ensures o.Keys == orders.Keys
    ensures forall r | r in orders :: o[r] == if r in rows then f(orders[r]) else orders[r]
  {
    map r | r in orders :: if r in rows then f(orders[r]) else orders[r]
  }

  /**
   * With an idempotent change (setting a field, as every `update(...)` of
   * the views does), updating the same rows twice is updating them once,
   * and updating two row lists one after the other is updating their union.
   */
  lemma UpdateRowsTwice(orders: map<RowId, OrderLine>, a: seq<RowId>, b: seq<RowId>, f: OrderLine -> OrderLine)
    requires forall o: OrderLine :: f(f(o)) == f(o)
    ensures UpdateRows(UpdateRows(orders, a, f), a, f) == UpdateRows(orders, a, f)
    ensures UpdateRows(UpdateRows(orders, a, f), b, f) == UpdateRows(orders, a + b, f)
  {
    var once := UpdateRows(orders, a, f);
    assert UpdateRows(once, a, f) == once by {
      forall r | r in orders ensures UpdateRows(once, a, f)[r] == once[r] {
        if r in a {
          assert once[r] == f(orders[r]);
          assert f(f(orders[r])) == f(orders[r]);
        }
      }
    }
    forall r | r in orders ensures UpdateRows(once, b, f)[r] == UpdateRows(orders, a + b, f)[r] {
      assert r in a + b <==> r in a || r in b;
      if r in a && r in b {
        assert f(f(orders[r])) == f(orders[r]);
      }
    }
  }

  function WithStatus(s: OrderStatus): OrderLine -> OrderLine {
    (o: OrderLine) => o.(status := s)
  }
}
