/**
 * The administrator's delivery screen (`admin/ManageDelivery.jsx`): the
 * status filter, the two orderings, the summary counts, the status colours
 * and the guards of the assignment dialog. Deliveries are the rows the
 * delivery list endpoint returns, reduced to the fields the screen reads.
 */
module ManageDelivery {
  import opened Wrappers
  import opened Models

  /** A delivery as the screen sees it; `createdAt` is the parsed timestamp in milliseconds. */
  datatype Row = Row(id: nat, status: string, createdAt: Option<int>, driverName: Option<string>)

  // ---------------------------------------------------------------------------
  // Filtering
  // ---------------------------------------------------------------------------

  /** `deliveries.filter(d => d.status === status)`. */
  function WithStatus(ds: seq<Row>, status: string): (r: seq<Row>)
    ensures forall d :: d in r <==> d in ds && d.status == status
    ensures |r| <= |ds|
  {
    if ds == [] then []
    else
      var rest := WithStatus(ds[..|ds| - 1], status);
      var last := ds[|ds| - 1];
      assert ds == ds[..|ds| - 1] + [last];
      if last.status == status then rest + [last] else rest
  }

  /** Filtering a concatenation filters each part and keeps them in order: the filter never reorders. */
  lemma {:induction false} WithStatusAppend(a: seq<Row>, b: seq<Row>, status: string)
    ensures WithStatus(a + b, status) == WithStatus(a, status) + WithStatus(b, status)
    decreases |b|
  {
    if b == [] {
      assert a + b == a;
    } else {
      var b', last := b[..|b| - 1], b[|b| - 1];
      var ab := a + b;
      assert ab[..|ab| - 1] == a + b' && ab[|ab| - 1] == last;
      var tail := if last.status == status then [last] else [];
      assert WithStatus(ab, status) == WithStatus(a + b', status) + tail;
      assert WithStatus(b, status) == WithStatus(b', status) + tail;
      WithStatusAppend(a, b', status);
      assert WithStatus(a, status) + WithStatus(b', status) + tail == WithStatus(a, status) + (WithStatus(b', status) + tail);
    }
  }

  /** The filter step: "all" keeps every delivery, any other value keeps that status. */
  function FilterStep(ds: seq<Row>, filter: string): (r: seq<Row>)
    ensures filter == "all" ==> r == ds
    ensures filter != "all" ==> forall d :: d in r <==> d in ds && d.status == filter
  {
    if filter == "all" then ds else WithStatus(ds, filter)
  }

  // ---------------------------------------------------------------------------
  // Ordering
  // ---------------------------------------------------------------------------

  /** `new Date(d.created_at || 0)`: a missing date counts as the epoch. */
  function CreatedKey(d: Row): int {
    d.createdAt.GetOr(0)
  }

  /** The "urgent" rank; statuses outside the table have none. */
  function UrgentRank(status: string): Option<int> {
    if status == "pending" then Some(0)
    else if status == "assigned" then Some(1)
    else if status == "in_transit" then Some(2)
    else if status == "delivered" then Some(3)
    else None
  }

  predicate SortedBy(ds: seq<Row>, key: Row -> int) {
    forall i, j | 0 <= i < j < |ds| :: key(ds[i]) >= key(ds[j])
  }

  lemma ConsSortedBy(d: Row, ds: seq<Row>, key: Row -> int)
    requires SortedBy(ds, key)
    requires forall x | x in ds :: key(x) <= key(d)
    ensures SortedBy([d] + ds, key)
  {
    var r := [d] + ds;
    forall i, j | 0 <= i < j < |r| ensures key(r[i]) >= key(r[j]) {
      assert r[j] == ds[j - 1];
      if i > 0 { assert r[i] == ds[i - 1]; }
    }
  }

  /** Places `d` before the first row whose key is not larger, so equal keys keep their order. */
  function InsertBy(d: Row, ds: seq<Row>, key: Row -> int): (r: seq<Row>)
    ensures multiset(r) == multiset(ds) + multiset{d}
    ensures SortedBy(ds, key) ==> SortedBy(r, key)
  {
    if ds == [] || key(ds[0]) <= key(d) then
      (if SortedBy(ds, key) then
         assert forall x | x in ds :: key(x) <= key(d) by {
           forall x | x in ds ensures key(x) <= key(d) {
             var k :| 0 <= k < |ds| && ds[k] == x;
             if k > 0 { assert key(ds[0]) >= key(ds[k]); }
           }
         }
         ConsSortedBy(d, ds, key);
         [d] + ds
       else [d] + ds)
    else
      var rest := InsertBy(d, ds[1..], key);
      assert ds == [ds[0]] + ds[1..];
      (if SortedBy(ds, key) then
         assert forall x | x in rest :: key(x) <= key(ds[0]) by {
           forall x | x in rest ensures key(x) <= key(ds[0]) {
             assert x in multiset(rest);
             if x != d {
               assert x in multiset(ds[1..]);
               var k :| 0 <= k < |ds[1..]| && ds[1..][k] == x;
               assert ds[k + 1] == x;
             }
           }
         }
         ConsSortedBy(ds[0], rest, key);
         [ds[0]] + rest
       else [ds[0]] + rest)
  }

  /** A stable sort, largest key first: a permutation of its input, in key order. */
  function SortBy(ds: seq<Row>, key: Row -> int): (r: seq<Row>)
    ensures multiset(r) == multiset(ds)
    ensures SortedBy(r, key)
  {
    if ds == [] then []
    else
      assert ds == [ds[0]] + ds[1..];
      InsertBy(ds[0], SortBy(ds[1..], key), key)
  }

  /** A list already in key order comes out unchanged. */
  lemma {:induction false} SortByKeepsSorted(ds: seq<Row>, key: Row -> int)
    requires SortedBy(ds, key)
    ensures SortBy(ds, key) == ds
  {
    if ds != [] {
      SortByKeepsSorted(ds[1..], key);
      assert ds == [ds[0]] + ds[1..];
    }
  }

  /** Every row's status has an urgency rank. */
  predicate AllRanked(ds: seq<Row>) {
    forall i | 0 <= i < |ds| :: UrgentRank(ds[i].status).Some?
  }

  /** Urgency as a descending key: pending first, delivered last. */
  function UrgencyKey(d: Row): int {
    match UrgentRank(d.status) case Some(k) => -k case None => 0
  }

  /** The "urgent" order: by rank, or `None` when some status has no rank. */
  function UrgentOrder(ds: seq<Row>): (r: Option<seq<Row>>)
    ensures r.None? <==> !AllRanked(ds)
    ensures r.Some? ==> multiset(r.value) == multiset(ds)
    ensures r.Some? ==>
      AllRanked(r.value) && forall i, j | 0 <= i < j < |r.value| :: UrgentRank(r.value[i].status).value <= UrgentRank(r.value[j].status).value
  {
    if !AllRanked(ds) then None
    else
      var sorted := SortBy(ds, UrgencyKey);
      assert forall i | 0 <= i < |sorted| :: UrgentRank(sorted[i].status).Some? by {
        forall i | 0 <= i < |sorted| ensures UrgentRank(sorted[i].status).Some? {
          assert sorted[i] in multiset(ds);
          var k :| 0 <= k < |ds| && ds[k] == sorted[i];
        }
      }
      Some(sorted)
  }

  /**
   * `getFilteredDeliveries`: filter, then order. "recent" is newest first
   * (a missing date is the epoch); "urgent" is pending, assigned,
   * in_transit, delivered, and is `None` when some status has no rank (the
   * comparator then yields NaN and the order is up to the engine); any
   * other choice keeps the filtered order.
   */
  function Filtered(ds: seq<Row>, filter: string, sortBy: string): (r: Option<seq<Row>>)
    ensures r.Some? ==> multiset(r.value) == multiset(FilterStep(ds, filter))
    ensures r.None? <==> sortBy == "urgent" && !AllRanked(FilterStep(ds, filter))
    ensures r.Some? && sortBy == "recent" ==> SortedBy(r.value, CreatedKey)
    ensures r.Some? && sortBy == "urgent" ==> r == UrgentOrder(FilterStep(ds, filter))
    ensures sortBy != "recent" && sortBy != "urgent" ==> r == Some(FilterStep(ds, filter))
  {
    var kept := FilterStep(ds, filter);
    if sortBy == "recent" then Some(SortBy(kept, CreatedKey))
    else if sortBy == "urgent" then UrgentOrder(kept)
    else Some(kept)
  }

  // ---------------------------------------------------------------------------
  // Counts
  // ---------------------------------------------------------------------------

  predicate InProgress(status: string) {
    status == "assigned" || status == "in_transit" || status == "out_for_delivery"
  }

  datatype Stats = Stats(total: nat, pending: nat, inProgress: nat, completed: nat)

  function CountWhere(ds: seq<Row>, p: string -> bool): (k: nat)
    ensures k <= |ds|
  {
    if ds == [] then 0 else CountWhere(ds[..|ds| - 1], p) + if p(ds[|ds| - 1].status) then 1 else 0
  }

  /** The summary cards. */
  function Summary(ds: seq<Row>): (s: Stats)
    ensures s.total == |ds|
    ensures s.pending + s.inProgress + s.completed <= s.total
  {
    var s := Stats(|ds|, CountWhere(ds, st => st == "pending"), CountWhere(ds, InProgress), CountWhere(ds, st => st == "delivered"));
    DisjointCounts(ds);
    s
  }

  /** The three counted groups of statuses are disjoint, so together they count each delivery at most once. */
  lemma {:induction false} DisjointCounts(ds: seq<Row>)
    ensures CountWhere(ds, st => st == "pending") + CountWhere(ds, InProgress) + CountWhere(ds, st => st == "delivered") <= |ds|
  {
    if ds != [] {
      DisjointCounts(ds[..|ds| - 1]);
    }
  }

  /**
   * Of the declared delivery statuses, exactly `assigned` and
   * `in_transit` count as in progress; a delivery at pickup or failed is
   * in none of the three groups.
   */
  lemma InProgressStatuses(d: DeliveryStatus)
    ensures InProgress(DeliveryStatusName(d)) <==> d == Assigned || d == InTransit
    ensures d == AtPickup || d == DeliveryFailed ==>
      !InProgress(DeliveryStatusName(d)) && DeliveryStatusName(d) != "pending" && DeliveryStatusName(d) != "delivered"
  {
  }

  // ---------------------------------------------------------------------------
  // Colours
  // ---------------------------------------------------------------------------

  const DefaultColour := "#6b7280"

  /** The statuses with a colour of their own, in the table's order. */
  const ColouredStatuses: seq<string> :=
    ["pending", "assigned", "at_pickup", "in_transit", "out_for_delivery", "delivered", "cancelled"]

  /**
   * `getStatusColor`: the table's colour, else grey. In the browser the
   * table is an object literal, so a name it inherits from
   * `Object.prototype` (`constructor`, `toString`, ...) is not grey there;
   * the server never sends such a status (see `ServerStatusColour`).
   */
  function StatusColour(status: string): (c: string)
    ensures c == DefaultColour <==> status !in ColouredStatuses
  {
    if status == "pending" then "#f59e0b"
    else if status == "assigned" then "#3b82f6"
    else if status == "at_pickup" then "#8b5cf6"
    else if status == "in_transit" then "#06b6d4"
    else if status == "out_for_delivery" then "#ec4899"
    else if status == "delivered" then "#10b981"
    else if status == "cancelled" then "#ef4444"
    else DefaultColour
  }

  /** Of the statuses a delivery can have, only `failed` is shown in grey. */
  lemma ServerStatusColour(d: DeliveryStatus)
    ensures StatusColour(DeliveryStatusName(d)) == DefaultColour <==> d == DeliveryFailed
  {
  }

  /** The seven coloured statuses all look different. */
  lemma ColoursDistinct(a: string, b: string)
    requires a in ColouredStatuses && b in ColouredStatuses && a != b
    ensures StatusColour(a) != StatusColour(b)
  {
  }

  // ---------------------------------------------------------------------------
  // Assignment
  // ---------------------------------------------------------------------------

  /** The Assign button: only for a delivery without a driver name. */
  predicate OffersAssign(d: Row) {
    d.driverName.None? || d.driverName.value == ""
  }

  /** The request `handleAssignPartner` sends. */
  datatype AssignCall = AssignCall(delivery: nat, driver: string)

  /** `handleAssignPartner`: no request unless a delivery and a partner are both chosen. */
  function AssignPartner(selected: Option<Row>, partner: Option<string>): (r: Option<AssignCall>)
    ensures r.Some? <==> selected.Some? && partner.Some? && partner.value != ""
    ensures r.Some? ==> r.value.delivery == selected.value.id && r.value.driver == partner.value
  {
    if selected.None? || partner.None? || partner.value == "" then None
    else Some(AssignCall(selected.value.id, partner.value))
  }
}
