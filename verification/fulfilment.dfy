/**
 * The pharmacy side of `views.py`: `pharmacy_accept_order` (accept or
 * reject a whole group of lines that share an `order_id`) and the stock
 * level written by the inventory viewset (`PharmacyMedicineViewSet`).
 */
module Fulfilment {
  import opened Wrappers
  import opened Models
  import opened Store

  // Messages of the views
  const NotFoundMsg := "Not found"
  const UniqueViolationMsg := "IntegrityError: UNIQUE constraint failed"
  const ForeignKeyViolationMsg := "IntegrityError: FOREIGN KEY constraint failed"
  const UnpaidMsg := "Payment is not completed for this order"
  const NewOrderNoteTitle := "New Delivery Order Available"

  datatype Action = Accept | Reject | OtherAction(name: string)

  /** The lines of one group at one pharmacy: `filter(order_id=..., pharmacy=...)`. */
  function GroupAt(orderId: string, ph: PharmacyId): OrderLine -> bool {
    (o: OrderLine) => o.orderId == orderId && o.pharmacy == Some(ph)
  }

  /** `couriers` lists every active delivery user once (`filter(role='delivery', is_active=True)`). */
  predicate CourierList(db: Db, couriers: seq<UserId>) {
    && Distinct(couriers)
    && (forall u | u in couriers :: u in db.users && db.users[u].role == Courier && db.users[u].active)
    && (forall u | u in db.users && db.users[u].role == Courier && db.users[u].active :: u in couriers)
  }

  // ---------------------------------------------------------------------------
  // The stock check
  // ---------------------------------------------------------------------------

  /** The line's medicine is listed and has enough stock (lines without a medicine are skipped). */
  predicate Stocked(inv: Inventory, ph: PharmacyId, o: OrderLine) {
    o.medicine.Some? ==>
      (ph, o.medicine.value) in inv && inv[(ph, o.medicine.value)].stock >= o.quantity
  }

  /** The problem a line has, if any. */
  function IssueOf(inv: Inventory, ph: PharmacyId, o: OrderLine): (i: Option<StockIssue>)
    ensures i.None? <==> Stocked(inv, ph, o)
  {
    if o.medicine.None? then None
    else
      var key := (ph, o.medicine.value);
      if key !in inv then Some(NotListed(o.medicine.value))
      else if inv[key].stock < o.quantity then Some(Short(o.medicine.value, inv[key].stock, o.quantity))
      else None
  }

  /** Every line's problem, in listing order: all of them are reported, not just the first. */
  function StockIssuesOf(inv: Inventory, ph: PharmacyId, orders: map<RowId, OrderLine>, rows: seq<RowId>): (issues: seq<StockIssue>)
    requires forall r | r in rows :: r in orders
    ensures |issues| <= |rows|
    ensures forall r | r in rows && IssueOf(inv, ph, orders[r]).Some? :: IssueOf(inv, ph, orders[r]).value in issues
    ensures forall i | i in issues :: exists r :: r in rows && IssueOf(inv, ph, orders[r]) == Some(i)
  {
    if rows == [] then []
    else
      var rest := StockIssuesOf(inv, ph, orders, rows[1..]);
      match IssueOf(inv, ph, orders[rows[0]])
      case None => rest
      case Some(i) => [i] + rest
  }

  lemma NoIssuesIffStocked(inv: Inventory, ph: PharmacyId, orders: map<RowId, OrderLine>, rows: seq<RowId>)
    requires forall r | r in rows :: r in orders
    ensures StockIssuesOf(inv, ph, orders, rows) == [] <==> forall r | r in rows :: Stocked(inv, ph, orders[r])
  {
    if StockIssuesOf(inv, ph, orders, rows) != [] {
      var i := StockIssuesOf(inv, ph, orders, rows)[0];
      assert i in StockIssuesOf(inv, ph, orders, rows);
    }
  }

  // ---------------------------------------------------------------------------
  // The decrement
  // ---------------------------------------------------------------------------

  /** A listing after selling `qty` units: stock drops and the level is recomputed with the row's threshold. */
  function Sold(row: StockRow, qty: nat): (s: StockRow)
    requires qty <= row.stock
    ensures s.stock + qty == row.stock
    ensures s.price == row.price && s.threshold == row.threshold
    ensures s.level == OutOfStock <==> s.stock == 0
    ensures s.level == LowStock <==> 0 < s.stock <= row.threshold
  {
    var left := row.stock - qty;
    row.(stock := left, level := AcceptLevel(left, row.threshold))
  }

  /** The inventory key a line touches. */
  function KeyOf(ph: PharmacyId, o: OrderLine): (PharmacyId, MedicineId)
    requires o.medicine.Some?
  {
    (ph, o.medicine.value)
  }

  predicate TouchesKey(ph: PharmacyId, orders: map<RowId, OrderLine>, rows: seq<RowId>, key: (PharmacyId, MedicineId))
    requires forall r | r in rows :: r in orders
  {
    exists r | r in rows :: orders[r].medicine.Some? && KeyOf(ph, orders[r]) == key
  }

  /** No two of the listed lines name the same medicine. */
  predicate DistinctMedicines(orders: map<RowId, OrderLine>, rows: seq<RowId>)
    requires forall r | r in rows :: r in orders
  {
    forall i, j | 0 <= i < j < |rows| && orders[rows[i]].medicine.Some? ::
      orders[rows[i]].medicine != orders[rows[j]].medicine
  }

  /**
   * The save loop as written: each line's listing was read before any save
   * (`snap`), so each save writes the snapshot's stock minus that line's
   * quantity, and when two lines name the same medicine the later save
   * overwrites the earlier one.
   */
  function SaveAll(snap: Inventory, cur: Inventory, ph: PharmacyId, orders: map<RowId, OrderLine>, rows: seq<RowId>): (inv: Inventory)
    requires forall r | r in rows :: r in orders && Stocked(snap, ph, orders[r])
    requires snap.Keys <= cur.Keys
    ensures inv.Keys == cur.Keys
    ensures forall k | k in cur && !TouchesKey(ph, orders, rows, k) :: inv[k] == cur[k]
    decreases |rows|
  {
    if rows == [] then cur
    else
      var o := orders[rows[0]];
      assert Stocked(snap, ph, o);
      var cur' := if o.medicine.None? then cur else cur[KeyOf(ph, o) := Sold(snap[KeyOf(ph, o)], o.quantity)];
      assert forall k | TouchesKey(ph, orders, rows[1..], k) :: TouchesKey(ph, orders, rows, k) by {
        forall k | TouchesKey(ph, orders, rows[1..], k) ensures TouchesKey(ph, orders, rows, k) {
          var r :| r in rows[1..] && orders[r].medicine.Some? && KeyOf(ph, orders[r]) == k;
          assert r in rows;
        }
      }
      SaveAll(snap, cur', ph, orders, rows[1..])
  }

  /**
   * When the lines name distinct medicines no save is overwritten: each
   * line's listing ends at the snapshot's stock minus that line's quantity.
   */
  lemma {:induction false} SaveAllDistinct(snap: Inventory, cur: Inventory, ph: PharmacyId, orders: map<RowId, OrderLine>, rows: seq<RowId>)
    requires forall r | r in rows :: r in orders && Stocked(snap, ph, orders[r])
    requires snap.Keys <= cur.Keys
    requires DistinctMedicines(orders, rows)
    ensures forall r | r in rows && orders[r].medicine.Some? ::
      Stocked(snap, ph, orders[r]) &&
      SaveAll(snap, cur, ph, orders, rows)[KeyOf(ph, orders[r])] == Sold(snap[KeyOf(ph, orders[r])], orders[r].quantity)
    decreases |rows|
  {
    if rows != [] {
      var o := orders[rows[0]];
      assert Stocked(snap, ph, o);
      var cur' := if o.medicine.None? then cur else cur[KeyOf(ph, o) := Sold(snap[KeyOf(ph, o)], o.quantity)];
      var tail := rows[1..];
      assert DistinctMedicines(orders, tail) by {
        forall i, j | 0 <= i < j < |tail| && orders[tail[i]].medicine.Some?
          ensures orders[tail[i]].medicine != orders[tail[j]].medicine
        {
          assert tail[i] == rows[i + 1] && tail[j] == rows[j + 1];
        }
      }
      SaveAllDistinct(snap, cur', ph, orders, tail);
      assert SaveAll(snap, cur, ph, orders, rows) == SaveAll(snap, cur', ph, orders, tail);
      forall r | r in rows && orders[r].medicine.Some?
        ensures SaveAll(snap, cur, ph, orders, rows)[KeyOf(ph, orders[r])] == Sold(snap[KeyOf(ph, orders[r])], orders[r].quantity)
      {
        if r != rows[0] {
          assert r in tail;
        }
      }
    }
  }

  /** Two lines for the same medicine: the first sale is lost. */
  lemma SameMedicineLosesAnUpdate()
    ensures
      var line := OrderLine("ORD-1", 7, Some(1), Some(5), 2, 0, false, "", Paid, PendingPharmacyConfirmation, None, 0);
      var orders := map[10 := line, 11 := line.(quantity := 3)];
      var inv := map[(1, 5) := StockRow(10, 100, InStock, 20)];
      SaveAll(inv, inv, 1, orders, [10, 11])[(1, 5)].stock == 7
  {
    var line := OrderLine("ORD-1", 7, Some(1), Some(5), 2, 0, false, "", Paid, PendingPharmacyConfirmation, None, 0);
    var orders := map[10 := line, 11 := line.(quantity := 3)];
    var inv := map[(1, 5) := StockRow(10, 100, InStock, 20)];
    var after1 := inv[(1, 5) := Sold(inv[(1, 5)], 2)];
    var after2 := after1[(1, 5) := Sold(inv[(1, 5)], 3)];
    assert SaveAll(inv, after2, 1, orders, []) == after2;
    assert [10, 11][1..] == [11] && [11][1..] == [];
  }

  // ---------------------------------------------------------------------------
  // Opening the delivery
  // ---------------------------------------------------------------------------

  /** One unread "new delivery order" notification per active courier, numbered from `firstId`. */
  function CourierNotes(firstId: nat, couriers: seq<UserId>, row: RowId): (notes: seq<PartnerNote>)
    ensures |notes| == |couriers|
    ensures forall i | 0 <= i < |couriers| ::
      notes[i] == PartnerNote(firstId + i, couriers[i], row, NewDeliveryOrder, NewOrderNoteTitle, false)
  {
    seq(|couriers|, i requires 0 <= i < |couriers| =>
      PartnerNote(firstId + i, couriers[i], row, NewDeliveryOrder, NewOrderNoteTitle, false))
  }

  /** The delivery record an accepted line gets: pending, no driver, picked up at the pharmacy. */
  function NewDelivery(pickup: string, dropoff: string): (d: Delivery)
    ensures d.status == DeliveryPending && d.driver.None? && d.otp.None? && d.otpAt.None?
    ensures d.estimatedMinutes == DefaultEstimatedMinutes && d.actualMinutes.None?
  {
    Delivery(None, DeliveryPending, pickup, dropoff, None, None, DefaultEstimatedMinutes, None)
  }

  /**
   * When the group's first line needs delivery and has no delivery yet, a
   * pending delivery is created for it and every active courier is notified.
   */
  function OpenDelivery(db: Db, ph: PharmacyId, first: RowId, couriers: seq<UserId>): (db': Db)
    requires first in db.orders && ph in db.pharmacies
    ensures db'.orders == db.orders && db'.inventory == db.inventory && db'.payments == db.payments
    ensures db'.userNotes == db.userNotes && db'.users == db.users
    ensures db.orders[first].deliveryRequired && first !in db.deliveries ==>
      && db'.deliveries == db.deliveries[first := NewDelivery(db.pharmacies[ph].address, db.orders[first].deliveryAddress)]
      && db'.partnerNotes == db.partnerNotes + CourierNotes(db.nextNoteId, couriers, first)
    ensures !(db.orders[first].deliveryRequired && first !in db.deliveries) ==> db' == db
  {
    var line := db.orders[first];
    if line.deliveryRequired && first !in db.deliveries then
      db.(deliveries := db.deliveries[first := NewDelivery(db.pharmacies[ph].address, line.deliveryAddress)],
          partnerNotes := db.partnerNotes + CourierNotes(db.nextNoteId, couriers, first),
          nextNoteId := db.nextNoteId + |couriers|)
    else db
  }

  // ---------------------------------------------------------------------------
  // pharmacy_accept_order
  // ---------------------------------------------------------------------------

  /** Every line of the group satisfies `p`. */
  predicate AllInGroup(db: Db, orderId: string, ph: PharmacyId, p: OrderLine -> bool) {
    forall r | r in db.orders && GroupAt(orderId, ph)(db.orders[r]) :: p(db.orders[r])
  }

  function InStockFor(inv: Inventory, ph: PharmacyId): OrderLine -> bool {
    (o: OrderLine) => Stocked(inv, ph, o)
  }

  function IsPaid(): OrderLine -> bool { (o: OrderLine) => o.payment == Paid }

  function IsAwaitingPharmacy(): OrderLine -> bool { (o: OrderLine) => o.status == PendingPharmacyConfirmation }

  /** The caller's pharmacy, when it has one (`request.user.pharmacy`). */
  function PharmacyOf(db: Db, me: User): Option<PharmacyId> {
    if me.pharmacy.Some? && me.pharmacy.value in db.pharmacies then me.pharmacy else None
  }

  /** The requests the pharmacy may act on: its group exists, is paid in full and awaits it. */
  predicate Actionable(db: Db, me: User, orderId: string) {
    && PharmacyOf(db, me).Some?
    && Matching(db.orders, GroupAt(orderId, PharmacyOf(db, me).value)) != {}
    && AllInGroup(db, orderId, PharmacyOf(db, me).value, IsPaid())
    && AllInGroup(db, orderId, PharmacyOf(db, me).value, IsAwaitingPharmacy())
  }

  /**
   * The decision on a group the pharmacy may act on: reject marks every
   * line rejected; accept checks every line's stock, reports all problems
   * and writes nothing when there are any, and otherwise marks the lines
   * accepted, takes the stock and opens the delivery. The success value is
   * the number of lines.
   */
  function Decide(db: Db, ph: PharmacyId, rows: seq<RowId>, action: Action, couriers: seq<UserId>): (r: Reply<nat>)
    requires ph in db.pharmacies && rows != [] && forall x | x in rows :: x in db.orders
    ensures r.body.Failure? ==> r.db == db
    ensures action.OtherAction? ==> r.body.Failure?
    ensures action == Reject ==>
      r.body == Success(|rows|) && r.db == db.(orders := UpdateRows(db.orders, rows, WithStatus(PharmacyRejected)))
    ensures action == Accept ==>
      && (r.body.Success? <==> StockIssuesOf(db.inventory, ph, db.orders, rows) == [])
      && (r.body.Failure? ==> r.body.error == StockIssues(StockIssuesOf(db.inventory, ph, db.orders, rows)))
      && (r.body.Success? ==>
            && r.body.value == |rows|
            && r.db == OpenDelivery(db.(orders := UpdateRows(db.orders, rows, WithStatus(PharmacyAccepted)),
                                        inventory := SaveAll(db.inventory, db.inventory, ph, db.orders, rows)),
                                    ph, rows[0], couriers))
  {
    match action
    case Reject =>
      Reply(db.(orders := UpdateRows(db.orders, rows, WithStatus(PharmacyRejected))), Success(|rows|))
    case OtherAction(_) => Refuse(db, BadRequest(InvalidActionMsg))
    case Accept =>
      var issues := StockIssuesOf(db.inventory, ph, db.orders, rows);
      if issues != [] then Refuse(db, StockIssues(issues))
      else
        var db1 := db.(
          orders := UpdateRows(db.orders, rows, WithStatus(PharmacyAccepted)),
          inventory := SaveAll(db.inventory, db.inventory, ph, db.orders, rows));
        Reply(OpenDelivery(db1, ph, rows[0], couriers), Success(|rows|))
  }

  /**
   * `pharmacy_accept_order`: accept or reject every line of a group at
   * once. Only a pharmacy user, only its own group, only when every line
   * is paid and awaits the pharmacy; refusals write nothing.
   */
  function PharmacyAccept(db: Db, me: User, orderId: string, action: Action, scan: seq<RowId>, couriers: seq<UserId>): (r: Reply<nat>)
    requires IsScan(db, scan) && CourierList(db, couriers)
    ensures r.body.Failure? ==> r.db == db
    ensures !Actionable(db, me, orderId) ==> r.body.Failure?
    ensures Actionable(db, me, orderId) ==>
      var ph := PharmacyOf(db, me).value;
      var rows := Select(db.orders, scan, GroupAt(orderId, ph));
      && rows != [] && ph in db.pharmacies
      && r == Decide(db, ph, rows, action, couriers)
  {
    match PharmacyOf(db, me)
    case None => Refuse(db, Forbidden(NotPharmacyMsg))
    case Some(ph) =>
      var rows := Select(db.orders, scan, GroupAt(orderId, ph));
      if rows == [] then
        assert Matching(db.orders, GroupAt(orderId, ph)) == {};
        Refuse(db, NotFound(OrderNotFoundMsg))
      else if exists r | r in rows :: db.orders[r].payment != Paid then
        assert !AllInGroup(db, orderId, ph, IsPaid());
        Refuse(db, BadRequest(UnpaidMsg))
      else if exists r | r in rows :: db.orders[r].status != PendingPharmacyConfirmation then
        assert !AllInGroup(db, orderId, ph, IsAwaitingPharmacy());
        Refuse(db, BadRequest("Order " + orderId + " is not in pending state"))
      else
        assert rows[0] in Matching(db.orders, GroupAt(orderId, ph));
        assert Actionable(db, me, orderId);
        Decide(db, ph, rows, action, couriers)
  }

  /** An acceptance goes through exactly when every line of the group is in stock. */
  lemma AcceptIffStocked(db: Db, me: User, orderId: string, scan: seq<RowId>, couriers: seq<UserId>)
    requires IsScan(db, scan) && CourierList(db, couriers)
    requires Actionable(db, me, orderId)
    ensures var ph := PharmacyOf(db, me).value;
      PharmacyAccept(db, me, orderId, Accept, scan, couriers).body.Success? <==> AllInGroup(db, orderId, ph, InStockFor(db.inventory, ph))
  {
    var ph := PharmacyOf(db, me).value;
    var rows := Select(db.orders, scan, GroupAt(orderId, ph));
    NoIssuesIffStocked(db.inventory, ph, db.orders, rows);
  }

  /**
   * The acceptance decrement, line by line: when the group names each
   * medicine once, each line's listing loses exactly that line's quantity
   * and is reclassified.
   */
  lemma AcceptDecrementsEachListing(db: Db, me: User, orderId: string, scan: seq<RowId>, couriers: seq<UserId>)
    requires IsScan(db, scan) && CourierList(db, couriers)
    requires Actionable(db, me, orderId)
    requires PharmacyAccept(db, me, orderId, Accept, scan, couriers).body.Success?
    requires DistinctMedicines(db.orders, Select(db.orders, scan, GroupAt(orderId, PharmacyOf(db, me).value)))
    ensures
      var ph := PharmacyOf(db, me).value;
      var inv := PharmacyAccept(db, me, orderId, Accept, scan, couriers).db.inventory;
      && inv.Keys == db.inventory.Keys
      && (forall r | r in db.orders && GroupAt(orderId, ph)(db.orders[r]) && db.orders[r].medicine.Some? ::
            var key := (ph, db.orders[r].medicine.value);
            && inv[key].stock + db.orders[r].quantity == db.inventory[key].stock
            && inv[key].level == AcceptLevel(inv[key].stock, db.inventory[key].threshold))
  {
    var ph := PharmacyOf(db, me).value;
    var rows := Select(db.orders, scan, GroupAt(orderId, ph));
    var inv := AcceptedInventory(db, me, orderId, scan, couriers);
    SaveAllDistinct(db.inventory, db.inventory, ph, db.orders, rows);
    forall x | x in db.orders && GroupAt(orderId, ph)(db.orders[x]) && db.orders[x].medicine.Some?
      ensures var key := (ph, db.orders[x].medicine.value);
        && inv[key].stock + db.orders[x].quantity == db.inventory[key].stock
        && inv[key].level == AcceptLevel(inv[key].stock, db.inventory[key].threshold)
    {
      assert x in rows;
    }
  }

  /** An acceptance leaves alone every listing that no line of the group names. */
  lemma AcceptKeepsOtherListings(db: Db, me: User, orderId: string, scan: seq<RowId>, couriers: seq<UserId>)
    requires IsScan(db, scan) && CourierList(db, couriers)
    requires PharmacyAccept(db, me, orderId, Accept, scan, couriers).body.Success?
    ensures Actionable(db, me, orderId)
    ensures
      var ph := PharmacyOf(db, me).value;
      var inv := PharmacyAccept(db, me, orderId, Accept, scan, couriers).db.inventory;
      forall key | key in db.inventory && (forall r | r in db.orders && GroupAt(orderId, ph)(db.orders[r]) :: db.orders[r].medicine != Some(key.1)) ::
        inv[key] == db.inventory[key]
  {
    var ph := PharmacyOf(db, me).value;
    var rows := Select(db.orders, scan, GroupAt(orderId, ph));
    var inv := AcceptedInventory(db, me, orderId, scan, couriers);
    forall key | key in db.inventory && (forall r | r in db.orders && GroupAt(orderId, ph)(db.orders[r]) :: db.orders[r].medicine != Some(key.1))
      ensures inv[key] == db.inventory[key]
    {
      assert !TouchesKey(ph, db.orders, rows, key);
    }
  }

  /** The inventory after a successful acceptance: the save loop over the group's lines, all in stock. */
  function AcceptedInventory(db: Db, me: User, orderId: string, scan: seq<RowId>, couriers: seq<UserId>): (inv: Inventory)
    requires IsScan(db, scan) && CourierList(db, couriers)
    requires PharmacyAccept(db, me, orderId, Accept, scan, couriers).body.Success?
    ensures Actionable(db, me, orderId)
    ensures var ph := PharmacyOf(db, me).value;
      var rows := Select(db.orders, scan, GroupAt(orderId, ph));
      && (forall x | x in rows :: x in db.orders && Stocked(db.inventory, ph, db.orders[x]))
      && inv == SaveAll(db.inventory, db.inventory, ph, db.orders, rows)
      && inv == PharmacyAccept(db, me, orderId, Accept, scan, couriers).db.inventory
  {
    var ph := PharmacyOf(db, me).value;
    var rows := Select(db.orders, scan, GroupAt(orderId, ph));
    var r := PharmacyAccept(db, me, orderId, Accept, scan, couriers);
    assert r == Decide(db, ph, rows, Accept, couriers);
    AcceptIffStocked(db, me, orderId, scan, couriers);
    assert forall x | x in rows :: Stocked(db.inventory, ph, db.orders[x]) by {
      assert AllInGroup(db, orderId, ph, InStockFor(db.inventory, ph));
    }
    r.db.inventory
  }

  /** A group that has been accepted or rejected cannot be acted on again, so stock is never taken twice. */
  lemma ActOnceOnly(db: Db, me: User, orderId: string, first: Action, second: Action, scan: seq<RowId>, couriers: seq<UserId>, scan': seq<RowId>)
    requires IsScan(db, scan) && CourierList(db, couriers)
    requires PharmacyAccept(db, me, orderId, first, scan, couriers).body.Success?
    requires IsScan(PharmacyAccept(db, me, orderId, first, scan, couriers).db, scan')
    requires CourierList(PharmacyAccept(db, me, orderId, first, scan, couriers).db, couriers)
    ensures
      var db1 := PharmacyAccept(db, me, orderId, first, scan, couriers).db;
      var r2 := PharmacyAccept(db1, me, orderId, second, scan', couriers);
      r2.body.Failure? && r2.db == db1
  {
    var r1 := PharmacyAccept(db, me, orderId, first, scan, couriers);
    assert Actionable(db, me, orderId);
    var ph := PharmacyOf(db, me).value;
    var rows := Select(db.orders, scan, GroupAt(orderId, ph));
    assert r1 == Decide(db, ph, rows, first, couriers);
    assert rows[0] in Matching(db.orders, GroupAt(orderId, ph));
    DecidedGroupSettled(db, me, orderId, ph, rows, first, couriers);
  }

  /** After a decision the group's first line no longer awaits the pharmacy, so the request is no longer actionable. */
  lemma DecidedGroupSettled(db: Db, me: User, orderId: string, ph: PharmacyId, rows: seq<RowId>, action: Action, couriers: seq<UserId>)
    requires ph in db.pharmacies && rows != [] && forall x | x in rows :: x in db.orders
    requires PharmacyOf(db, me) == Some(ph) && GroupAt(orderId, ph)(db.orders[rows[0]])
    requires Decide(db, ph, rows, action, couriers).body.Success?
    ensures !Actionable(Decide(db, ph, rows, action, couriers).db, me, orderId)
  {
    var db1 := Decide(db, ph, rows, action, couriers).db;
    var x := rows[0];
    var s := if action == Reject then PharmacyRejected else PharmacyAccepted;
    assert db1.orders == UpdateRows(db.orders, rows, WithStatus(s));
    assert db1.pharmacies == db.pharmacies;
    assert x in db1.orders && db1.orders[x] == db.orders[x].(status := s);
    assert GroupAt(orderId, ph)(db1.orders[x]) && !IsAwaitingPharmacy()(db1.orders[x]);
  }

  // ---------------------------------------------------------------------------
  // The inventory viewset
  // ---------------------------------------------------------------------------

  /** A new listing as posted: `stock` may be omitted. */
  datatype NewListing = NewListing(medicine: MedicineId, stock: Option<nat>, price: Paise)

  /**
   * `PharmacyMedicineViewSet.perform_create`: only a pharmacy user may list,
   * the listing goes to the caller's pharmacy, the stock defaults to 0, the
   * threshold to 20, and the level follows the viewset rule. A second
   * listing of the same medicine, or an unknown medicine, violates the
   * table's keys (a 500).
   */
  function CreateListing(db: Db, me: User, req: NewListing): (r: Reply<(PharmacyId, MedicineId)>)
    ensures r.body.Failure? ==> r.db == db
    ensures r.body.Success? <==>
      PharmacyOf(db, me).Some? && req.medicine in db.medicines && (PharmacyOf(db, me).value, req.medicine) !in db.inventory
    ensures r.body.Success? ==>
      var key := r.body.value;
      var stock := req.stock.GetOr(0);
      && key == (PharmacyOf(db, me).value, req.medicine)
      && r.db == db.(inventory := db.inventory[key := StockRow(stock, req.price, ViewSetLevel(stock), DefaultThreshold)])
      && (r.db.inventory[key].level == OutOfStock <==> stock == 0)
      && (r.db.inventory[key].level == LowStock <==> 0 < stock <= DefaultThreshold)
  {
    match PharmacyOf(db, me)
    case None => Refuse(db, Forbidden(NotPharmacyMsg))
    case Some(ph) =>
      var key := (ph, req.medicine);
      if req.medicine !in db.medicines then Refuse(db, ServerError(ForeignKeyViolationMsg))
      else if key in db.inventory then Refuse(db, ServerError(UniqueViolationMsg))
      else
        var stock := req.stock.GetOr(0);
        Reply(db.(inventory := db.inventory[key := StockRow(stock, req.price, ViewSetLevel(stock), DefaultThreshold)]), Success(key))
  }

  /**
   * An update request: the fields sent, an omitted one keeping its value.
   * `partial` is a PATCH; a PUT must send the serializer's required fields,
   * `medicine_id` and `price`. Sending `medicine_id` moves the listing to
   * that medicine.
   */
  datatype ListingChange = ListingChange(
    partial: bool, medicine: Option<MedicineId>, stock: Option<nat>, price: Option<Paise>, level: Option<StockLevel>)

  const FieldRequiredMsg := "This field is required."

  /** A PUT that leaves out a required field, which the serializer refuses. */
  predicate MissingRequired(change: ListingChange) {
    !change.partial && (change.medicine.None? || change.price.None?)
  }

  /** `medicine_id` names a medicine that does not exist. */
  predicate UnknownMedicine(db: Db, change: ListingChange) {
    change.medicine.Some? && change.medicine.value !in db.medicines
  }

  /**
   * The listings the viewset's `get_queryset` shows the caller: every
   * listing to an admin, its own pharmacy's to a user who has a pharmacy,
   * none to anyone else.
   */
  predicate ListingVisible(db: Db, me: User, target: (PharmacyId, MedicineId)) {
    me.role == Admin || (PharmacyOf(db, me).Some? && target.0 == PharmacyOf(db, me).value)
  }

  /** The listing an update writes: the caller's pharmacy with the medicine sent, else the listing's own. */
  function UpdatedKey(db: Db, me: User, target: (PharmacyId, MedicineId), change: ListingChange): (PharmacyId, MedicineId)
    requires PharmacyOf(db, me).Some?
  {
    (PharmacyOf(db, me).value, change.medicine.GetOr(target.1))
  }

  /**
   * `PharmacyMedicineViewSet.update` of the listing `target`: `get_object`
   * finds it only among the visible listings (404 otherwise); a PUT
   * without `medicine_id` or `price` fails validation (400); then
   * `perform_update` refuses a caller without a pharmacy (403, which only
   * an admin reaches) and saves the listing under the caller's pharmacy,
   * with the medicine sent if any. For a pharmacy that is the listing's
   * own pharmacy; an admin with a pharmacy moves another pharmacy's listing
   * to it. The save fails with a 500 when the medicine does not exist or
   * when the new (pharmacy, medicine) key is already listed (the
   * serializer has no unique-together validator, since `pharmacy` is not
   * one of its fields). A new stock recomputes the level by the viewset
   * rule (overriding any level sent with it); without one, a level sent by
   * the client is stored as given.
   */
  function UpdateListing(db: Db, me: User, target: (PharmacyId, MedicineId), change: ListingChange): (r: Reply<StockRow>)
    ensures r.body.Failure? ==> r.db == db
    ensures r.body.Success? <==>
      && target in db.inventory && ListingVisible(db, me, target) && !MissingRequired(change)
      && PharmacyOf(db, me).Some? && !UnknownMedicine(db, change)
      && (UpdatedKey(db, me, target, change) == target || UpdatedKey(db, me, target, change) !in db.inventory)
    ensures target !in db.inventory || !ListingVisible(db, me, target) ==> r.body == Failure(NotFound(NotFoundMsg))
    ensures target in db.inventory && ListingVisible(db, me, target) && MissingRequired(change) ==>
      r.body == Failure(BadRequest(FieldRequiredMsg))
    ensures target in db.inventory && me.role == Admin && PharmacyOf(db, me).None? && !MissingRequired(change) ==>
      r.body == Failure(Forbidden(NotPharmacyMsg))
    ensures target in db.inventory && ListingVisible(db, me, target) && !MissingRequired(change) && PharmacyOf(db, me).Some? ==>
      && (UnknownMedicine(db, change) ==> r.body == Failure(ServerError(ForeignKeyViolationMsg)))
      && (!UnknownMedicine(db, change) && UpdatedKey(db, me, target, change) != target && UpdatedKey(db, me, target, change) in db.inventory ==>
            r.body == Failure(ServerError(UniqueViolationMsg)))
    ensures r.body.Success? ==>
      var key := UpdatedKey(db, me, target, change);
      var before := db.inventory[target];
      var row := r.body.value;
      && r.db == db.(inventory := (db.inventory - {target})[key := row])
      && (me.role != Admin && change.medicine.None? ==> key == target)
      && (key != target ==> target !in r.db.inventory)
      && row.threshold == before.threshold
      && row.price == change.price.GetOr(before.price)
      && row.stock == change.stock.GetOr(before.stock)
      && (change.stock.Some? ==> row.level == ViewSetLevel(row.stock))
      && (change.stock.None? ==> row.level == change.level.GetOr(before.level))
  {
    if target !in db.inventory || !ListingVisible(db, me, target) then Refuse(db, NotFound(NotFoundMsg))
    else if MissingRequired(change) then Refuse(db, BadRequest(FieldRequiredMsg))
    else match PharmacyOf(db, me)
    case None => Refuse(db, Forbidden(NotPharmacyMsg))
    case Some(ph) =>
      var key := (ph, change.medicine.GetOr(target.1));
      if UnknownMedicine(db, change) then Refuse(db, ServerError(ForeignKeyViolationMsg))
      else if key != target && key in db.inventory then Refuse(db, ServerError(UniqueViolationMsg))
      else
        var before := db.inventory[target];
        var row :=
          match change.stock
          case Some(s) => before.(stock := s, price := change.price.GetOr(before.price), level := ViewSetLevel(s))
          case None => before.(price := change.price.GetOr(before.price), level := change.level.GetOr(before.level));
        Reply(db.(inventory := (db.inventory - {target})[key := row]), Success(row))
  }

  /**
   * A pharmacy's update of its own listing rewrites that listing in place,
   * or moves it to the medicine sent, and leaves every other listing as it
   * was: a move onto a listed medicine is refused.
   */
  lemma UpdateKeepsOtherListings(db: Db, me: User, target: (PharmacyId, MedicineId), change: ListingChange, other: (PharmacyId, MedicineId))
    requires me.role != Admin && other != target && other in db.inventory
    ensures
      var r := UpdateListing(db, me, target, change);
      other in r.db.inventory && r.db.inventory[other] == db.inventory[other]
      && (r.body.Success? ==>
            var key := (target.0, change.medicine.GetOr(target.1));
            key in r.db.inventory && r.db.inventory[key] == r.body.value
            && (change.medicine.None? ==> key == target))
  {
  }

  /** After an update that sets the stock, the level agrees with the one classifier at the fixed threshold. */
  lemma UpdateReclassifies(db: Db, me: User, target: (PharmacyId, MedicineId), change: ListingChange)
    requires change.stock.Some?
    requires UpdateListing(db, me, target, change).body.Success?
    ensures
      var row := UpdateListing(db, me, target, change).body.value;
      row.level == Classify(row.stock, DefaultThreshold) && row.stock == change.stock.value
  {
  }
}
