/**
 * Order creation and the payment endpoints of `views.py`: `create_order`,
 * `create_razorpay_order`, `create_cart_razorpay_order`,
 * `verify_razorpay_payment`, `verify_cart_razorpay_payment` and
 * `process_payment`. The gateway's order id, its signature check and its
 * failures are inputs; amounts are integer paise.
 */
module Payments {
  import opened Wrappers
  import opened Models
  import opened Store
  import Text

  // Messages of the views
  const VerificationFailedMsg := "Payment verification failed"
  const AlreadyPaidMsg := "Order already paid"
  const MissingReceiptMsg := "Missing payment verification data"
  const NoValidOrdersMsg := "No valid orders found"
  const OrderIdsRequiredMsg := "order_ids list is required"
  const DuplicatePaymentMsg := "IntegrityError: UNIQUE constraint failed: payment.order_id"
  const GatewayOrderFailedMsg := "Failed to create Razorpay order"
  const NegativeStockMsg := "IntegrityError: quantity must be non-negative"
  const OnlyUsersOrderMsg := "Only users can create orders"
  const NotStockedMsg := "Medicine not available at this pharmacy"
  const InvalidItemMsg := "Invalid medicine or pharmacy"
  const InsufficientStockMsg := "Insufficient stock"
  const AllPaidMsg := "All orders are already paid"

  // ---------------------------------------------------------------------------
  // create_order
  // ---------------------------------------------------------------------------

  datatype OrderRequest = OrderRequest(
    medicine: MedicineId,
    pharmacy: PharmacyId,
    quantity: int,
    deliveryRequired: bool,
    deliveryAddress: string,
    orderId: string)

  predicate IsHexUpper(c: char) { '0' <= c <= '9' || 'A' <= c <= 'F' }

  /** A server-generated group id: `ORD-` and eight upper-case hex digits. */
  predicate GeneratedOrderId(id: string) {
    |id| == 12 && Text.IsPrefix("ORD-", id) && forall i | 4 <= i < 12 :: IsHexUpper(id[i])
  }

  /**
   * `create_order`: one new line for one medicine, priced from the
   * pharmacy's listing. It refuses a quantity above the stock but does not
   * take it out of stock, and it keeps a client-supplied group id. A
   * negative quantity passes the stock test and then violates the
   * non-negative column, which is a 500. `row` is the next free row id;
   * `generated` is the random id used when the client sent none.
   */
  function CreateOrder(db: Db, me: User, req: OrderRequest, row: RowId, generated: string, now: int): (r: Reply<RowId>)
    requires row !in db.orders
    requires GeneratedOrderId(generated)
    ensures r.body.Failure? ==> r.db == db
    ensures r.body.Success? <==>
      && me.role == Customer
      && req.medicine in db.medicines && req.pharmacy in db.pharmacies
      && (req.pharmacy, req.medicine) in db.inventory
      && 0 <= req.quantity <= db.inventory[(req.pharmacy, req.medicine)].stock
    ensures r.body.Success? ==>
      row in r.db.orders &&
      var listing := db.inventory[(req.pharmacy, req.medicine)];
      var o := r.db.orders[row];
      && r.body.value == row
      && r.db == db.(orders := db.orders[row := o])
      && o.total == listing.price * req.quantity
      && o.quantity == req.quantity
      && o.status == PendingPharmacyConfirmation
      && o.payment == PayPending
      && o.partner == None
      && o.user == me.id
      && o.medicine == Some(req.medicine) && o.pharmacy == Some(req.pharmacy)
      && o.orderId == (if req.orderId != "" then req.orderId else generated)
  {
    var key := (req.pharmacy, req.medicine);
    if me.role != Customer then Refuse(db, Forbidden(OnlyUsersOrderMsg))
    else if req.medicine !in db.medicines || req.pharmacy !in db.pharmacies then
      Refuse(db, BadRequest(InvalidItemMsg))
    else if key !in db.inventory then Refuse(db, BadRequest(NotStockedMsg))
    else if db.inventory[key].stock < req.quantity then Refuse(db, BadRequest(InsufficientStockMsg))
    else if req.quantity < 0 then Refuse(db, ServerError(NegativeStockMsg))
    else
      var line := OrderLine(
        if req.orderId != "" then req.orderId else generated,
        me.id, Some(req.pharmacy), Some(req.medicine), req.quantity,
        db.inventory[key].price * req.quantity,
        req.deliveryRequired, req.deliveryAddress,
        PayPending, PendingPharmacyConfirmation, None, now);
      Reply(db.(orders := db.orders[row := line]), Success(row))
  }

  /** Lines created for one cart share the group id the client chose. */
  lemma CartLinesShareGroupId(db: Db, me: User, a: OrderRequest, rowA: RowId, b: OrderRequest, rowB: RowId, gen1: string, gen2: string, now: int)
    requires rowA !in db.orders && GeneratedOrderId(gen1) && GeneratedOrderId(gen2)
    requires a.orderId == b.orderId && a.orderId != ""
    requires CreateOrder(db, me, a, rowA, gen1, now).body.Success?
    requires rowB !in CreateOrder(db, me, a, rowA, gen1, now).db.orders
    requires CreateOrder(CreateOrder(db, me, a, rowA, gen1, now).db, me, b, rowB, gen2, now).body.Success?
    ensures
      var db1 := CreateOrder(db, me, a, rowA, gen1, now).db;
      var db2 := CreateOrder(db1, me, b, rowB, gen2, now).db;
      db2.orders[rowA].orderId == db2.orders[rowB].orderId == a.orderId
  {
  }

  // ---------------------------------------------------------------------------
  // Gateway orders
  // ---------------------------------------------------------------------------

  /** The gateway order handed to the checkout widget, with the lines it covers. */
  datatype GatewayOrder = GatewayOrder(gatewayId: string, amount: Paise, orderIds: seq<string>, rows: seq<RowId>)

  /** The caller's lines with this group id: `get(order_id=..., user=request.user)`. */
  function OwnLine(orderId: string, me: User): OrderLine -> bool {
    (o: OrderLine) => o.orderId == orderId && o.user == me.id
  }

  /** `row` is the one line the lookup finds. */
  predicate TheLine(db: Db, keep: OrderLine -> bool, row: RowId) {
    Matching(db.orders, keep) == {row}
  }

  function SumTotals(orders: map<RowId, OrderLine>, rows: seq<RowId>): Paise
    requires forall r | r in rows :: r in orders
  {
    if rows == [] then 0 else orders[rows[0]].total + SumTotals(orders, rows[1..])
  }

  /**
   * `create_razorpay_order`: the caller's one line with this group id,
   * refused when it is already paid; the amount is its total. Nothing is written.
   */
  function CreateGatewayOrder(db: Db, me: User, orderId: string, scan: seq<RowId>, gateway: Result<string, string>): (r: Reply<GatewayOrder>)
    requires IsScan(db, scan)
    ensures r.db == db
    ensures r.body.Success? ==>
      var g := r.body.value;
      && |g.rows| == 1 && TheLine(db, OwnLine(orderId, me), g.rows[0])
      && db.orders[g.rows[0]].payment != Paid
      && g.amount == db.orders[g.rows[0]].total
      && gateway == Success(g.gatewayId)
    ensures forall row | TheLine(db, OwnLine(orderId, me), row) && db.orders[row].payment == Paid ::
      r.body == Failure(BadRequest(AlreadyPaidMsg))
    ensures forall row | TheLine(db, OwnLine(orderId, me), row) && db.orders[row].payment != Paid ::
      && (gateway.Success? ==> r.body == Success(GatewayOrder(gateway.value, db.orders[row].total, [orderId], [row])))
      && (gateway.Failure? ==> r.body.Failure? && r.body.error.ServerError?)
    ensures Matching(db.orders, OwnLine(orderId, me)) == {} ==> r.body.Failure? && r.body.error.NotFound?
  {
    match GetOne(db, scan, OwnLine(orderId, me))
    case Failure(e) => Refuse(db, e)
    case Success(row) =>
      if db.orders[row].payment == Paid then Refuse(db, BadRequest(AlreadyPaidMsg))
      else if gateway.Failure? then Refuse(db, ServerError(GatewayOrderFailedMsg))
      else Reply(db, Success(GatewayOrder(gateway.value, db.orders[row].total, [orderId], [row])))
  }

  /** The caller's lines whose group id is in the list: `filter(order_id__in=..., user=...)`. */
  function InGroups(orderIds: seq<string>, me: User): OrderLine -> bool {
    (o: OrderLine) => o.orderId in orderIds && o.user == me.id
  }

  function IsPayPending(): OrderLine -> bool { (o: OrderLine) => o.payment == PayPending }

  function NotPaid(): OrderLine -> bool { (o: OrderLine) => o.payment != Paid }

  function GroupIds(orders: map<RowId, OrderLine>, rows: seq<RowId>): (ids: seq<string>)
    requires forall r | r in rows :: r in orders
    ensures |ids| == |rows|
    ensures forall i | 0 <= i < |rows| :: ids[i] == orders[rows[i]].orderId
  {
    seq(|rows|, i requires 0 <= i < |rows| => orders[rows[i]].orderId)
  }

  /**
   * The gateway order for the caller's listed lines that `payable` keeps:
   * refused for an empty id list (400), when the caller has no line in
   * those groups (404), when none of them is payable (400) or when the
   * gateway fails (500); otherwise its amount is the sum of their totals
   * and it names one group id per line. Nothing is written.
   */
  function CartGatewayOrder(db: Db, me: User, orderIds: seq<string>, scan: seq<RowId>, gateway: Result<string, string>, payable: OrderLine -> bool): (r: Reply<GatewayOrder>)
    requires IsScan(db, scan)
    ensures r.db == db
    ensures orderIds == [] ==> r.body.Failure? && r.body.error.BadRequest?
    ensures orderIds != [] && Matching(db.orders, InGroups(orderIds, me)) == {} ==> r.body.Failure? && r.body.error.NotFound?
    ensures r.body.Success? ==>
      var g := r.body.value;
      && orderIds != [] && gateway == Success(g.gatewayId)
      && (forall row :: row in g.rows <==> row in db.orders && InGroups(orderIds, me)(db.orders[row]) && payable(db.orders[row]))
      && Distinct(g.rows) && g.rows != []
      && g.amount == SumTotals(db.orders, g.rows)
      && g.orderIds == GroupIds(db.orders, g.rows)
    ensures (forall row | row in db.orders && InGroups(orderIds, me)(db.orders[row]) :: !payable(db.orders[row])) ==>
      r.body.Failure?
    ensures forall row | row in db.orders && InGroups(orderIds, me)(db.orders[row]) && payable(db.orders[row]) ::
      r.body.Success? <==> gateway.Success?
  {
    SelectEmptyIffNoMatch(db, scan, InGroups(orderIds, me));
    if orderIds == [] then Refuse(db, BadRequest(OrderIdsRequiredMsg))
    else
      var lines := Select(db.orders, scan, InGroups(orderIds, me));
      if lines == [] then Refuse(db, NotFound(NoValidOrdersMsg))
      else
        var unpaid := Select(db.orders, lines, payable);
        if unpaid == [] then Refuse(db, BadRequest(AllPaidMsg))
        else if gateway.Failure? then Refuse(db, ServerError(GatewayOrderFailedMsg))
        else
          Reply(db, Success(GatewayOrder(gateway.value, SumTotals(db.orders, unpaid), GroupIds(db.orders, unpaid), unpaid)))
  }

  /**
   * `create_cart_razorpay_order` as written: it takes only the lines whose
   * payment is still `pending`, so a `failed` line is left out, and when
   * every listed line is paid or failed the answer is "All orders are
   * already paid".
   */
  function CreateCartGatewayOrder(db: Db, me: User, orderIds: seq<string>, scan: seq<RowId>, gateway: Result<string, string>): (r: Reply<GatewayOrder>)
    requires IsScan(db, scan)
    ensures r.db == db
    ensures orderIds == [] ==> r.body.Failure? && r.body.error.BadRequest?
    ensures orderIds != [] && Matching(db.orders, InGroups(orderIds, me)) == {} ==> r.body.Failure? && r.body.error.NotFound?
    ensures r.body.Success? ==>
      var g := r.body.value;
      && orderIds != [] && gateway == Success(g.gatewayId)
      && (forall row :: row in g.rows <==> row in db.orders && InGroups(orderIds, me)(db.orders[row]) && db.orders[row].payment == PayPending)
      && Distinct(g.rows) && g.rows != []
      && g.amount == SumTotals(db.orders, g.rows)
      && g.orderIds == GroupIds(db.orders, g.rows)
    ensures (forall row | row in db.orders && InGroups(orderIds, me)(db.orders[row]) :: db.orders[row].payment != PayPending) ==>
      r.body.Failure?
    ensures forall row | row in db.orders && InGroups(orderIds, me)(db.orders[row]) && db.orders[row].payment == PayPending ::
      r.body.Success? <==> gateway.Success?
  {
    CartGatewayOrder(db, me, orderIds, scan, gateway, IsPayPending())
  }

  /**
   * The evidently intended cart gateway order: every listed line of the
   * caller that is not yet paid, a `failed` one included, as the view's
   * own "already paid" message and the cart verification loop assume.
   */
  function CreateCartGatewayOrderCorrected(db: Db, me: User, orderIds: seq<string>, scan: seq<RowId>, gateway: Result<string, string>): (r: Reply<GatewayOrder>)
    requires IsScan(db, scan)
    ensures r.db == db
    ensures orderIds == [] ==> r.body.Failure? && r.body.error.BadRequest?
    ensures orderIds != [] && Matching(db.orders, InGroups(orderIds, me)) == {} ==> r.body.Failure? && r.body.error.NotFound?
    ensures r.body.Success? ==>
      var g := r.body.value;
      && gateway == Success(g.gatewayId)
      && (forall row :: row in g.rows <==> OpenCartLine(db, orderIds, me, row))
      && Distinct(g.rows) && g.rows != []
      && g.amount == SumTotals(db.orders, g.rows)
    ensures (forall row | row in db.orders && InGroups(orderIds, me)(db.orders[row]) :: db.orders[row].payment == Paid) ==>
      r.body.Failure?
    ensures forall row | OpenCartLine(db, orderIds, me, row) :: r.body.Success? <==> gateway.Success?
  {
    CartGatewayOrder(db, me, orderIds, scan, gateway, NotPaid())
  }

  // ---------------------------------------------------------------------------
  // Recording payments
  // ---------------------------------------------------------------------------

  /** What the checkout widget hands back: all three must be non-empty. */
  datatype Receipt = Receipt(gatewayOrderId: string, paymentId: string, signature: string)

  predicate Complete(rc: Receipt) {
    rc.gatewayOrderId != "" && rc.paymentId != "" && rc.signature != ""
  }

  /**
   * `Payment.objects.create(order=...)` as written: the payment table is
   * one-to-one with orders, so a second record for the same line violates
   * the unique key.
   */
  function CreatePaymentRow(payments: map<RowId, Payment>, row: RowId, p: Payment): (r: Result<map<RowId, Payment>, Failure>)
    ensures r.Failure? <==> row in payments
    ensures r.Success? ==> r.value == payments[row := p]
  {
    if row in payments then Failure(ServerError(DuplicatePaymentMsg))
    else Success(payments[row := p])
  }

  /**
   * `Payment.objects.update_or_create(order=...)`: writes the amount,
   * method, reference and status, and keeps the refund fields of an
   * existing record; a new record starts with no refund.
   */
  function RecordPayment(payments: map<RowId, Payment>, row: RowId, amount: Paise, via: PaymentMethod, txn: Txn, status: PayStatus): (m: map<RowId, Payment>)
    ensures m.Keys == payments.Keys + {row}
    ensures forall k | k in payments && k != row :: m[k] == payments[k]
    ensures m[row].amount == amount && m[row].via == via && m[row].txn == txn && m[row].status == status
    ensures row !in payments ==> m[row].refundStatus == NoRefund && m[row].refundAmount == 0
    ensures row in payments ==> m[row].refundStatus == payments[row].refundStatus
  {
    if row in payments then payments[row := payments[row].(amount := amount, via := via, txn := txn, status := status)]
    else payments[row := NewPayment(amount, via, txn, status)]
  }

  function Verdict(signatureValid: bool): PayStatus {
    if signatureValid then Paid else PayFailed
  }

  /**
   * `verify_razorpay_payment` as written: the payment record is created
   * before the line is updated, whichever way the signature check goes, so a
   * line that already has one (from an earlier failed attempt) gets a 500
   * and stays as it is.
   */
  function VerifyPaymentAsWritten(db: Db, me: User, orderId: string, scan: seq<RowId>, rc: Receipt, signatureValid: bool): (r: Reply<Txn>)
    requires IsScan(db, scan)
    ensures r.body.Success? ==> signatureValid && Complete(rc)
    ensures forall row | TheLine(db, OwnLine(orderId, me), row) && Complete(rc) && row in db.payments ::
      r.db == db && r.body.Failure? && r.body.error.ServerError?
    ensures forall row | TheLine(db, OwnLine(orderId, me), row) && Complete(rc) && row !in db.payments ::
      && r.db == db.(
           orders := db.orders[row := db.orders[row].(payment := Verdict(signatureValid))],
           payments := db.payments[row := NewPayment(db.orders[row].total, Razorpay, GatewayTxn(rc.paymentId), Verdict(signatureValid))])
      && (r.body.Success? <==> signatureValid)
    ensures !Complete(rc) || |Matching(db.orders, OwnLine(orderId, me))| != 1 ==> r.db == db && r.body.Failure?
  {
    match GetOne(db, scan, OwnLine(orderId, me))
    case Failure(e) => Refuse(db, e)
    case Success(row) =>
      if !Complete(rc) then Refuse(db, BadRequest(MissingReceiptMsg))
      else
        var line := db.orders[row];
        var verdict := Verdict(signatureValid);
        match CreatePaymentRow(db.payments, row, NewPayment(line.total, Razorpay, GatewayTxn(rc.paymentId), verdict))
        case Failure(e) => Refuse(db, e)
        case Success(payments) =>
          var db' := db.(orders := db.orders[row := line.(payment := verdict)], payments := payments);
          if signatureValid then Reply(db', Success(GatewayTxn(rc.paymentId)))
          else Reply(db', Failure(BadRequest(VerificationFailedMsg)))
  }

  /**
   * `verify_razorpay_payment` with the payment record written by
   * `update_or_create`: a valid signature marks the line paid, an invalid
   * one marks it failed and answers 400.
   */
  function VerifyPayment(db: Db, me: User, orderId: string, scan: seq<RowId>, rc: Receipt, signatureValid: bool): (r: Reply<Txn>)
    requires IsScan(db, scan)
    ensures r.body.Success? ==> signatureValid && Complete(rc)
    ensures forall row | TheLine(db, OwnLine(orderId, me), row) && Complete(rc) ::
      && r.db == db.(
           orders := db.orders[row := db.orders[row].(payment := Verdict(signatureValid))],
           payments := RecordPayment(db.payments, row, db.orders[row].total, Razorpay, GatewayTxn(rc.paymentId), Verdict(signatureValid)))
      && (r.body.Success? <==> signatureValid)
    ensures !Complete(rc) || |Matching(db.orders, OwnLine(orderId, me))| != 1 ==> r.db == db && r.body.Failure?
  {
    match GetOne(db, scan, OwnLine(orderId, me))
    case Failure(e) => Refuse(db, e)
    case Success(row) =>
      if !Complete(rc) then Refuse(db, BadRequest(MissingReceiptMsg))
      else
        var line := db.orders[row];
        var verdict := Verdict(signatureValid);
        var db' := db.(
          orders := db.orders[row := line.(payment := verdict)],
          payments := RecordPayment(db.payments, row, line.total, Razorpay, GatewayTxn(rc.paymentId), verdict));
        if signatureValid then Reply(db', Success(GatewayTxn(rc.paymentId)))
        else Reply(db', Failure(BadRequest(VerificationFailedMsg)))
  }

  /** Rewriting only payment fields keeps a scan valid and keeps every lookup's match set. */
  lemma PaymentWriteKeepsLookups(db: Db, db': Db, scan: seq<RowId>, keep: OrderLine -> bool, row: RowId, verdict: PayStatus)
    requires IsScan(db, scan) && row in db.orders
    requires db'.orders == db.orders[row := db.orders[row].(payment := verdict)]
    requires forall o: OrderLine :: keep(o) == keep(o.(payment := verdict))
    ensures IsScan(db', scan)
    ensures Matching(db'.orders, keep) == Matching(db.orders, keep)
  {
    assert forall r | r in db.orders :: keep(db'.orders[r]) == keep(db.orders[r]);
  }

  /**
   * The defect: after a verification whose signature failed, a retry with a
   * valid signature can never mark the line paid; it answers 500 and the
   * line stays `failed`.
   */
  lemma RetryAfterFailureAsWritten(db: Db, me: User, orderId: string, scan: seq<RowId>, row: RowId, first: Receipt, retry: Receipt)
    requires IsScan(db, scan) && TheLine(db, OwnLine(orderId, me), row)
    requires Complete(first) && Complete(retry) && row !in db.payments
    ensures
      var db1 := VerifyPaymentAsWritten(db, me, orderId, scan, first, false).db;
      && IsScan(db1, scan)
      && var r2 := VerifyPaymentAsWritten(db1, me, orderId, scan, retry, true);
      && r2.body.Failure? && r2.body.error.ServerError?
      && r2.db.orders[row].payment == PayFailed
  {
    assert row in Matching(db.orders, OwnLine(orderId, me));
    var line := db.orders[row];
    var db1 := VerifyPaymentAsWritten(db, me, orderId, scan, first, false).db;
    assert db1 == db.(
      orders := db.orders[row := line.(payment := PayFailed)],
      payments := db.payments[row := NewPayment(line.total, Razorpay, GatewayTxn(first.paymentId), PayFailed)]);
    PaymentWriteKeepsLookups(db, db1, scan, OwnLine(orderId, me), row, PayFailed);
    assert TheLine(db1, OwnLine(orderId, me), row) && row in db1.payments;
    var r2 := VerifyPaymentAsWritten(db1, me, orderId, scan, retry, true);
    assert r2.db == db1;
  }

  /** With the corrected write the same retry marks the line paid. */
  lemma RetryAfterFailure(db: Db, me: User, orderId: string, scan: seq<RowId>, row: RowId, first: Receipt, retry: Receipt)
    requires IsScan(db, scan) && TheLine(db, OwnLine(orderId, me), row)
    requires Complete(first) && Complete(retry)
    ensures
      var db1 := VerifyPayment(db, me, orderId, scan, first, false).db;
      && IsScan(db1, scan)
      && var r2 := VerifyPayment(db1, me, orderId, scan, retry, true);
      && r2.body.Success?
      && r2.db.orders[row].payment == Paid
      && r2.db.payments[row].status == Paid
  {
    assert row in Matching(db.orders, OwnLine(orderId, me));
    var db1 := VerifyPayment(db, me, orderId, scan, first, false).db;
    PaymentWriteKeepsLookups(db, db1, scan, OwnLine(orderId, me), row, PayFailed);
  }

  /** The cart lines a verification settles: the caller's listed lines not yet paid. */
  predicate OpenCartLine(db: Db, orderIds: seq<string>, me: User, x: RowId) {
    x in db.orders && InGroups(orderIds, me)(db.orders[x]) && db.orders[x].payment != Paid
  }

  /** The open cart lines in listing order (the loop's `if order.payment_status == 'paid': continue`). */
  function OpenRows(db: Db, orderIds: seq<string>, me: User, scan: seq<RowId>): (rows: seq<RowId>)
    requires IsScan(db, scan)
    ensures Distinct(rows)
    ensures forall x :: x in rows <==> OpenCartLine(db, orderIds, me, x)
  {
    Select(db.orders, Select(db.orders, scan, InGroups(orderIds, me)), NotPaid())
  }

  /** The line after a cart verification: open lines take the verdict, all others are as they were. */
  function Settled(db: Db, orderIds: seq<string>, me: User, x: RowId, verdict: PayStatus): OrderLine
    requires x in db.orders
  {
    if OpenCartLine(db, orderIds, me, x) then db.orders[x].(payment := verdict) else db.orders[x]
  }

  /** The corrected save loop: every listed line takes the verdict and gets its record written. */
  function SettleAll(db: Db, rows: seq<RowId>, paymentId: string, verdict: PayStatus): (db': Db)
    requires forall x | x in rows :: x in db.orders
    ensures db' == db.(orders := db'.orders, payments := db'.payments)
    ensures db'.orders.Keys == db.orders.Keys
    ensures forall x | x in db.orders :: db'.orders[x] == if x in rows then db.orders[x].(payment := verdict) else db.orders[x]
    ensures forall x | x in db.payments && x !in rows :: x in db'.payments && db'.payments[x] == db.payments[x]
    ensures forall x | x in rows ::
      x in db'.payments && db'.payments[x].status == verdict && db'.payments[x].amount == db.orders[x].total
  {
    db.(orders := UpdateRows(db.orders, rows, (o: OrderLine) => o.(payment := verdict)),
        payments := RecordAll(db.orders, db.payments, rows, paymentId, verdict))
  }

  /**
   * `verify_cart_razorpay_payment` (payment records written by
   * `update_or_create`): with a valid signature every listed line of the
   * caller that is not yet paid becomes paid and its group id is reported;
   * with an invalid one each of them becomes failed. Paid lines and all
   * other lines are untouched.
   */
  function VerifyCartPayment(db: Db, me: User, orderIds: seq<string>, scan: seq<RowId>, rc: Receipt, signatureValid: bool): (r: Reply<seq<string>>)
    requires IsScan(db, scan)
    ensures r.body.Success? ==> signatureValid
    ensures orderIds == [] || !Complete(rc) || Matching(db.orders, InGroups(orderIds, me)) == {} ==>
      r.db == db && r.body.Failure?
    ensures orderIds != [] && Complete(rc) && Matching(db.orders, InGroups(orderIds, me)) != {} ==>
      && (r.body.Success? <==> signatureValid)
      && r.db == SettleAll(db, OpenRows(db, orderIds, me, scan), rc.paymentId, Verdict(signatureValid))
    ensures r.body.Success? ==> r.body.value == GroupIds(db.orders, OpenRows(db, orderIds, me, scan))
  {
    SelectEmptyIffNoMatch(db, scan, InGroups(orderIds, me));
    if orderIds == [] then Refuse(db, BadRequest(OrderIdsRequiredMsg))
    else if !Complete(rc) then Refuse(db, BadRequest(MissingReceiptMsg))
    else if Select(db.orders, scan, InGroups(orderIds, me)) == [] then Refuse(db, NotFound(NoValidOrdersMsg))
    else
      var open := OpenRows(db, orderIds, me, scan);
      var db' := SettleAll(db, open, rc.paymentId, Verdict(signatureValid));
      if signatureValid then Reply(db', Success(GroupIds(db.orders, open)))
      else Reply(db', Failure(BadRequest(VerificationFailedMsg)))
  }

  /**
   * What a cart verification does to the lines when it goes through:
   * exactly the open lines take the verdict and have a record with it.
   */
  lemma SettleAllOpenLines(db: Db, orderIds: seq<string>, me: User, scan: seq<RowId>, paymentId: string, verdict: PayStatus)
    requires IsScan(db, scan)
    ensures
      var db' := SettleAll(db, OpenRows(db, orderIds, me, scan), paymentId, verdict);
      && (forall x | x in db.orders :: db'.orders[x] == Settled(db, orderIds, me, x, verdict))
      && (forall x | OpenCartLine(db, orderIds, me, x) :: x in db'.payments && db'.payments[x].status == verdict)
  {
  }

  /** One cart payment record per listed line, each referencing the payment and its group id. */
  function RecordAll(orders: map<RowId, OrderLine>, payments: map<RowId, Payment>, rows: seq<RowId>, paymentId: string, verdict: PayStatus): (m: map<RowId, Payment>)
    requires forall r | r in rows :: r in orders
    ensures forall k | k in payments && k !in rows :: k in m && m[k] == payments[k]
    ensures forall k | k in rows ::
      (k in m && m[k].status == verdict && m[k].amount == orders[k].total
       && m[k].txn == CartTxn(paymentId, orders[k].orderId))
  {
    if rows == [] then payments
    else
      var rest := RecordAll(orders, payments, rows[1..], paymentId, verdict);
      var k := rows[0];
      RecordPayment(rest, k, orders[k].total, Razorpay, CartTxn(paymentId, orders[k].orderId), verdict)
  }

  /**
   * The cart save loop as written: one `Payment.objects.create` per open
   * line, in listing order. The first line that already has a payment
   * record raises, which ends the loop with a 500; the lines before it stay
   * written.
   */
  function CreateAll(db: Db, rows: seq<RowId>, paymentId: string, verdict: PayStatus): (r: (Db, bool))
    requires Distinct(rows) && forall x | x in rows :: x in db.orders
    ensures r.0 == db.(orders := r.0.orders, payments := r.0.payments)
    ensures r.0.orders.Keys == db.orders.Keys
    ensures r.1 <==> forall x | x in rows :: x !in db.payments
    decreases |rows|
  {
    if rows == [] then (db, true)
    else
      var x := rows[0];
      if x in db.payments then (db, false)
      else
        var o := db.orders[x];
        var db1 := db.(
          orders := db.orders[x := o.(payment := verdict)],
          payments := db.payments[x := NewPayment(o.total, Razorpay, CartTxn(paymentId, o.orderId), verdict)]);
        assert forall y | y in rows[1..] :: y != x && y in rows;
        assert forall y | y in rows :: y == x || y in rows[1..];
        CreateAll(db1, rows[1..], paymentId, verdict)
  }

  /** One step of the loop: the first line is written, and the loop carries on with the rest. */
  function CreateStep(db: Db, x: RowId, paymentId: string, verdict: PayStatus): (db1: Db)
    requires x in db.orders
    ensures db1 == db.(orders := db1.orders, payments := db1.payments)
    ensures db1.orders == db.orders[x := db.orders[x].(payment := verdict)]
    ensures db1.payments == db.payments[x := NewPayment(db.orders[x].total, Razorpay, CartTxn(paymentId, db.orders[x].orderId), verdict)]
  {
    var o := db.orders[x];
    db.(
      orders := db.orders[x := o.(payment := verdict)],
      payments := db.payments[x := NewPayment(o.total, Razorpay, CartTxn(paymentId, o.orderId), verdict)])
  }

  lemma CreateAllUnfold(db: Db, rows: seq<RowId>, paymentId: string, verdict: PayStatus)
    requires Distinct(rows) && forall x | x in rows :: x in db.orders
    requires rows != [] && rows[0] !in db.payments
    ensures Distinct(rows[1..]) && forall y | y in rows[1..] :: y != rows[0] && y in CreateStep(db, rows[0], paymentId, verdict).orders
    ensures CreateAll(db, rows, paymentId, verdict) == CreateAll(CreateStep(db, rows[0], paymentId, verdict), rows[1..], paymentId, verdict)
  {
    assert forall y | y in rows[1..] :: y != rows[0] && y in rows;
  }

  /** Lines outside the list, and lines that already had a record, are untouched by the loop. */
  lemma {:induction false} CreateAllFrame(db: Db, rows: seq<RowId>, paymentId: string, verdict: PayStatus)
    requires Distinct(rows) && forall x | x in rows :: x in db.orders
    ensures var r := CreateAll(db, rows, paymentId, verdict);
      && (forall x | x in db.orders && x !in rows :: r.0.orders[x] == db.orders[x])
      && (forall x | x in db.payments && x !in rows :: x in r.0.payments && r.0.payments[x] == db.payments[x])
    decreases |rows|
  {
    if rows != [] && rows[0] !in db.payments {
      var db1 := CreateStep(db, rows[0], paymentId, verdict);
      CreateAllUnfold(db, rows, paymentId, verdict);
      CreateAllFrame(db1, rows[1..], paymentId, verdict);
      var r := CreateAll(db1, rows[1..], paymentId, verdict);
      forall x | x in db.orders && x !in rows ensures r.0.orders[x] == db.orders[x] {
        assert x != rows[0] && x !in rows[1..];
      }
      forall x | x in db.payments && x !in rows ensures x in r.0.payments && r.0.payments[x] == db.payments[x] {
        assert x != rows[0] && x !in rows[1..];
      }
    }
  }

  /** A listed line that already had a record stays as it was. */
  lemma {:induction false} CreateAllKeepsRecorded(db: Db, rows: seq<RowId>, paymentId: string, verdict: PayStatus)
    requires Distinct(rows) && forall x | x in rows :: x in db.orders
    ensures var r := CreateAll(db, rows, paymentId, verdict);
      forall x | x in rows && x in db.payments :: r.0.orders[x] == db.orders[x] && x in r.0.payments && r.0.payments[x] == db.payments[x]
    decreases |rows|
  {
    if rows != [] && rows[0] !in db.payments {
      var db1 := CreateStep(db, rows[0], paymentId, verdict);
      CreateAllUnfold(db, rows, paymentId, verdict);
      CreateAllKeepsRecorded(db1, rows[1..], paymentId, verdict);
      var r := CreateAll(db1, rows[1..], paymentId, verdict);
      forall x | x in rows && x in db.payments
        ensures r.0.orders[x] == db.orders[x] && x in r.0.payments && r.0.payments[x] == db.payments[x]
      {
        assert x != rows[0] && x in rows[1..];
        assert x in db1.payments && db1.payments[x] == db.payments[x] && db1.orders[x] == db.orders[x];
      }
    }
  }

  /** When the loop runs to the end, every listed line carries the verdict and a fresh record. */
  lemma {:induction false} CreateAllWrites(db: Db, rows: seq<RowId>, paymentId: string, verdict: PayStatus)
    requires Distinct(rows) && forall x | x in rows :: x in db.orders
    ensures var r := CreateAll(db, rows, paymentId, verdict);
      r.1 ==> forall x | x in rows ::
        && r.0.orders[x] == db.orders[x].(payment := verdict)
        && x in r.0.payments
        && r.0.payments[x] == NewPayment(db.orders[x].total, Razorpay, CartTxn(paymentId, db.orders[x].orderId), verdict)
    decreases |rows|
  {
    if rows != [] && rows[0] !in db.payments {
      var x0 := rows[0];
      var db1 := CreateStep(db, x0, paymentId, verdict);
      CreateAllUnfold(db, rows, paymentId, verdict);
      CreateAllWrites(db1, rows[1..], paymentId, verdict);
      CreateAllFrame(db1, rows[1..], paymentId, verdict);
      var r := CreateAll(db1, rows[1..], paymentId, verdict);
      if r.1 {
        forall x | x in rows
          ensures && r.0.orders[x] == db.orders[x].(payment := verdict)
                  && x in r.0.payments
                  && r.0.payments[x] == NewPayment(db.orders[x].total, Razorpay, CartTxn(paymentId, db.orders[x].orderId), verdict)
        {
          if x == x0 {
            assert x !in rows[1..];
          } else {
            assert x in rows[1..];
            assert db1.orders[x] == db.orders[x];
          }
        }
      }
    }
  }

  /**
   * `verify_cart_razorpay_payment` as written: like `VerifyCartPayment`
   * while no open line has a payment record, but a line left `failed` by
   * an earlier attempt already has one, creating a second raises, and the
   * view answers 500.
   */
  function VerifyCartPaymentAsWritten(db: Db, me: User, orderIds: seq<string>, scan: seq<RowId>, rc: Receipt, signatureValid: bool): (r: Reply<seq<string>>)
    requires IsScan(db, scan)
    ensures r.body.Success? ==> signatureValid
    ensures orderIds == [] || !Complete(rc) || Matching(db.orders, InGroups(orderIds, me)) == {} ==>
      r.db == db && r.body.Failure?
    ensures orderIds != [] && Complete(rc) && Matching(db.orders, InGroups(orderIds, me)) != {} ==>
      var w := CreateAll(db, OpenRows(db, orderIds, me, scan), rc.paymentId, Verdict(signatureValid));
      && r.db == w.0
      && (r.body.Success? <==> w.1 && signatureValid)
      && (!w.1 ==> r.body.Failure? && r.body.error.ServerError?)
    ensures r.body.Success? ==> r.body.value == GroupIds(db.orders, OpenRows(db, orderIds, me, scan))
  {
    SelectEmptyIffNoMatch(db, scan, InGroups(orderIds, me));
    if orderIds == [] then Refuse(db, BadRequest(OrderIdsRequiredMsg))
    else if !Complete(rc) then Refuse(db, BadRequest(MissingReceiptMsg))
    else if Select(db.orders, scan, InGroups(orderIds, me)) == [] then Refuse(db, NotFound(NoValidOrdersMsg))
    else
      var open := OpenRows(db, orderIds, me, scan);
      var (db', ok) := CreateAll(db, open, rc.paymentId, Verdict(signatureValid));
      if !ok then Reply(db', Failure(ServerError(DuplicatePaymentMsg)))
      else if signatureValid then Reply(db', Success(GroupIds(db.orders, open)))
      else Reply(db', Failure(BadRequest(VerificationFailedMsg)))
  }

  /**
   * The as-written loop agrees with the corrected one while no open line
   * has a record, and answers 500 without touching a line that has one.
   */
  lemma CreateAllOpenLines(db: Db, orderIds: seq<string>, me: User, scan: seq<RowId>, paymentId: string, verdict: PayStatus)
    requires IsScan(db, scan)
    ensures
      var w := CreateAll(db, OpenRows(db, orderIds, me, scan), paymentId, verdict);
      && (w.1 <==> forall x | OpenCartLine(db, orderIds, me, x) :: x !in db.payments)
      && (w.1 ==> forall x | x in db.orders :: w.0.orders[x] == Settled(db, orderIds, me, x, verdict))
      && (w.1 ==> forall x | OpenCartLine(db, orderIds, me, x) :: x in w.0.payments && w.0.payments[x].status == verdict)
      && (forall x | OpenCartLine(db, orderIds, me, x) && x in db.payments :: w.0.orders[x] == db.orders[x])
  {
    var rows := OpenRows(db, orderIds, me, scan);
    CreateAllFrame(db, rows, paymentId, verdict);
    CreateAllKeepsRecorded(db, rows, paymentId, verdict);
    CreateAllWrites(db, rows, paymentId, verdict);
    var w := CreateAll(db, rows, paymentId, verdict);
    if w.1 {
      forall x | x in db.orders ensures w.0.orders[x] == Settled(db, orderIds, me, x, verdict) {
        if x in rows {
          assert OpenCartLine(db, orderIds, me, x);
        } else {
          assert !OpenCartLine(db, orderIds, me, x);
        }
      }
      forall x | OpenCartLine(db, orderIds, me, x) ensures x in w.0.payments && w.0.payments[x].status == verdict {
        assert x in rows;
      }
    }
    forall x | OpenCartLine(db, orderIds, me, x) && x in db.payments ensures w.0.orders[x] == db.orders[x] {
      assert x in rows;
    }
  }

  /** Rewriting payment status only keeps every cart lookup, and a scan stays valid. */
  lemma PaymentStatusKeepsCart(db: Db, db': Db, scan: seq<RowId>, orderIds: seq<string>, me: User)
    requires IsScan(db, scan)
    requires db'.orders.Keys == db.orders.Keys
    requires forall x | x in db.orders :: db'.orders[x] == db.orders[x].(payment := db'.orders[x].payment)
    ensures IsScan(db', scan)
    ensures Matching(db'.orders, InGroups(orderIds, me)) == Matching(db.orders, InGroups(orderIds, me))
  {
    assert forall x | x in db.orders :: InGroups(orderIds, me)(db'.orders[x]) == InGroups(orderIds, me)(db.orders[x]);
  }

  /** After a failed cart attempt the scan, the cart lookup and the open lines are as before. */
  lemma AfterFailedCart(db: Db, db1: Db, orderIds: seq<string>, me: User, scan: seq<RowId>)
    requires IsScan(db, scan)
    requires db1 == db.(orders := db1.orders, payments := db1.payments)
    requires db1.orders.Keys == db.orders.Keys
    requires forall y | y in db.orders :: db1.orders[y] == Settled(db, orderIds, me, y, PayFailed)
    ensures IsScan(db1, scan)
    ensures Matching(db1.orders, InGroups(orderIds, me)) == Matching(db.orders, InGroups(orderIds, me))
    ensures forall y | OpenCartLine(db, orderIds, me, y) :: OpenCartLine(db1, orderIds, me, y)
  {
    PaymentStatusKeepsCart(db, db1, scan, orderIds, me);
    forall y | OpenCartLine(db, orderIds, me, y)
      ensures OpenCartLine(db1, orderIds, me, y)
    {
      assert db1.orders[y] == db.orders[y].(payment := PayFailed);
    }
  }

  /**
   * The defect, for carts: after a checkout whose signature failed, a
   * valid retry answers 500 and every open line stays `failed`.
   */
  lemma CartRetryAfterFailureAsWritten(db: Db, me: User, orderIds: seq<string>, scan: seq<RowId>, first: Receipt, retry: Receipt, x: RowId)
    requires IsScan(db, scan) && Complete(first) && Complete(retry) && orderIds != []
    requires OpenCartLine(db, orderIds, me, x)
    requires forall y | OpenCartLine(db, orderIds, me, y) :: y !in db.payments
    ensures
      var db1 := VerifyCartPaymentAsWritten(db, me, orderIds, scan, first, false).db;
      && IsScan(db1, scan)
      && var r2 := VerifyCartPaymentAsWritten(db1, me, orderIds, scan, retry, true);
      && r2.body.Failure? && r2.body.error.ServerError?
      && forall y | OpenCartLine(db, orderIds, me, y) :: r2.db.orders[y].payment == PayFailed
  {
    assert x in Matching(db.orders, InGroups(orderIds, me));
    var w1 := CreateAll(db, OpenRows(db, orderIds, me, scan), first.paymentId, PayFailed);
    var db1 := VerifyCartPaymentAsWritten(db, me, orderIds, scan, first, false).db;
    assert db1 == w1.0;
    CreateAllOpenLines(db, orderIds, me, scan, first.paymentId, PayFailed);
    AfterFailedCart(db, db1, orderIds, me, scan);
    assert x in Matching(db1.orders, InGroups(orderIds, me));
    CreateAllOpenLines(db1, orderIds, me, scan, retry.paymentId, Paid);
    assert OpenCartLine(db1, orderIds, me, x) && x in db1.payments;
  }

  /** With the corrected write the same retry marks every open line paid. */
  lemma CartRetryAfterFailure(db: Db, me: User, orderIds: seq<string>, scan: seq<RowId>, first: Receipt, retry: Receipt, x: RowId)
    requires IsScan(db, scan) && Complete(first) && Complete(retry) && orderIds != []
    requires OpenCartLine(db, orderIds, me, x)
    ensures
      var db1 := VerifyCartPayment(db, me, orderIds, scan, first, false).db;
      && IsScan(db1, scan)
      && var r2 := VerifyCartPayment(db1, me, orderIds, scan, retry, true);
      && r2.body.Success?
      && forall y | OpenCartLine(db, orderIds, me, y) :: r2.db.orders[y].payment == Paid
  {
    assert x in Matching(db.orders, InGroups(orderIds, me));
    var db1 := VerifyCartPayment(db, me, orderIds, scan, first, false).db;
    assert db1 == SettleAll(db, OpenRows(db, orderIds, me, scan), first.paymentId, PayFailed);
    SettleAllOpenLines(db, orderIds, me, scan, first.paymentId, PayFailed);
    AfterFailedCart(db, db1, orderIds, me, scan);
    assert x in Matching(db1.orders, InGroups(orderIds, me));
    var r2 := VerifyCartPayment(db1, me, orderIds, scan, retry, true);
    assert r2.db == SettleAll(db1, OpenRows(db1, orderIds, me, scan), retry.paymentId, Paid);
    SettleAllOpenLines(db1, orderIds, me, scan, retry.paymentId, Paid);
    forall y | OpenCartLine(db, orderIds, me, y)
      ensures r2.db.orders[y].payment == Paid
    {
      assert r2.db.orders[y] == Settled(db1, orderIds, me, y, Paid);
    }
  }

  /**
   * The defect before the retry, for carts: after a checkout whose
   * signature failed, every listed line is either paid or failed, none is
   * pending, so `create_cart_razorpay_order` refuses the same cart and the
   * customer never gets a gateway order to pay it with.
   */
  lemma FailedCartCannotReorder(db: Db, me: User, orderIds: seq<string>, scan: seq<RowId>, rc: Receipt, gateway: Result<string, string>)
    requires IsScan(db, scan) && Complete(rc) && orderIds != []
    ensures
      var db1 := VerifyCartPayment(db, me, orderIds, scan, rc, false).db;
      && IsScan(db1, scan)
      && CreateCartGatewayOrder(db1, me, orderIds, scan, gateway).body.Failure?
  {
    var db1 := VerifyCartPayment(db, me, orderIds, scan, rc, false).db;
    if Matching(db.orders, InGroups(orderIds, me)) != {} {
      SettleAllOpenLines(db, orderIds, me, scan, rc.paymentId, PayFailed);
      AfterFailedCart(db, db1, orderIds, me, scan);
      forall row | row in db1.orders && InGroups(orderIds, me)(db1.orders[row])
        ensures db1.orders[row].payment != PayPending
      {
        assert db1.orders[row] == Settled(db, orderIds, me, row, PayFailed);
      }
    } else {
      assert db1 == db;
    }
  }

  /**
   * With the corrected filter the same cart gets a new gateway order after
   * a failed checkout, covering every line the checkout left open.
   */
  lemma FailedCartCanReorder(db: Db, me: User, orderIds: seq<string>, scan: seq<RowId>, rc: Receipt, gatewayId: string, x: RowId)
    requires IsScan(db, scan) && Complete(rc) && orderIds != []
    requires OpenCartLine(db, orderIds, me, x)
    ensures
      var db1 := VerifyCartPayment(db, me, orderIds, scan, rc, false).db;
      && IsScan(db1, scan)
      && var r := CreateCartGatewayOrderCorrected(db1, me, orderIds, scan, Success(gatewayId));
      && r.body.Success?
      && forall y | OpenCartLine(db, orderIds, me, y) :: y in r.body.value.rows
  {
    assert x in Matching(db.orders, InGroups(orderIds, me));
    var db1 := VerifyCartPayment(db, me, orderIds, scan, rc, false).db;
    SettleAllOpenLines(db, orderIds, me, scan, rc.paymentId, PayFailed);
    AfterFailedCart(db, db1, orderIds, me, scan);
    assert OpenCartLine(db1, orderIds, me, x);
  }

  /**
   * `process_payment`, the non-gateway path: refused when the line is
   * already paid, otherwise the line and its payment record become paid
   * with a `TXN-<order>-<time>` reference.
   */
  function ProcessPayment(db: Db, me: User, orderId: string, scan: seq<RowId>, via: PaymentMethod, now: int): (r: Reply<Txn>)
    requires IsScan(db, scan)
    ensures r.body.Failure? ==> r.db == db
    ensures forall row | TheLine(db, OwnLine(orderId, me), row) ::
      (r.body.Success? <==> db.orders[row].payment != Paid)
      && (r.body.Success? ==>
            && r.db.orders == db.orders[row := db.orders[row].(payment := Paid)]
            && row in r.db.payments && r.db.payments[row].status == Paid && r.db.payments[row].amount == db.orders[row].total
            && r.db == db.(
                 orders := db.orders[row := db.orders[row].(payment := Paid)],
                 payments := RecordPayment(db.payments, row, db.orders[row].total, via, LegacyTxn(orderId, now), Paid))
            && r.body.value == LegacyTxn(orderId, now))
    ensures |Matching(db.orders, OwnLine(orderId, me))| != 1 ==> r.body.Failure?
  {
    match GetOne(db, scan, OwnLine(orderId, me))
    case Failure(e) => Refuse(db, e)
    case Success(row) =>
      var line := db.orders[row];
      if line.payment == Paid then Refuse(db, BadRequest(AlreadyPaidMsg))
      else
        var db' := db.(
          orders := db.orders[row := line.(payment := Paid)],
          payments := RecordPayment(db.payments, row, line.total, via, LegacyTxn(orderId, now), Paid));
        Reply(db', Success(LegacyTxn(orderId, now)))
  }

  /**
   * `process_payment` as written: the record is created with `create`, so
   * a line that already has one (from a failed gateway attempt) cannot be
   * paid this way either; the unique key raises and the view answers 500.
   */
  function ProcessPaymentAsWritten(db: Db, me: User, orderId: string, scan: seq<RowId>, via: PaymentMethod, now: int): (r: Reply<Txn>)
    requires IsScan(db, scan)
    ensures r.body.Failure? ==> r.db == db
    ensures forall row | TheLine(db, OwnLine(orderId, me), row) ::
      && (r.body.Success? <==> db.orders[row].payment != Paid && row !in db.payments)
      && (db.orders[row].payment != Paid && row in db.payments ==> r.body.error.ServerError?)
      && (r.body.Success? ==> r.db == ProcessPayment(db, me, orderId, scan, via, now).db)
    ensures |Matching(db.orders, OwnLine(orderId, me))| != 1 ==> r.body.Failure?
  {
    match GetOne(db, scan, OwnLine(orderId, me))
    case Failure(e) => Refuse(db, e)
    case Success(row) =>
      var line := db.orders[row];
      if line.payment == Paid then Refuse(db, BadRequest(AlreadyPaidMsg))
      else
        match CreatePaymentRow(db.payments, row, NewPayment(line.total, via, LegacyTxn(orderId, now), Paid))
        case Failure(e) => Refuse(db, e)
        case Success(payments) =>
          Reply(db.(orders := db.orders[row := line.(payment := Paid)], payments := payments), Success(LegacyTxn(orderId, now)))
  }

  /** After a failed gateway attempt the fallback payment path is closed as written ... */
  lemma FallbackAfterFailureAsWritten(db: Db, me: User, orderId: string, scan: seq<RowId>, row: RowId, first: Receipt, via: PaymentMethod, now: int)
    requires IsScan(db, scan) && TheLine(db, OwnLine(orderId, me), row)
    requires Complete(first) && row !in db.payments
    ensures
      var db1 := VerifyPaymentAsWritten(db, me, orderId, scan, first, false).db;
      && IsScan(db1, scan)
      && ProcessPaymentAsWritten(db1, me, orderId, scan, via, now).body.Failure?
      && ProcessPaymentAsWritten(db1, me, orderId, scan, via, now).body.error.ServerError?
  {
    assert row in Matching(db.orders, OwnLine(orderId, me));
    var db1 := VerifyPaymentAsWritten(db, me, orderId, scan, first, false).db;
    PaymentWriteKeepsLookups(db, db1, scan, OwnLine(orderId, me), row, PayFailed);
  }

  /** ... and open with the corrected write. */
  lemma FallbackAfterFailure(db: Db, me: User, orderId: string, scan: seq<RowId>, row: RowId, first: Receipt, via: PaymentMethod, now: int)
    requires IsScan(db, scan) && TheLine(db, OwnLine(orderId, me), row)
    requires Complete(first)
    ensures
      var db1 := VerifyPayment(db, me, orderId, scan, first, false).db;
      && IsScan(db1, scan)
      && ProcessPayment(db1, me, orderId, scan, via, now).body.Success?
  {
    assert row in Matching(db.orders, OwnLine(orderId, me));
    var db1 := VerifyPayment(db, me, orderId, scan, first, false).db;
    PaymentWriteKeepsLookups(db, db1, scan, OwnLine(orderId, me), row, PayFailed);
  }
}
