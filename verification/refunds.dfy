/**
 * `request_refund` of `views.py`: a customer asks for the money of a
 * rejected or cancelled paid line back. The gateway's refund call is an
 * input (`Success(refund id)` or a failure); the clock is `now`.
 */
module Refunds {
  import opened Wrappers
  import opened Models
  import opened Store
  import Text
  import opened Payments

  // Messages of the views
  const NoPaymentMsg := "No payment record found for this order"
  const NotRefundableMsg := "Order cannot be refunded in current status"
  const OnlyPaidRefundMsg := "Only paid orders can be refunded"
  const RefundNoteTitle := "Refund Initiated"

  /** The reason recorded when the request carries none. */
  const DefaultRefundReason: string := "Order cancelled by user"

  /**
   * The statuses a refund may be asked for in. The view also lists
   * `delivery_failed`, which is not an order status, so no line is ever in it.
   */
  predicate Refundable(s: OrderStatus) { s == PharmacyRejected || s == Cancelled }

  /** The stored transaction reference is non-empty (Python truthiness). */
  predicate HasTxnId(t: Txn) {
    match t
    case GatewayTxn(p) => p != ""
    case _ => true
  }

  /** The refund statuses a successful request can leave behind. */
  predicate InFlight(s: RefundStatus) { s == Initiated || s == Processing || s == RefundPending }

  /** What the view reports back about the refund it started. */
  datatype RefundReceipt = RefundReceipt(status: RefundStatus, amount: Paise, initiatedAt: int)

  /** A number of paise below 100 prints as one digit below 10 and as two otherwise. */
  lemma CentsWidth(c: nat)
    requires c < 100
    ensures |Text.NatToString(c)| == if c < 10 then 1 else 2
  {
    assert Text.Pow10(0) == 1 && Text.Pow10(1) == 10 && Text.Pow10(2) == 100;
    if c >= 10 { Text.NatToStringLength(c, 1); }
  }

  /** `str()` of a two-place decimal amount held in paise, e.g. `250.05`. */
  function Rupees(p: Paise): (s: string)
    ensures |s| >= 4 && s[|s| - 3] == '.'
    ensures Text.AllDigits(s[..|s| - 3]) && Text.AllDigits(s[|s| - 2..])
  {
    var whole := Text.NatToString(p / 100);
    var cents := Text.NatToString(p % 100);
    CentsWidth(p % 100);
    var s := whole + "." + (if p % 100 < 10 then "0" + cents else cents);
    assert s[..|s| - 3] == whole;
    s
  }

  /** The notification telling the customer the refund has started. */
  function RefundNote(id: nat, me: User, row: RowId, orderId: string, amount: Paise, now: int): UserNote {
    UserNote(id, me.id, row, OrderStatusNote, RefundNoteTitle,
             "Your refund for order " + orderId + " has been initiated. Amount: ₹" + Rupees(amount)
             + ". Check back for status updates.",
             None, false, now)
  }

  /**
   * The payment record after a successful request: the whole amount is
   * marked for refund with the reason and time; a gateway payment is also
   * sent to the gateway, which moves it to `processing` with the refund id
   * or, when the call fails, to `pending` for manual handling.
   */
  function StartRefund(p: Payment, reason: string, now: int, gateway: Result<string, string>): (q: Payment)
    ensures q == p.(refundStatus := q.refundStatus, refundAmount := p.amount, refundTxn := q.refundTxn,
                    refundReason := Some(reason), refundInitiatedAt := Some(now))
    ensures InFlight(q.refundStatus)
    ensures q.refundStatus == Initiated <==> !(p.via == Razorpay && HasTxnId(p.txn))
    ensures q.refundStatus == Processing <==> p.via == Razorpay && HasTxnId(p.txn) && gateway.Success?
    ensures q.refundTxn.Some? && q.refundTxn != p.refundTxn ==> q.refundStatus == Processing && q.refundTxn == Some(gateway.value)
  {
    var q := p.(refundStatus := Initiated, refundAmount := p.amount, refundReason := Some(reason), refundInitiatedAt := Some(now));
    if p.via == Razorpay && HasTxnId(p.txn) then
      match gateway
      case Success(id) => q.(refundTxn := Some(id), refundStatus := Processing)
      case Failure(_) => q.(refundStatus := RefundPending)
    else q
  }

  /** The line may be refunded: refundable status, paid record, no refund started yet. */
  predicate MayRefund(db: Db, row: RowId)
    requires row in db.orders
  {
    && row in db.payments
    && Refundable(db.orders[row].status)
    && db.payments[row].status == Paid
    && db.payments[row].refundStatus == NoRefund
  }

  /**
   * `request_refund` once the caller's line is found: refused when it has
   * no payment record (404), is not rejected or cancelled, is not paid, or
   * already has a refund under way (400). Otherwise its payment record
   * starts the refund and the customer is notified.
   */
  function RefundLine(db: Db, me: User, orderId: string, row: RowId, reason: Option<string>,
                      gateway: Result<string, string>, now: int): (r: Reply<RefundReceipt>)
    requires row in db.orders
    ensures r.db.orders == db.orders
    ensures r.body.Failure? ==> r.db == db
    ensures r.body.Success? <==> MayRefund(db, row)
    ensures row !in db.payments ==> r.body.Failure? && r.body.error.NotFound?
    ensures row in db.payments && !MayRefund(db, row) ==> r.body.Failure? && r.body.error.BadRequest?
    ensures r.body.Success? ==>
      var q := StartRefund(db.payments[row], reason.GetOr(DefaultRefundReason), now, gateway);
      && r.db == db.(payments := db.payments[row := q],
                     userNotes := db.userNotes + [RefundNote(db.nextNoteId, me, row, orderId, q.amount, now)],
                     nextNoteId := db.nextNoteId + 1)
      && r.body.value == RefundReceipt(q.refundStatus, db.payments[row].amount, now)
      && InFlight(r.body.value.status)
  {
    var o := db.orders[row];
    if row !in db.payments then Refuse(db, NotFound(NoPaymentMsg))
    else
      var p := db.payments[row];
      if !Refundable(o.status) then Refuse(db, BadRequest(NotRefundableMsg))
      else if p.status != Paid then Refuse(db, BadRequest(OnlyPaidRefundMsg))
      else if p.refundStatus != NoRefund then
        Refuse(db, BadRequest("Refund already " + RefundStatusName(p.refundStatus)))
      else
        var q := StartRefund(p, reason.GetOr(DefaultRefundReason), now, gateway);
        Reply(db.(payments := db.payments[row := q],
                  userNotes := db.userNotes + [RefundNote(db.nextNoteId, me, row, orderId, q.amount, now)],
                  nextNoteId := db.nextNoteId + 1),
              Success(RefundReceipt(q.refundStatus, p.amount, now)))
  }

  /** `request_refund`: the caller's line is looked up by group id, then decided as above. */
  function RequestRefund(db: Db, me: User, orderId: string, scan: seq<RowId>, reason: Option<string>,
                         gateway: Result<string, string>, now: int): (r: Reply<RefundReceipt>)
    requires IsScan(db, scan)
    ensures r.db.orders == db.orders
    ensures r.body.Failure? ==> r.db == db
    ensures Matching(db.orders, OwnLine(orderId, me)) == {} ==> r.body.Failure? && r.body.error.NotFound?
    ensures |Matching(db.orders, OwnLine(orderId, me))| != 1 ==> r.body.Failure?
    ensures forall row | Matching(db.orders, OwnLine(orderId, me)) == {row} ::
      row in db.orders && r == RefundLine(db, me, orderId, row, reason, gateway, now)
  {
    match GetOne(db, scan, OwnLine(orderId, me))
    case Failure(e) => Refuse(db, e)
    case Success(row) =>
      assert row in Matching(db.orders, OwnLine(orderId, me));
      RefundLine(db, me, orderId, row, reason, gateway, now)
  }

  /**
   * A refund can be started at most once: the first request moves the
   * record out of `no_refund`, so a second request for the same line is
   * refused whatever the gateway says.
   */
  lemma RefundOnce(db: Db, me: User, orderId: string, scan: seq<RowId>, reason1: Option<string>, reason2: Option<string>,
                   gw1: Result<string, string>, gw2: Result<string, string>, now1: int, now2: int)
    requires IsScan(db, scan)
    ensures
      var r1 := RequestRefund(db, me, orderId, scan, reason1, gw1, now1);
      && IsScan(r1.db, scan)
      && (r1.body.Success? ==>
            var r2 := RequestRefund(r1.db, me, orderId, scan, reason2, gw2, now2);
            r2.body.Failure? && r2.body.error.BadRequest? && r2.db == r1.db)
  {
    var r1 := RequestRefund(db, me, orderId, scan, reason1, gw1, now1);
    if r1.body.Success? {
      var row :| Matching(db.orders, OwnLine(orderId, me)) == {row};
      assert r1 == RefundLine(db, me, orderId, row, reason1, gw1, now1);
      assert r1.db.payments[row].refundStatus != NoRefund;
      assert !MayRefund(r1.db, row);
      assert RequestRefund(r1.db, me, orderId, scan, reason2, gw2, now2) == RefundLine(r1.db, me, orderId, row, reason2, gw2, now2);
    }
  }

  /** Only a customer's own paid line in a refundable status is ever refunded, and the whole amount. */
  lemma RefundOnlyPaidRefundable(db: Db, me: User, orderId: string, scan: seq<RowId>, reason: Option<string>,
                                 gateway: Result<string, string>, now: int)
    requires IsScan(db, scan)
    ensures
      var r := RequestRefund(db, me, orderId, scan, reason, gateway, now);
      r.body.Success? ==>
        exists row | row in db.orders && row in db.payments ::
          && db.orders[row].orderId == orderId && db.orders[row].user == me.id
          && Refundable(db.orders[row].status)
          && db.payments[row].status == Paid
          && r.db.payments[row].refundAmount == db.payments[row].amount
          && r.body.value.amount == db.payments[row].amount
  {
    var r := RequestRefund(db, me, orderId, scan, reason, gateway, now);
    if r.body.Success? {
      var row :| Matching(db.orders, OwnLine(orderId, me)) == {row};
      assert row in Matching(db.orders, OwnLine(orderId, me));
      assert r == RefundLine(db, me, orderId, row, reason, gateway, now);
    }
  }
}
