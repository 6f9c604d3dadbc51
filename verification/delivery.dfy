/**
 * The courier side of `views.py`: listing unclaimed deliveries, claiming
 * one (`accept_delivery_order`), the older accept/reject and complete
 * endpoints, and the OTP handshake that closes a delivery
 * (`generate_delivery_otp`, `verify_delivery_otp`). Time is an integer
 * number of seconds; the random code is an input.
 */
module Dispatch {
  import opened Wrappers
  import opened Models
  import opened Store
  import Text

  // Messages of the views
  const NoDeliveryMsg := "Order has no delivery."
  const NotAssignedMsg := "This order is not assigned to you"
  const TakenMsg := "Order already assigned to another delivery partner"
  const DeliveryNotFoundMsg := "Delivery record not found for this order."
  const CourierOnlyViewMsg := "Only delivery partners can view pending orders"
  const CourierOnlyVerifyMsg := "Only delivery partners can verify OTP."
  const CourierOnlyGenerateMsg := "Only delivery partners can generate OTP."
  const CourierOnlyCompleteMsg := "Only delivery partners can complete deliveries"
  const CourierOnlyAcceptOrdersMsg := "Only delivery partners can accept orders"
  const CourierOnlyAcceptMsg := "Only delivery partners can accept deliveries"
  const OtpRequiredMsg := "OTP is required"
  const OtpExpiredMsg := "OTP has expired. Please generate a new one."
  const NoOtpMsg := "No OTP generated for this delivery"
  const WrongOtpMsg := "Invalid OTP. Please try again."
  const WrongStageMsg := "Cannot generate OTP for delivery with this status"
  const OtpNoteTitle := "Delivery OTP Verification"
  const OtpNotePrefix := "Your delivery partner has requested OTP verification. Please share this OTP: "
  const CompletedNoteTitle := "Delivery Completed"

  /** The lines of a group: `get(order_id=...)` plus the extra filters each view adds. */
  function WithGroupId(orderId: string): OrderLine -> bool {
    (o: OrderLine) => o.orderId == orderId
  }

  function NeedingDelivery(orderId: string): OrderLine -> bool {
    (o: OrderLine) => o.orderId == orderId && o.deliveryRequired
  }

  function ClaimedBy(orderId: string, courier: UserId): OrderLine -> bool {
    (o: OrderLine) => o.orderId == orderId && o.partner == Some(courier)
  }

  /** A notification to this courier about this line. */
  predicate About(n: PartnerNote, courier: UserId, row: RowId) {
    n.recipient == courier && n.order == row
  }

  /**
   * The courier's notifications about one line, marked read: afterwards
   * none of them is unread, each keeps everything but its read flag, and
   * every other notification is as it was, in the same place.
   */
  function MarkReadFor(notes: seq<PartnerNote>, courier: UserId, row: RowId): (out: seq<PartnerNote>)
    ensures |out| == |notes|
    ensures forall i | 0 <= i < |out| && About(out[i], courier, row) :: out[i].isRead
    ensures forall i | 0 <= i < |notes| :: out[i].(isRead := notes[i].isRead) == notes[i]
    ensures forall i | 0 <= i < |notes| && !About(notes[i], courier, row) :: out[i] == notes[i]
  {
    seq(|notes|, i requires 0 <= i < |notes| =>
      if About(notes[i], courier, row) then notes[i].(isRead := true) else notes[i])
  }

  /** Marking the same notifications read a second time changes nothing. */
  lemma MarkReadForTwice(notes: seq<PartnerNote>, courier: UserId, row: RowId)
    ensures MarkReadFor(MarkReadFor(notes, courier, row), courier, row) == MarkReadFor(notes, courier, row)
  {
    var once := MarkReadFor(notes, courier, row);
    var twice := MarkReadFor(once, courier, row);
    forall i | 0 <= i < |notes| ensures twice[i] == once[i] {
      if About(once[i], courier, row) {
        assert once[i].isRead;
        assert twice[i].(isRead := once[i].isRead) == once[i];
      }
    }
  }

  // ---------------------------------------------------------------------------
  // get_pending_delivery_orders
  // ---------------------------------------------------------------------------

  /** A line is open for claiming: needs delivery, paid, accepted by the pharmacy, and unclaimed. */
  predicate Claimable(o: OrderLine) {
    o.deliveryRequired && o.payment == Paid && o.status == PharmacyAccepted && o.partner.None?
  }

  function IsClaimable(): OrderLine -> bool { (o: OrderLine) => Claimable(o) }

  /** `get_pending_delivery_orders`: the claimable lines, newest first; couriers only. */
  function PendingDeliveries(db: Db, me: User, scan: seq<RowId>): (r: Result<seq<RowId>, Failure>)
    requires IsScan(db, scan)
    ensures r.Success? <==> me.role == Courier
    ensures r.Success? ==>
      && (forall row :: row in r.value <==> row in db.orders && Claimable(db.orders[row]))
      && Distinct(r.value) && NewestFirst(db.orders, r.value)
  {
    if me.role != Courier then Failure(Forbidden(CourierOnlyViewMsg))
    else Success(Select(db.orders, scan, IsClaimable()))
  }

  // ---------------------------------------------------------------------------
  // accept_delivery_order: claiming a line
  // ---------------------------------------------------------------------------

  /** The pickup address a delivery created at claim time gets. */
  function PickupFor(db: Db, o: OrderLine): string {
    if o.pharmacy.Some? && o.pharmacy.value in db.pharmacies then db.pharmacies[o.pharmacy.value].address else ""
  }

  /** The line's delivery after a claim: assigned to the courier, created if missing. */
  function AssignedDelivery(db: Db, row: RowId, courier: UserId): (d: Delivery)
    requires row in db.orders
    ensures d.status == Assigned && d.driver == Some(courier)
    ensures row in db.deliveries ==> d == db.deliveries[row].(status := Assigned, driver := Some(courier))
  {
    if row in db.deliveries then db.deliveries[row].(status := Assigned, driver := Some(courier))
    else Delivery(Some(courier), Assigned, PickupFor(db, db.orders[row]), db.orders[row].deliveryAddress,
                  None, None, DefaultEstimatedMinutes, None)
  }

  /**
   * `accept_delivery_order`: a courier claims the one line of the group
   * that needs delivery. A line that already has a partner is refused;
   * otherwise the line gets the courier and goes out for delivery, its
   * delivery is assigned to the courier, and the courier's notifications
   * about it are marked read. Nothing else changes.
   */
  function ClaimDelivery(db: Db, me: User, orderId: string, scan: seq<RowId>): (r: Reply<RowId>)
    requires IsScan(db, scan)
    ensures r.body.Failure? ==> r.db == db
    ensures me.role != Courier ==> r.body.Failure? && r.body.error.Forbidden?
    ensures me.role == Courier && |Matching(db.orders, NeedingDelivery(orderId))| != 1 ==> r.body.Failure?
    ensures forall row | me.role == Courier && TheOnly(db, NeedingDelivery(orderId), row) ::
      && (r.body.Success? <==> db.orders[row].partner.None?)
      && (r.body.Failure? ==> r.body.error == BadRequest(TakenMsg))
      && (r.body.Success? ==>
            && r.body.value == row
            && r.db == db.(
                 orders := db.orders[row := db.orders[row].(partner := Some(me.id), status := OutForDelivery)],
                 deliveries := db.deliveries[row := AssignedDelivery(db, row, me.id)],
                 partnerNotes := MarkReadFor(db.partnerNotes, me.id, row)))
  {
    if me.role != Courier then Refuse(db, Forbidden(CourierOnlyAcceptOrdersMsg))
    else
      match GetOne(db, scan, NeedingDelivery(orderId))
      case Failure(e) => Refuse(db, e)
      case Success(row) =>
        var line := db.orders[row];
        if line.partner.Some? then Refuse(db, BadRequest(TakenMsg))
        else
          Reply(db.(
            orders := db.orders[row := line.(partner := Some(me.id), status := OutForDelivery)],
            deliveries := db.deliveries[row := AssignedDelivery(db, row, me.id)],
            partnerNotes := MarkReadFor(db.partnerNotes, me.id, row)), Success(row))
  }

  /** `row` is the one line a lookup finds. */
  predicate TheOnly(db: Db, keep: OrderLine -> bool, row: RowId) {
    Matching(db.orders, keep) == {row}
  }

  /** Only the lookup keys matter to the lookup: rewriting a line's partner and status keeps the match set. */
  lemma ClaimKeepsLookup(db: Db, db': Db, scan: seq<RowId>, orderId: string, row: RowId, courier: UserId)
    requires IsScan(db, scan) && row in db.orders
    requires db'.orders == db.orders[row := db.orders[row].(partner := Some(courier), status := OutForDelivery)]
    ensures IsScan(db', scan)
    ensures Matching(db'.orders, NeedingDelivery(orderId)) == Matching(db.orders, NeedingDelivery(orderId))
  {
    assert forall x | x in db.orders :: NeedingDelivery(orderId)(db'.orders[x]) == NeedingDelivery(orderId)(db.orders[x]);
  }

  /** Of two couriers claiming the same line one after the other, the first keeps it. */
  lemma FirstClaimWins(db: Db, a: User, b: User, orderId: string, scan: seq<RowId>)
    requires IsScan(db, scan)
    requires ClaimDelivery(db, a, orderId, scan).body.Success?
    ensures
      var first := ClaimDelivery(db, a, orderId, scan);
      var second := ClaimDelivery(first.db, b, orderId, scan);
      && second.body.Failure?
      && second.db == first.db
      && first.db.orders[first.body.value].partner == Some(a.id)
  {
    var first := ClaimDelivery(db, a, orderId, scan);
    var row := first.body.value;
    assert row in Matching(db.orders, NeedingDelivery(orderId));
    ClaimKeepsLookup(db, first.db, scan, orderId, row, a.id);
  }

  /**
   * The claim looks the group up with `get`, so a cart whose group has two
   * or more lines that need delivery can never be claimed: the lookup
   * raises and the view answers 500.
   */
  lemma MultiLineGroupCannotBeClaimed(db: Db, me: User, orderId: string, scan: seq<RowId>, x: RowId, y: RowId)
    requires IsScan(db, scan) && me.role == Courier
    requires x in db.orders && y in db.orders && x != y
    requires NeedingDelivery(orderId)(db.orders[x]) && NeedingDelivery(orderId)(db.orders[y])
    ensures ClaimDelivery(db, me, orderId, scan).body.Failure?
    ensures ClaimDelivery(db, me, orderId, scan).body.error.ServerError?
  {
    assert {x, y} <= Matching(db.orders, NeedingDelivery(orderId));
    assert |{x, y}| == 2;
    SubsetSize({x, y}, Matching(db.orders, NeedingDelivery(orderId)));
  }

  lemma SubsetSize(a: set<RowId>, b: set<RowId>)
    requires a <= b
    ensures |a| <= |b|
  {
    assert b == a + (b - a);
  }

  // ---------------------------------------------------------------------------
  // delivery_accept_order and mark_delivery_complete
  // ---------------------------------------------------------------------------

  datatype Answer = AcceptIt | RejectIt | OtherAnswer(name: string)

  /**
   * `delivery_accept_order`, for a courier already named on the line.
   * Accepting sends the line out for delivery and then assigns its
   * delivery; the line is saved first, so when it has no delivery the view
   * fails with a 500 after that write. Rejecting takes the courier off the
   * line.
   */
  function RespondToAssignment(db: Db, me: User, orderId: string, answer: Answer, scan: seq<RowId>): (r: Reply<RowId>)
    requires IsScan(db, scan)
    ensures me.role != Courier || |Matching(db.orders, ClaimedBy(orderId, me.id))| != 1 || answer.OtherAnswer? ==>
      r.db == db && r.body.Failure?
    ensures forall row | me.role == Courier && TheOnly(db, ClaimedBy(orderId, me.id), row) ::
      && (answer == RejectIt ==>
            r.body.Success? && r.db == db.(orders := db.orders[row := db.orders[row].(partner := None)]))
      && (answer == AcceptIt ==>
            && r.db.orders == db.orders[row := db.orders[row].(status := OutForDelivery)]
            && (r.body.Success? <==> row in db.deliveries)
            && (row in db.deliveries ==>
                  r.db == db.(
                    orders := db.orders[row := db.orders[row].(status := OutForDelivery)],
                    deliveries := db.deliveries[row := db.deliveries[row].(status := Assigned, driver := Some(me.id))]))
            && (row !in db.deliveries ==>
                  r.body.error.ServerError? && r.db == db.(orders := db.orders[row := db.orders[row].(status := OutForDelivery)])))
  {
    if me.role != Courier then Refuse(db, Forbidden(CourierOnlyAcceptMsg))
    else
      match GetOne(db, scan, ClaimedBy(orderId, me.id))
      case Failure(e) => Refuse(db, e)
      case Success(row) =>
        var line := db.orders[row];
        match answer
        case AcceptIt =>
          var db1 := db.(orders := db.orders[row := line.(status := OutForDelivery)]);
          if row !in db.deliveries then Reply(db1, Failure(ServerError(NoDeliveryMsg)))
          else
            Reply(db1.(deliveries := db.deliveries[row := db.deliveries[row].(status := Assigned, driver := Some(me.id))]), Success(row))
        case RejectIt => Reply(db.(orders := db.orders[row := line.(partner := None)]), Success(row))
        case OtherAnswer(_) => Refuse(db, BadRequest(InvalidActionMsg))
  }

  /**
   * `mark_delivery_complete`: closes the courier's line and its delivery
   * without any OTP check, recording the estimate as the actual time.
   */
  function CompleteDelivery(db: Db, me: User, orderId: string, scan: seq<RowId>): (r: Reply<RowId>)
    requires IsScan(db, scan)
    ensures r.body.Failure? ==> r.db == db
    ensures r.body.Success? <==>
      me.role == Courier && |Matching(db.orders, ClaimedBy(orderId, me.id))| == 1
      && forall row | TheOnly(db, ClaimedBy(orderId, me.id), row) :: row in db.deliveries
    ensures r.body.Success? ==>
      var row := r.body.value;
      TheOnly(db, ClaimedBy(orderId, me.id), row) && row in db.deliveries &&
      var d := db.deliveries[row];
      r.db == db.(
           orders := db.orders[row := db.orders[row].(status := Delivered)],
           deliveries := db.deliveries[row := d.(status := DeliveryDone, actualMinutes := Some(d.estimatedMinutes))])
  {
    if me.role != Courier then Refuse(db, Forbidden(CourierOnlyCompleteMsg))
    else
      match GetOne(db, scan, ClaimedBy(orderId, me.id))
      case Failure(e) => Refuse(db, e)
      case Success(row) =>
        if row !in db.deliveries then Refuse(db, ServerError(NoDeliveryMsg))
        else
          var d := db.deliveries[row];
          Reply(db.(
            orders := db.orders[row := db.orders[row].(status := Delivered)],
            deliveries := db.deliveries[row := d.(status := DeliveryDone, actualMinutes := Some(d.estimatedMinutes))]), Success(row))
  }

  // ---------------------------------------------------------------------------
  // The OTP handshake
  // ---------------------------------------------------------------------------

  /** How long a code stays usable, in seconds. */
  const OtpLifetime: int := 600

  /** The delivery states in which a code may be issued. */
  predicate OtpStage(s: DeliveryStatus) {
    s == Assigned || s == AtPickup || s == InTransit
  }

  /** The caller may act on this line: it is the line's courier, or an admin. */
  predicate MayHandle(me: User, o: OrderLine) {
    o.partner == Some(me.id) || me.role == Admin
  }

  /** A stored code that is still young at `now` and is handed back again instead of a new one. */
  predicate FreshCode(d: Delivery, now: int) {
    d.otp.Some? && d.otp.value != "" && d.otpAt.Some? && now - d.otpAt.value < OtpLifetime
  }

  /** The answer to a code request: whether the stored code was reused, and its seconds left. */
  datatype OtpIssue = Reused(secondsLeft: int) | Issued

  /** The notification that carries a new code to the customer. */
  function OtpNote(id: nat, o: OrderLine, row: RowId, code: string, now: int): UserNote {
    UserNote(id, o.user, row, DeliveryOtpNote, OtpNoteTitle,
             OtpNotePrefix + code,
             Some(code), false, now)
  }

  /**
   * `generate_delivery_otp` once the line is found: for a delivery in
   * progress, reuse the stored code while it is younger than 600 s;
   * otherwise store the new six-digit code with the current time and send
   * it to the customer.
   */
  function IssueCode(db: Db, me: User, row: RowId, code: nat, now: int): (r: Reply<OtpIssue>)
    requires row in db.orders
    requires 100000 <= code <= 999999
    ensures r.db.orders == db.orders
    ensures r.body.Failure? || r.body.value.Reused? ==> r.db == db
    ensures !MayHandle(me, db.orders[row]) ==> r.body.Failure? && r.body.error.Forbidden?
    ensures MayHandle(me, db.orders[row]) && row !in db.deliveries ==> r.body.Failure? && r.body.error.NotFound?
    ensures MayHandle(me, db.orders[row]) && row in db.deliveries ==>
      var d := db.deliveries[row];
      && (r.body.Success? <==> OtpStage(d.status))
      && (r.body.Success? && FreshCode(d, now) ==> r.body.value == Reused(OtpLifetime - (now - d.otpAt.value)))
      && (r.body.Success? && !FreshCode(d, now) ==>
            r.body.value == Issued && r.db == WithCode(db, row, Text.NatToString(code), now))
  {
    var line := db.orders[row];
    if !MayHandle(me, line) then Refuse(db, Forbidden(NotAssignedMsg))
    else if row !in db.deliveries then Refuse(db, NotFound(DeliveryNotFoundMsg))
    else
      var d := db.deliveries[row];
      if !OtpStage(d.status) then Refuse(db, BadRequest(WrongStageMsg))
      else if FreshCode(d, now) then Reply(db, Success(Reused(OtpLifetime - (now - d.otpAt.value))))
      else
        Reply(WithCode(db, row, Text.NatToString(code), now), Success(Issued))
  }

  /** The write of a new code: stored on the delivery with its time, and sent to the customer. */
  function WithCode(db: Db, row: RowId, code: string, now: int): Db
    requires row in db.orders && row in db.deliveries
  {
    db.(
      deliveries := db.deliveries[row := db.deliveries[row].(otp := Some(code), otpAt := Some(now))],
      userNotes := db.userNotes + [OtpNote(db.nextNoteId, db.orders[row], row, code, now)],
      nextNoteId := db.nextNoteId + 1)
  }

  /**
   * `generate_delivery_otp`: couriers and admins only; the group id must
   * name exactly one line, and then the request is decided on that line.
   */
  function GenerateOtp(db: Db, me: User, orderId: string, scan: seq<RowId>, code: nat, now: int): (r: Reply<OtpIssue>)
    requires IsScan(db, scan)
    requires 100000 <= code <= 999999
    ensures r.db.orders == db.orders
    ensures r.body.Failure? || r.body.value.Reused? ==> r.db == db
    ensures me.role != Courier && me.role != Admin ==> r.body.Failure? && r.body.error.Forbidden?
    ensures |Matching(db.orders, WithGroupId(orderId))| != 1 ==> r.body.Failure?
    ensures (me.role == Courier || me.role == Admin) && |Matching(db.orders, WithGroupId(orderId))| > 1 ==>
      r.body.error.ServerError?
    ensures forall row | (me.role == Courier || me.role == Admin) && TheOnly(db, WithGroupId(orderId), row) ::
      row in db.orders && r == IssueCode(db, me, row, code, now)
  {
    if me.role != Courier && me.role != Admin then
      Refuse(db, Forbidden(CourierOnlyGenerateMsg))
    else
      match GetOne(db, scan, WithGroupId(orderId))
      case Failure(e) => Refuse(db, e)
      case Success(row) =>
        assert row in Matching(db.orders, WithGroupId(orderId));
        IssueCode(db, me, row, code, now)
  }

  /** An issued code is six decimal digits. */
  lemma IssuedCodeIsSixDigits(db: Db, me: User, orderId: string, scan: seq<RowId>, code: nat, now: int, row: RowId)
    requires IsScan(db, scan)
    requires 100000 <= code <= 999999
    requires GenerateOtp(db, me, orderId, scan, code, now).body == Success(Issued)
    requires TheOnly(db, WithGroupId(orderId), row)
    ensures
      var d := GenerateOtp(db, me, orderId, scan, code, now).db.deliveries[row];
      d.otp.Some? && |d.otp.value| == 6 && Text.AllDigits(d.otp.value) && d.otpAt == Some(now)
  {
    IssuedAt(db, me, orderId, scan, code, now, row);
    Text.SixDigitCode(code);
  }

  /** The stored code is past its lifetime. */
  predicate Expired(d: Delivery, now: int) {
    d.otpAt.Some? && now - d.otpAt.value > OtpLifetime
  }

  /** The entered code closes the delivery: one is stored, it has not expired, and it matches. */
  predicate CodeAccepted(d: Delivery, entered: string, now: int) {
    d.otp.Some? && d.otp.value != "" && !Expired(d, now) && d.otp.value == entered
  }

  /**
   * `verify_delivery_otp`: a matching, unexpired code marks the line and
   * its delivery delivered, clears the code and its time, and tells the
   * customer. Every refusal leaves the database as it was.
   */
  function VerifyOtp(db: Db, me: User, orderId: string, scan: seq<RowId>, entered: string, now: int): (r: Reply<RowId>)
    requires IsScan(db, scan)
    ensures r.body.Failure? ==> r.db == db
    ensures (me.role != Courier && me.role != Admin) || entered == "" || |Matching(db.orders, WithGroupId(orderId))| != 1 ==>
      r.body.Failure?
    ensures forall row | (me.role == Courier || me.role == Admin) && entered != "" && TheOnly(db, WithGroupId(orderId), row) ::
      && (r.body.Success? <==> MayHandle(me, db.orders[row]) && row in db.deliveries && CodeAccepted(db.deliveries[row], entered, now))
      && (r.body.Success? ==>
            var d := db.deliveries[row];
            && r.body.value == row
            && r.db == db.(
                 orders := db.orders[row := db.orders[row].(status := Delivered)],
                 deliveries := db.deliveries[row := d.(status := DeliveryDone, actualMinutes := Some(d.estimatedMinutes), otp := None, otpAt := None)],
                 partnerNotes := db.partnerNotes + [PartnerNote(db.nextNoteId, db.orders[row].user, row, DeliveryCompletedNote, CompletedNoteTitle, false)],
                 nextNoteId := db.nextNoteId + 1))
  {
    if me.role != Courier && me.role != Admin then Refuse(db, Forbidden(CourierOnlyVerifyMsg))
    else if entered == "" then Refuse(db, BadRequest(OtpRequiredMsg))
    else
      match GetOne(db, scan, WithGroupId(orderId))
      case Failure(e) => Refuse(db, e)
      case Success(row) =>
        var line := db.orders[row];
        if !MayHandle(me, line) then Refuse(db, Forbidden(NotAssignedMsg))
        else if row !in db.deliveries then Refuse(db, ServerError(NoDeliveryMsg))
        else
          var d := db.deliveries[row];
          if d.otp.None? || d.otp.value == "" then Refuse(db, BadRequest(NoOtpMsg))
          else if Expired(d, now) then Refuse(db, BadRequest(OtpExpiredMsg))
          else if d.otp.value != entered then Refuse(db, BadRequest(WrongOtpMsg))
          else
            Reply(db.(
              orders := db.orders[row := line.(status := Delivered)],
              deliveries := db.deliveries[row := d.(status := DeliveryDone, actualMinutes := Some(d.estimatedMinutes), otp := None, otpAt := None)],
              partnerNotes := db.partnerNotes + [PartnerNote(db.nextNoteId, line.user, row, DeliveryCompletedNote, CompletedNoteTitle, false)],
              nextNoteId := db.nextNoteId + 1), Success(row))
  }

  /** A status rewrite keeps every lookup by group id and keeps the scan valid. */
  lemma StatusWriteKeepsLookup(db: Db, db': Db, scan: seq<RowId>, orderId: string, row: RowId, s: OrderStatus)
    requires IsScan(db, scan) && row in db.orders
    requires db'.orders == db.orders[row := db.orders[row].(status := s)]
    ensures IsScan(db', scan)
    ensures Matching(db'.orders, WithGroupId(orderId)) == Matching(db.orders, WithGroupId(orderId))
  {
    assert forall x | x in db.orders :: WithGroupId(orderId)(db'.orders[x]) == WithGroupId(orderId)(db.orders[x]);
  }

  /** A code works once: replaying it after a successful verification is refused. */
  lemma CodeWorksOnce(db: Db, me: User, orderId: string, scan: seq<RowId>, entered: string, now: int, later: int)
    requires IsScan(db, scan)
    requires VerifyOtp(db, me, orderId, scan, entered, now).body.Success?
    ensures
      var db1 := VerifyOtp(db, me, orderId, scan, entered, now).db;
      var again := VerifyOtp(db1, me, orderId, scan, entered, later);
      again.body.Failure? && again.db == db1
  {
    var first := VerifyOtp(db, me, orderId, scan, entered, now);
    var row := first.body.value;
    assert row in Matching(db.orders, WithGroupId(orderId));
    StatusWriteKeepsLookup(db, first.db, scan, orderId, row, Delivered);
    assert first.db.deliveries[row].otp.None?;
  }

  /**
   * The handshake closes: a freshly issued code, entered by the line's
   * courier within its lifetime, completes the delivery.
   */
  lemma IssuedCodeVerifies(db: Db, me: User, orderId: string, scan: seq<RowId>, code: nat, now: int, later: int, row: RowId)
    requires IsScan(db, scan)
    requires 100000 <= code <= 999999
    requires TheOnly(db, WithGroupId(orderId), row)
    requires GenerateOtp(db, me, orderId, scan, code, now).body == Success(Issued)
    requires now <= later <= now + OtpLifetime
    ensures
      var db1 := GenerateOtp(db, me, orderId, scan, code, now).db;
      VerifyOtp(db1, me, orderId, scan, Text.NatToString(code), later).body.Success?
  {
    var g := GenerateOtp(db, me, orderId, scan, code, now);
    IssuedAt(db, me, orderId, scan, code, now, row);
    var d := db.deliveries[row];
    NewCodeAccepted(d, code, now, later);
    assert g.db.deliveries[row] == d.(otp := Some(Text.NatToString(code)), otpAt := Some(now));
    assert TheOnly(g.db, WithGroupId(orderId), row);
    VerifyAccepts(g.db, me, orderId, scan, Text.NatToString(code), later, row);
  }

  /** What a request that issued a new code found and wrote. */
  lemma IssuedAt(db: Db, me: User, orderId: string, scan: seq<RowId>, code: nat, now: int, row: RowId)
    requires IsScan(db, scan)
    requires 100000 <= code <= 999999
    requires TheOnly(db, WithGroupId(orderId), row)
    requires GenerateOtp(db, me, orderId, scan, code, now).body == Success(Issued)
    ensures row in db.orders && (me.role == Courier || me.role == Admin) && MayHandle(me, db.orders[row])
    ensures row in db.deliveries && !FreshCode(db.deliveries[row], now)
    ensures var g := GenerateOtp(db, me, orderId, scan, code, now);
      && IsScan(g.db, scan)
      && row in g.db.deliveries
      && g.db.deliveries[row] == db.deliveries[row].(otp := Some(Text.NatToString(code)), otpAt := Some(now))
  {
    assert row in Matching(db.orders, WithGroupId(orderId));
    assert me.role == Courier || me.role == Admin;
  }

  lemma NewCodeAccepted(d: Delivery, code: nat, now: int, later: int)
    requires 100000 <= code <= 999999 && now <= later <= now + OtpLifetime
    ensures CodeAccepted(d.(otp := Some(Text.NatToString(code)), otpAt := Some(now)), Text.NatToString(code), later)
  {
    Text.SixDigitCode(code);
  }

  lemma VerifyAccepts(db: Db, me: User, orderId: string, scan: seq<RowId>, entered: string, now: int, row: RowId)
    requires IsScan(db, scan) && (me.role == Courier || me.role == Admin) && entered != ""
    requires TheOnly(db, WithGroupId(orderId), row) && row in db.orders && MayHandle(me, db.orders[row])
    requires row in db.deliveries && CodeAccepted(db.deliveries[row], entered, now)
    ensures VerifyOtp(db, me, orderId, scan, entered, now).body.Success?
  {
  }

  /** A code issued to one line cannot be reused on a multi-line group: the lookup itself fails. */
  lemma MultiLineGroupHasNoOtp(db: Db, me: User, orderId: string, scan: seq<RowId>, code: nat, now: int, x: RowId, y: RowId)
    requires IsScan(db, scan) && 100000 <= code <= 999999
    requires me.role == Courier || me.role == Admin
    requires x in db.orders && y in db.orders && x != y
    requires db.orders[x].orderId == orderId && db.orders[y].orderId == orderId
    ensures GenerateOtp(db, me, orderId, scan, code, now).body.Failure?
    ensures GenerateOtp(db, me, orderId, scan, code, now).body.error.ServerError?
  {
    assert {x, y} <= Matching(db.orders, WithGroupId(orderId));
    assert |{x, y}| == 2;
    SubsetSize({x, y}, Matching(db.orders, WithGroupId(orderId)));
  }
}
