/**
 * The customer dashboard's own logic (`UserDashboard.jsx`): the
 * client-side cart, checkout's request sequence, the notification
 * read-marking and clean-up rules, and the refund controls. Network
 * answers and the clock are parameters; times are milliseconds.
 */
module UserDashboard {
  import opened Wrappers
  import opened Models
  import Text
  import Payments

  // ---------------------------------------------------------------------------
  // Cart
  // ---------------------------------------------------------------------------

  /**
   * One cart entry. `price` is the listing's price in paise as read when
   * the medicine was added; `None` stands for a price that did not parse.
   */
  datatype CartEntry = CartEntry(medicine: MedicineId, pharmacy: PharmacyId, quantity: int, price: Option<Paise>)

  /** No two entries for the same medicine. */
  predicate UniqueMedicines(cart: seq<CartEntry>) {
    forall i, j | 0 <= i < j < |cart| :: cart[i].medicine != cart[j].medicine
  }

  /** Every quantity is at least one. */
  predicate PositiveQuantities(cart: seq<CartEntry>) {
    forall i | 0 <= i < |cart| :: cart[i].quantity >= 1
  }

  predicate Holds(cart: seq<CartEntry>, medicine: MedicineId) {
    exists i | 0 <= i < |cart| :: cart[i].medicine == medicine
  }

  /** The total number of units in the cart. */
  function Units(cart: seq<CartEntry>): int {
    if cart == [] then 0 else Units(cart[..|cart| - 1]) + cart[|cart| - 1].quantity
  }

  function Bump(e: CartEntry, medicine: MedicineId): CartEntry {
    if e.medicine == medicine then e.(quantity := e.quantity + 1) else e
  }

  /**
   * `addToCart`: nothing without a pharmacy; one more unit of a medicine
   * already in the cart; otherwise a new entry with one unit.
   */
  function AddToCart(cart: seq<CartEntry>, medicine: MedicineId, pharmacy: Option<PharmacyId>, price: Option<Paise>): (r: seq<CartEntry>)
    ensures pharmacy.None? ==> r == cart
    ensures pharmacy.Some? && !Holds(cart, medicine) ==> r == cart + [CartEntry(medicine, pharmacy.value, 1, price)]
    ensures pharmacy.Some? && Holds(cart, medicine) ==>
      |r| == |cart| && forall i | 0 <= i < |cart| ::
        r[i] == if cart[i].medicine == medicine then cart[i].(quantity := cart[i].quantity + 1) else cart[i]
    ensures UniqueMedicines(cart) ==> UniqueMedicines(r)
    ensures PositiveQuantities(cart) ==> PositiveQuantities(r)
  {
    if pharmacy.None? then cart
    else if Holds(cart, medicine) then seq(|cart|, i requires 0 <= i < |cart| => Bump(cart[i], medicine))
    else cart + [CartEntry(medicine, pharmacy.value, 1, price)]
  }

  /** Adding to a cart with a pharmacy adds exactly one unit. */
  lemma AddAddsOneUnit(cart: seq<CartEntry>, medicine: MedicineId, pharmacy: PharmacyId, price: Option<Paise>)
    requires UniqueMedicines(cart)
    ensures Units(AddToCart(cart, medicine, Some(pharmacy), price)) == Units(cart) + 1
    ensures Holds(AddToCart(cart, medicine, Some(pharmacy), price), medicine)
  {
    var r := AddToCart(cart, medicine, Some(pharmacy), price);
    if Holds(cart, medicine) {
      var k :| 0 <= k < |cart| && cart[k].medicine == medicine;
      UnitsOneChanged(cart, r, k);
      assert r[k].medicine == medicine;
    } else {
      assert r[..|r| - 1] == cart;
      assert r[|cart|].medicine == medicine;
    }
  }

  /** Changing one entry's quantity by one changes the units by one. */
  lemma {:induction false} UnitsOneChanged(a: seq<CartEntry>, b: seq<CartEntry>, k: nat)
    requires |a| == |b| && k < |a|
    requires b[k].quantity == a[k].quantity + 1
    requires forall i | 0 <= i < |a| && i != k :: b[i].quantity == a[i].quantity
    ensures Units(b) == Units(a) + 1
  {
    var n := |a| - 1;
    if n == k {
      UnitsSame(a[..n], b[..n]);
    } else {
      UnitsOneChanged(a[..n], b[..n], k);
    }
  }

  lemma {:induction false} UnitsSame(a: seq<CartEntry>, b: seq<CartEntry>)
    requires |a| == |b|
    requires forall i | 0 <= i < |a| :: b[i].quantity == a[i].quantity
    ensures Units(b) == Units(a)
  {
    if a != [] {
      UnitsSame(a[..|a| - 1], b[..|b| - 1]);
    }
  }

  function SetQuantity(e: CartEntry, medicine: MedicineId, quantity: int): CartEntry {
    if e.medicine == medicine then e.(quantity := if quantity < 1 then 1 else quantity) else e
  }

  /** `updateCartQuantity`: the matching entry gets `max(1, quantity)`; nothing else changes. */
  function UpdateQuantity(cart: seq<CartEntry>, medicine: MedicineId, quantity: int): (r: seq<CartEntry>)
    ensures |r| == |cart|
    ensures forall i | 0 <= i < |cart| ::
      r[i].medicine == cart[i].medicine && r[i].pharmacy == cart[i].pharmacy && r[i].price == cart[i].price
    ensures forall i | 0 <= i < |cart| && cart[i].medicine != medicine :: r[i] == cart[i]
    ensures forall i | 0 <= i < |cart| && cart[i].medicine == medicine :: r[i].quantity >= 1 && (quantity >= 1 ==> r[i].quantity == quantity)
    ensures UniqueMedicines(cart) ==> UniqueMedicines(r)
    ensures PositiveQuantities(cart) ==> PositiveQuantities(r)
  {
    seq(|cart|, i requires 0 <= i < |cart| => SetQuantity(cart[i], medicine, quantity))
  }

  /** `removeFromCart`: drops exactly the entries for that medicine, keeping the rest in order. */
  function RemoveFromCart(cart: seq<CartEntry>, medicine: MedicineId): (r: seq<CartEntry>)
    ensures forall e :: e in r <==> e in cart && e.medicine != medicine
    ensures !Holds(r, medicine)
    ensures |r| <= |cart|
  {
    if cart == [] then []
    else
      var rest := RemoveFromCart(cart[..|cart| - 1], medicine);
      var last := cart[|cart| - 1];
      assert cart == cart[..|cart| - 1] + [last];
      if last.medicine == medicine then rest else rest + [last]
  }

  /** Removing keeps the cart's shape: one entry per medicine, every quantity at least one. */
  lemma {:induction false} RemoveKeepsShape(cart: seq<CartEntry>, medicine: MedicineId)
    ensures UniqueMedicines(cart) ==> UniqueMedicines(RemoveFromCart(cart, medicine))
    ensures PositiveQuantities(cart) ==> PositiveQuantities(RemoveFromCart(cart, medicine))
  {
    if cart != [] {
      var init := cart[..|cart| - 1];
      var last := cart[|cart| - 1];
      var rest := RemoveFromCart(init, medicine);
      RemoveKeepsShape(init, medicine);
      assert UniqueMedicines(cart) ==> UniqueMedicines(init) by {
        if UniqueMedicines(cart) {
          forall i, j | 0 <= i < j < |init| ensures init[i].medicine != init[j].medicine {
            assert init[i] == cart[i] && init[j] == cart[j];
          }
        }
      }
      assert PositiveQuantities(cart) ==> PositiveQuantities(init) by {
        if PositiveQuantities(cart) {
          forall i | 0 <= i < |init| ensures init[i].quantity >= 1 {
            assert init[i] == cart[i];
          }
        }
      }
      if last.medicine != medicine {
        var r := rest + [last];
        assert RemoveFromCart(cart, medicine) == r;
        if UniqueMedicines(cart) {
          forall i, j | 0 <= i < j < |r| ensures r[i].medicine != r[j].medicine {
            if j == |rest| {
              assert r[i] in init;
              var k :| 0 <= k < |init| && init[k] == r[i];
              assert cart[k] == r[i] && cart[|cart| - 1] == last;
            } else {
              assert r[i] == rest[i] && r[j] == rest[j];
            }
          }
        }
        if PositiveQuantities(cart) {
          forall i | 0 <= i < |r| ensures r[i].quantity >= 1 {
            if i < |rest| { assert r[i] == rest[i]; }
          }
        }
      }
    }
  }

  /** Changing a quantity and then removing the medicine is the same as removing it. */
  lemma {:induction false} RemoveAfterUpdate(cart: seq<CartEntry>, medicine: MedicineId, quantity: int)
    ensures RemoveFromCart(UpdateQuantity(cart, medicine, quantity), medicine) == RemoveFromCart(cart, medicine)
  {
    if cart != [] {
      var u := UpdateQuantity(cart, medicine, quantity);
      assert u[..|u| - 1] == UpdateQuantity(cart[..|cart| - 1], medicine, quantity);
      RemoveAfterUpdate(cart[..|cart| - 1], medicine, quantity);
    }
  }

  /** `Number(item.price) || 0`: an unreadable price counts as zero. */
  function PriceOrZero(e: CartEntry): Paise { e.price.GetOr(0) }

  /** `getCartTotal`: the sum of price times quantity. */
  function ClientTotal(cart: seq<CartEntry>): int {
    if cart == [] then 0 else ClientTotal(cart[..|cart| - 1]) + PriceOrZero(cart[|cart| - 1]) * cart[|cart| - 1].quantity
  }

  /** The server-side cart items with the same medicines, pharmacies and quantities. */
  function ServerItems(cart: seq<CartEntry>): seq<CartItem>
    requires PositiveQuantities(cart)
  {
    seq(|cart|, i requires 0 <= i < |cart| && PositiveQuantities(cart) => CartItem(cart[i].medicine, cart[i].pharmacy, cart[i].quantity as nat))
  }

  /**
   * While every entry's remembered price is its listing's current price,
   * the dashboard's total is the server's `Cart.get_total_price`.
   */
  lemma {:induction false} ClientTotalIsServerTotal(inv: Inventory, cart: seq<CartEntry>)
    requires PositiveQuantities(cart)
    requires forall i | 0 <= i < |cart| ::
      (cart[i].pharmacy, cart[i].medicine) in inv && cart[i].price == Some(inv[(cart[i].pharmacy, cart[i].medicine)].price)
    ensures ClientTotal(cart) == CartTotal(inv, ServerItems(cart))
  {
    if cart != [] {
      var init := cart[..|cart| - 1];
      ClientTotalIsServerTotal(inv, init);
      assert ServerItems(cart) == ServerItems(init) + [ServerItems(cart)[|cart| - 1]];
      CartSumsAppend(inv, ServerItems(init), [ServerItems(cart)[|cart| - 1]]);
      assert CartTotal(inv, [ServerItems(cart)[|cart| - 1]]) == Subtotal(inv, ServerItems(cart)[|cart| - 1]);
    }
  }

  // ---------------------------------------------------------------------------
  // Checkout
  // ---------------------------------------------------------------------------

  /** The requests checkout sends. */
  datatype Call =
    | CreateOrderCall(medicine: MedicineId, pharmacy: PharmacyId, quantity: int, deliveryRequired: bool, address: string, orderId: string)
    | CartPaymentCall(orderIds: seq<string>)

  /** `[...new Set(ids)]`: first occurrences, in order. */
  function Dedupe(ids: seq<string>): (r: seq<string>)
    ensures forall x :: x in r <==> x in ids
    ensures forall i, j | 0 <= i < j < |r| :: r[i] != r[j]
  {
    if ids == [] then []
    else
      var rest := Dedupe(ids[..|ids| - 1]);
      var last := ids[|ids| - 1];
      assert ids == ids[..|ids| - 1] + [last];
      if last in rest then rest else rest + [last]
  }

  /** The answer to the `i`-th create-order request: the created line's group id, or `None` for a failure. */
  function ReplyAt(replies: seq<Option<string>>, i: nat): Option<string> {
    if i < |replies| then replies[i] else None
  }

  function CreateCall(e: CartEntry, deliveryRequired: bool, address: string, sharedId: string): Call {
    CreateOrderCall(e.medicine, e.pharmacy, e.quantity, deliveryRequired, address, sharedId)
  }

  /** The create-order requests from entry `i` on, stopping after the first failure. */
  function CreateCalls(cart: seq<CartEntry>, i: nat, deliveryRequired: bool, address: string, sharedId: string,
                       replies: seq<Option<string>>): (calls: seq<Call>)
    requires i <= |cart|
    ensures |calls| <= |cart| - i
    ensures forall k | 0 <= k < |calls| :: calls[k] == CreateCall(cart[i + k], deliveryRequired, address, sharedId)
    ensures |calls| == |cart| - i <==> forall k | i <= k < |cart| - 1 :: ReplyAt(replies, k).Some?
    ensures |calls| < |cart| - i ==> |calls| >= 1 && ReplyAt(replies, i + |calls| - 1).None?
    decreases |cart| - i
  {
    if i == |cart| then []
    else
      var call := CreateCall(cart[i], deliveryRequired, address, sharedId);
      if ReplyAt(replies, i).None? then [call]
      else [call] + CreateCalls(cart, i + 1, deliveryRequired, address, sharedId, replies)
  }

  /** The group ids the create-order answers reported. */
  function ReportedIds(replies: seq<Option<string>>, n: nat): (ids: seq<string>)
    ensures |ids| == n
  {
    if n == 0 then [] else ReportedIds(replies, n - 1) + [ReplyAt(replies, n - 1).GetOr("")]
  }

  predicate AllCreated(replies: seq<Option<string>>, n: nat) {
    forall k | 0 <= k < n :: ReplyAt(replies, k).Some?
  }

  /**
   * `checkoutCart`: no request for an empty cart, or for a delivery with a
   * blank address; otherwise one create-order request per entry, all with
   * the one generated group id, stopping at the first failure; when every
   * one succeeds, one cart-payment request with the de-duplicated ids the
   * answers reported.
   */
  function Checkout(cart: seq<CartEntry>, deliveryRequired: bool, address: string, sharedId: string,
                    replies: seq<Option<string>>): (calls: seq<Call>)
    ensures cart == [] || (deliveryRequired && Text.Blank(address)) ==> calls == []
    ensures calls != [] ==> forall k | 0 <= k < |calls| - 1 :: calls[k].CreateOrderCall? && calls[k].orderId == sharedId
    ensures calls != [] && AllCreated(replies, |cart|) ==>
      |calls| == |cart| + 1 && calls[|cart|] == CartPaymentCall(Dedupe(ReportedIds(replies, |cart|)))
    ensures calls != [] && !AllCreated(replies, |cart|) ==>
      |calls| <= |cart| && forall k | 0 <= k < |calls| :: calls[k].CreateOrderCall?
  {
    if cart == [] || (deliveryRequired && Text.Blank(address)) then []
    else
      var creates := CreateCalls(cart, 0, deliveryRequired, address, sharedId, replies);
      assert forall k | 0 <= k < |creates| :: creates[k].CreateOrderCall? && creates[k].orderId == sharedId;
      if AllCreated(replies, |cart|) then
        assert |creates| == |cart|;
        var calls := creates + [CartPaymentCall(Dedupe(ReportedIds(replies, |cart|)))];
        assert forall k | 0 <= k < |calls| - 1 :: calls[k] == creates[k];
        calls
      else creates
  }

  /**
   * The server keeps a client-supplied group id, so when every line is
   * created the payment request names exactly the shared id.
   */
  lemma CheckoutPaysOneGroup(cart: seq<CartEntry>, deliveryRequired: bool, address: string, sharedId: string,
                             replies: seq<Option<string>>)
    requires cart != [] && !(deliveryRequired && Text.Blank(address))
    requires forall k | 0 <= k < |cart| :: ReplyAt(replies, k) == Some(sharedId)
    ensures Checkout(cart, deliveryRequired, address, sharedId, replies)[|cart|] == CartPaymentCall([sharedId])
  {
    var ids := ReportedIds(replies, |cart|);
    ReportedAll(replies, |cart|, sharedId);
    DedupeConstant(ids, sharedId);
  }

  /** De-duplicating a non-empty list of one repeated id leaves that id once. */
  lemma {:induction false} DedupeConstant(ids: seq<string>, x: string)
    requires ids != [] && forall i | 0 <= i < |ids| :: ids[i] == x
    ensures Dedupe(ids) == [x]
  {
    if |ids| > 1 {
      DedupeConstant(ids[..|ids| - 1], x);
    }
  }

  lemma {:induction false} ReportedAll(replies: seq<Option<string>>, n: nat, id: string)
    requires forall k | 0 <= k < n :: ReplyAt(replies, k) == Some(id)
    ensures forall i | 0 <= i < n :: ReportedIds(replies, n)[i] == id
  {
    if n > 0 {
      ReportedAll(replies, n - 1, id);
    }
  }

  /** Every create-order request the server answers with the shared id ends up in one group. */
  lemma CheckoutLinesShareGroup(calls: seq<Call>, k: nat, cart: seq<CartEntry>, deliveryRequired: bool, address: string,
                                sharedId: string, replies: seq<Option<string>>)
    requires calls == Checkout(cart, deliveryRequired, address, sharedId, replies)
    requires k + 1 < |calls|
    ensures calls[k] == CreateCall(cart[k], deliveryRequired, address, sharedId)
  {
  }

  // ---------------------------------------------------------------------------
  // Notifications
  // ---------------------------------------------------------------------------

  /**
   * A notification as the dashboard holds it. `orderId` is its `order_id`
   * field, which the serializer fills with the group id of the notification's
   * order (a text, never a number); `createdAt` is `None` when the date does
   * not parse.
   */
  datatype ClientNote = ClientNote(id: nat, orderId: string, kind: string, title: string, message: string,
                                   createdAt: Option<int>, isRead: bool)

  function UnreadIds(notes: seq<ClientNote>): (ids: seq<nat>)
    ensures forall x :: x in ids <==> exists n | n in notes :: !n.isRead && n.id == x
    ensures ids == [] <==> forall n | n in notes :: n.isRead
  {
    if notes == [] then []
    else
      var rest := UnreadIds(notes[..|notes| - 1]);
      var last := notes[|notes| - 1];
      assert notes == notes[..|notes| - 1] + [last];
      if last.isRead then rest else rest + [last.id]
  }

  /** What `markNotificationsAsRead` sends (if anything) and the local list afterwards. */
  datatype MarkOutcome = MarkOutcome(request: Option<seq<nat>>, notes: seq<ClientNote>)

  /**
   * `markNotificationsAsRead`: sends the ids of the unread notifications,
   * and only when there is one; when the server accepts, every local
   * notification is shown as read.
   */
  function MarkAllRead(notes: seq<ClientNote>, accepted: bool): (r: MarkOutcome)
    ensures r.request.None? <==> forall n | n in notes :: n.isRead
    ensures r.request.Some? ==> r.request.value != [] && (forall x :: x in r.request.value <==> exists n | n in notes :: !n.isRead && n.id == x)
    ensures |r.notes| == |notes|
    ensures r.request.Some? && accepted ==> forall i | 0 <= i < |notes| :: r.notes[i] == notes[i].(isRead := true)
    ensures r.request.None? || !accepted ==> r.notes == notes
  {
    var ids := UnreadIds(notes);
    if ids == [] then MarkOutcome(None, notes)
    else
      assert ids[0] in ids;
      if accepted then MarkOutcome(Some(ids), seq(|notes|, i requires 0 <= i < |notes| => notes[i].(isRead := true)))
    else MarkOutcome(Some(ids), notes)
  }

  const Hour: int := 3600000

  /** `delivery_otp` notifications older than two hours. */
  predicate StaleCode(n: ClientNote, now: int) {
    n.kind == "delivery_otp" && n.createdAt.Some? && now - n.createdAt.value > 2 * Hour
  }

  /** Refund-related `order_status` notifications older than one hour. */
  predicate StaleRefund(n: ClientNote, now: int) {
    && n.kind == "order_status"
    && (Text.Contains(n.title, "Refund") || Text.Contains(n.message, "refund"))
    && n.createdAt.Some? && now - n.createdAt.value > Hour
  }

  /** Notifications mentioning "Delivered" in the title, older than a day. */
  predicate StaleDelivered(n: ClientNote, now: int) {
    n.title != "" && Text.Contains(n.title, "Delivered") && n.createdAt.Some? && now - n.createdAt.value > 24 * Hour
  }

  predicate Stale(n: ClientNote, now: int) { StaleCode(n, now) || StaleRefund(n, now) || StaleDelivered(n, now) }

  /** The ids one notification adds to the deletion list (one per rule it meets). */
  function StaleIds(n: ClientNote, now: int): seq<nat> {
    (if StaleCode(n, now) then [n.id] else [])
    + (if StaleRefund(n, now) then [n.id] else [])
    + (if StaleDelivered(n, now) then [n.id] else [])
  }

  /**
   * The clean-up effect's selection: the ids of exactly the stale
   * notifications, in list order (an id may appear once per rule met).
   */
  function CleanupSelection(notes: seq<ClientNote>, now: int): (ids: seq<nat>)
    ensures forall i | 0 <= i < |notes| && Stale(notes[i], now) :: notes[i].id in ids
    ensures forall x | x in ids :: exists n | n in notes :: Stale(n, now) && n.id == x
  {
    if notes == [] then []
    else
      var rest := CleanupSelection(notes[..|notes| - 1], now);
      var last := notes[|notes| - 1];
      assert notes == notes[..|notes| - 1] + [last];
      rest + StaleIds(last, now)
  }

  /** `deleteNotification`'s local update: drops every notification whose id was sent. */
  function DropIds(notes: seq<ClientNote>, ids: seq<nat>): (r: seq<ClientNote>)
    ensures forall n :: n in r <==> n in notes && n.id !in ids
  {
    if notes == [] then []
    else
      var rest := DropIds(notes[..|notes| - 1], ids);
      var last := notes[|notes| - 1];
      assert notes == notes[..|notes| - 1] + [last];
      if last.id in ids then rest else rest + [last]
  }

  /**
   * After the clean-up no stale notification is left, and a notification
   * that is not stale stays unless it shares its id with a stale one.
   */
  lemma CleanupRemovesExactlyStale(notes: seq<ClientNote>, now: int)
    ensures var left := DropIds(notes, CleanupSelection(notes, now));
      && (forall n | n in left :: !Stale(n, now))
      && (forall n | n in notes && !Stale(n, now) && (forall m | m in notes && m.id == n.id :: !Stale(m, now)) :: n in left)
  {
    var ids := CleanupSelection(notes, now);
    forall n | n in notes && Stale(n, now) ensures n.id in ids {
      var i :| 0 <= i < |notes| && notes[i] == n;
    }
  }

  // ---------------------------------------------------------------------------
  // Refunds
  // ---------------------------------------------------------------------------

  /** The payment part of an order as the dashboard receives it. */
  datatype ClientPayment = ClientPayment(refundStatus: Option<string>)

  datatype ClientOrder = ClientOrder(orderId: string, status: string, payment: Option<ClientPayment>)

  /** The "Request Refund" button. */
  predicate ShowRefundButton(o: ClientOrder) {
    && (o.status == "pharmacy_rejected" || o.status == "cancelled")
    && (o.payment.None? || o.payment.value.refundStatus == Some("no_refund"))
  }

  /** The refund progress panel: a refund status that is present, non-empty and not `no_refund`. */
  predicate ShowRefundPanel(o: ClientOrder) {
    o.payment.Some? && o.payment.value.refundStatus.Some?
    && o.payment.value.refundStatus.value != "" && o.payment.value.refundStatus.value != "no_refund"
  }

  /** The button and the panel are never shown together, and the panel needs a payment. */
  lemma RefundControlsExclusive(o: ClientOrder)
    ensures !(ShowRefundButton(o) && ShowRefundPanel(o))
    ensures o.payment.None? ==> !ShowRefundPanel(o)
    ensures o.status == "pharmacy_rejected" && o.payment.None? ==> ShowRefundButton(o)
  {
  }

  /**
   * `requestRefund`'s guard: nothing is sent when the prompt was
   * dismissed or the reason is blank; otherwise the trimmed reason is sent.
   */
  function RefundReason(answer: Option<string>): (sent: Option<string>)
    ensures sent.Some? <==> answer.Some? && !Text.Blank(answer.value)
    ensures sent.Some? ==> sent.value != "" && Text.Trim(sent.value) == sent.value
  {
    if answer.None? || Text.Blank(answer.value) then None
    else
      Text.TrimIdempotent(answer.value);
      Some(Text.Trim(answer.value))
  }

  /** The kinds of notification `requestRefund` treats as refund-related. */
  predicate RefundRelated(n: ClientNote) {
    n.kind == "order_status" || Text.Contains(n.title, "Refund") || Text.Contains(n.message, "refund")
  }

  /**
   * The notifications `requestRefund` deletes after a refund, as written:
   * those whose `order_id` is `===` to `parseInt` of the group id and that
   * are refund-related. `order_id` is a text and `parseInt` gives a number,
   * so the test compares values of two different types.
   */
  function RefundNotesAsWritten(notes: seq<ClientNote>, orderId: string): (ids: seq<nat>)
    ensures forall x | x in ids :: exists n | n in notes ::
      n.id == x && Text.StrictEquals(Text.JsString(n.orderId), Text.JsNumber(Text.ParseInt(orderId))) && RefundRelated(n)
  {
    if notes == [] then []
    else
      var rest := RefundNotesAsWritten(notes[..|notes| - 1], orderId);
      var n := notes[|notes| - 1];
      assert notes == notes[..|notes| - 1] + [n];
      var picked := Text.StrictEquals(Text.JsString(n.orderId), Text.JsNumber(Text.ParseInt(orderId))) && RefundRelated(n);
      if picked then rest + [n.id] else rest
  }

  /**
   * A text is never `===` to a number, so the as-written selection picks
   * nothing, for every group id the screen can pass: the server's `ORD-`
   * ids, the cart's own ids, and digit-only ids a client may have sent.
   */
  lemma {:induction false} RefundNotesNeverMatch(notes: seq<ClientNote>, orderId: string)
    ensures RefundNotesAsWritten(notes, orderId) == []
  {
    if notes != [] {
      RefundNotesNeverMatch(notes[..|notes| - 1], orderId);
      Text.NumberNeverEqualsText(notes[|notes| - 1].orderId, orderId);
    }
  }

  /**
   * The evidently intended selection: the refund-related notifications
   * whose `order_id` is the group id itself.
   */
  function RefundNotes(notes: seq<ClientNote>, orderId: string): (ids: seq<nat>)
    ensures forall i | 0 <= i < |notes| && notes[i].orderId == orderId && RefundRelated(notes[i]) :: notes[i].id in ids
    ensures forall x | x in ids :: exists n | n in notes :: n.id == x && n.orderId == orderId && RefundRelated(n)
  {
    if notes == [] then []
    else
      var rest := RefundNotes(notes[..|notes| - 1], orderId);
      var n := notes[|notes| - 1];
      assert notes == notes[..|notes| - 1] + [n];
      if n.orderId == orderId && RefundRelated(n) then rest + [n.id] else rest
  }

  /** A refund-related notification about the group is selected by the corrected test and never by the as-written one. */
  lemma RefundNoteOfGroupSelected(notes: seq<ClientNote>, orderId: string, i: int)
    requires 0 <= i < |notes| && notes[i].orderId == orderId && RefundRelated(notes[i])
    ensures notes[i].id in RefundNotes(notes, orderId)
    ensures notes[i].id !in RefundNotesAsWritten(notes, orderId)
  {
    RefundNotesNeverMatch(notes, orderId);
  }
}
