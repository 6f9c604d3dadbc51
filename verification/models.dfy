/**
 * The persistent entities of the ordering platform: the status enumerations
 * with their stored names and defaults, the row records of the order,
 * inventory, delivery, payment and notification tables, the stock-level
 * classifier, and the server-side cart totals.
 */
module Models {
  import opened Wrappers

  type RowId = nat
  type UserId = nat
  type PharmacyId = nat
  type MedicineId = nat

  /** Money in paise (hundredths of a rupee). */
  type Paise = nat

  // ---------------------------------------------------------------------------
  // Status enumerations
  // ---------------------------------------------------------------------------

  datatype OrderStatus =
    | PendingPharmacyConfirmation
    | PharmacyAccepted
    | PharmacyRejected
    | OutForDelivery
    | Delivered
    | Cancelled

  /** The six order statuses in their declared order. */
  const AllOrderStatuses: seq<OrderStatus> :=
    [PendingPharmacyConfirmation, PharmacyAccepted, PharmacyRejected, OutForDelivery, Delivered, Cancelled]

  /** The value stored in the `order_status` column. */
  function OrderStatusName(s: OrderStatus): string {
    match s
    case PendingPharmacyConfirmation => "pending_pharmacy_confirmation"
    case PharmacyAccepted => "pharmacy_accepted"
    case PharmacyRejected => "pharmacy_rejected"
    case OutForDelivery => "out_for_delivery"
    case Delivered => "delivered"
    case Cancelled => "cancelled"
  }

  /** Reads a stored `order_status` value; any other text is not an order status. */
  function ParseOrderStatus(name: string): (r: Option<OrderStatus>)
    ensures r.Some? ==> OrderStatusName(r.value) == name
  {
    if name == "pending_pharmacy_confirmation" then Some(PendingPharmacyConfirmation)
    else if name == "pharmacy_accepted" then Some(PharmacyAccepted)
    else if name == "pharmacy_rejected" then Some(PharmacyRejected)
    else if name == "out_for_delivery" then Some(OutForDelivery)
    else if name == "delivered" then Some(Delivered)
    else if name == "cancelled" then Some(Cancelled)
    else None
  }

  /** Every status has a distinct stored name, and the name reads back as that status. */
  lemma OrderStatusNamesRoundTrip(s: OrderStatus, t: OrderStatus)
    ensures ParseOrderStatus(OrderStatusName(s)) == Some(s)
    ensures OrderStatusName(s) == OrderStatusName(t) ==> s == t
    ensures s in AllOrderStatuses && |AllOrderStatuses| == 6
  {
  }

  /** `Order.payment_status` and `Payment.status` share these four values. */
  datatype PayStatus = PayPending | Paid | PayFailed | Refunded

  datatype RefundStatus = NoRefund | RefundPending | Initiated | Processing | Completed | RefundFailed

  function RefundStatusName(s: RefundStatus): string {
    match s
    case NoRefund => "no_refund"
    case RefundPending => "pending"
    case Initiated => "initiated"
    case Processing => "processing"
    case Completed => "completed"
    case RefundFailed => "failed"
  }

  /** The six declared delivery statuses; `out_for_delivery` is not one of them. */
  datatype DeliveryStatus = DeliveryPending | Assigned | AtPickup | InTransit | DeliveryDone | DeliveryFailed

  function DeliveryStatusName(s: DeliveryStatus): string {
    match s
    case DeliveryPending => "pending"
    case Assigned => "assigned"
    case AtPickup => "at_pickup"
    case InTransit => "in_transit"
    case DeliveryDone => "delivered"
    case DeliveryFailed => "failed"
  }

  datatype StockLevel = InStock | LowStock | OutOfStock

  datatype Role = Admin | Customer | PharmacyStaff | Courier

  datatype PaymentMethod = Card | Upi | Wallet | CashOnDelivery | Razorpay | OtherMethod(name: string)

  // ---------------------------------------------------------------------------
  // Rows
  // ---------------------------------------------------------------------------

  /** The authenticated caller; `pharmacy` is the reverse one-to-one `user.pharmacy`. */
  datatype User = User(id: UserId, role: Role, pharmacy: Option<PharmacyId>, active: bool)

  datatype Pharmacy = Pharmacy(name: string, address: string)

  datatype Medicine = Medicine(name: string)

  /**
   * One `Order` row: one medicine line. Several rows share an `orderId`
   * when a cart is checked out, so `orderId` is a group key, not a key.
   */
  datatype OrderLine = OrderLine(
    orderId: string,
    user: UserId,
    pharmacy: Option<PharmacyId>,
    medicine: Option<MedicineId>,
    quantity: nat,
    total: Paise,
    deliveryRequired: bool,
    deliveryAddress: string,
    payment: PayStatus,
    status: OrderStatus,
    partner: Option<UserId>,
    createdAt: int)

  /** One `PharmacyMedicine` row. */
  datatype StockRow = StockRow(stock: nat, price: Paise, level: StockLevel, threshold: nat)

  /** `low_stock_threshold` when none is given. */
  const DefaultThreshold: nat := 20

  /** `PharmacyMedicine` rows keyed by (pharmacy, medicine): the key makes the pair unique. */
  type Inventory = map<(PharmacyId, MedicineId), StockRow>

  /** One `Delivery` row, keyed by its order row (one-to-one). */
  datatype Delivery = Delivery(
    driver: Option<UserId>,
    status: DeliveryStatus,
    pickupAddress: string,
    dropoffAddress: string,
    otp: Option<string>,
    otpAt: Option<int>,
    estimatedMinutes: nat,
    actualMinutes: Option<nat>)

  /** `estimated_time` when none is given. */
  const DefaultEstimatedMinutes: nat := 30

  /** The transaction references the payment endpoints write. */
  datatype Txn =
    | GatewayTxn(paymentId: string)
    | CartTxn(paymentId: string, orderId: string)
    | LegacyTxn(orderId: string, at: int)

  /** One `Payment` row, keyed by its order row (one-to-one). */
  datatype Payment = Payment(
    amount: Paise,
    via: PaymentMethod,
    txn: Txn,
    status: PayStatus,
    refundStatus: RefundStatus,
    refundAmount: Paise,
    refundTxn: Option<string>,
    refundReason: Option<string>,
    refundInitiatedAt: Option<int>)

  /** A payment record as the payment endpoints create it: no refund, refund amount 0. */
  function NewPayment(amount: Paise, via: PaymentMethod, txn: Txn, status: PayStatus): (p: Payment)
    ensures p.refundStatus == NoRefund && p.refundAmount == 0
    ensures p.amount == amount && p.status == status
  {
    Payment(amount, via, txn, status, NoRefund, 0, None, None, None)
  }

  datatype PartnerNoteKind = NewDeliveryOrder | OrderAcceptedNote | OrderRejectedNote | DeliveryAssignedNote | DeliveryCompletedNote

  /** One `Notification` row, addressed to `recipient`. */
  datatype PartnerNote = PartnerNote(id: nat, recipient: UserId, order: RowId, kind: PartnerNoteKind, title: string, isRead: bool)

  datatype UserNoteKind = DeliveryOtpNote | OrderStatusNote | UserDeliveryCompletedNote

  /** One `UserNotification` row. */
  datatype UserNote = UserNote(
    id: nat,
    user: UserId,
    order: RowId,
    kind: UserNoteKind,
    title: string,
    message: string,
    otp: Option<string>,
    isRead: bool,
    createdAt: int)

  // ---------------------------------------------------------------------------
  // Stock level
  // ---------------------------------------------------------------------------

  /**
   * The one classifier behind the three stock-status rules: nothing left is
   * out of stock, at most `lowAtMost` units is low, anything more is in stock.
   */
  function Classify(stock: int, lowAtMost: int): (level: StockLevel)
  {
    if stock <= 0 then OutOfStock else if stock <= lowAtMost then LowStock else InStock
  }

  function LevelRank(level: StockLevel): nat {
    match level
    case OutOfStock => 0
    case LowStock => 1
    case InStock => 2
  }

  /** More stock never yields a worse level, and a higher threshold never yields a better one. */
  lemma ClassifyMonotone(a: int, b: int, t: int, u: int)
    requires a <= b && t >= u
    ensures LevelRank(Classify(a, t)) <= LevelRank(Classify(b, u))
  {
  }

  /** The inventory viewset rule: `<= 0` is out, up to the fixed 20 is low. */
  function ViewSetLevel(stock: int): StockLevel {
    if stock <= 0 then OutOfStock else if stock <= 20 then LowStock else InStock
  }

  /** The acceptance rule: `== 0` is out, up to the row's own threshold is low. */
  function AcceptLevel(stock: int, threshold: nat): StockLevel {
    if stock == 0 then OutOfStock else if stock <= threshold then LowStock else InStock
  }

  /** The dashboard display rule: `== 0` is out, below 10 is low. */
  function DisplayLevel(stock: int): StockLevel {
    if stock == 0 then OutOfStock else if stock < 10 then LowStock else InStock
  }

  /** On a stock count that cannot be negative all three rules are the one classifier. */
  lemma LevelRulesAreClassify(stock: nat, threshold: nat)
    ensures ViewSetLevel(stock) == Classify(stock, DefaultThreshold)
    ensures AcceptLevel(stock, threshold) == Classify(stock, threshold)
    ensures DisplayLevel(stock) == Classify(stock, 9)
  {
  }

  /**
   * ... but they are different rules: the same count gets different labels.
   * The third case is a raw negative integer, which no stock row can hold
   * (the field is non-negative); it shows only that the viewset compares
   * with `<= 0` where the others compare with `== 0`.
   */
  lemma LevelRulesDisagree()
    ensures ViewSetLevel(15) == LowStock && DisplayLevel(15) == InStock
    ensures ViewSetLevel(25) == InStock && AcceptLevel(25, 30) == LowStock
    ensures AcceptLevel(-1, 20) == LowStock && ViewSetLevel(-1) == OutOfStock
  {
  }

  // ---------------------------------------------------------------------------
  // Server-side cart (`Cart`, `CartItem`)
  // ---------------------------------------------------------------------------

  datatype CartItem = CartItem(medicine: MedicineId, pharmacy: PharmacyId, quantity: nat)

  /** `CartItem.get_subtotal`: listed price times quantity, 0 when the pharmacy does not list it. */
  function Subtotal(inv: Inventory, item: CartItem): (r: Paise)
    ensures (item.pharmacy, item.medicine) !in inv ==> r == 0
    ensures (item.pharmacy, item.medicine) in inv ==> r == inv[(item.pharmacy, item.medicine)].price * item.quantity
  {
    var key := (item.pharmacy, item.medicine);
    if key in inv then inv[key].price * item.quantity else 0
  }

  /**
   * Splitting an item into two items of the same medicine and pharmacy
   * does not change what the cart costs: the subtotal is linear in the
   * quantity, and an unlisted medicine costs nothing in any quantity.
   */
  lemma SplitItemKeepsTotal(inv: Inventory, item: CartItem, a: nat, b: nat)
    requires a + b == item.quantity
    ensures CartTotal(inv, [item.(quantity := a), item.(quantity := b)]) == Subtotal(inv, item)
    ensures ItemCount([item.(quantity := a), item.(quantity := b)]) == ItemCount([item])
  {
    var key := (item.pharmacy, item.medicine);
    var parts := [item.(quantity := a), item.(quantity := b)];
    var tail := [item.(quantity := b)];
    assert parts[1..] == tail && tail[1..] == [] && [item][1..] == [];
    assert CartTotal(inv, tail) == Subtotal(inv, tail[0]) + CartTotal(inv, []);
    assert CartTotal(inv, parts) == Subtotal(inv, parts[0]) + CartTotal(inv, tail);
    assert ItemCount(tail) == b + ItemCount([]);
    assert ItemCount(parts) == a + ItemCount(tail);
    assert ItemCount([item]) == item.quantity + ItemCount([]);
    if key in inv {
      Distribute(a, b, inv[key].price);
    }
  }

  /** `Cart.get_total_price`. */
  function CartTotal(inv: Inventory, items: seq<CartItem>): Paise {
    if items == [] then 0 else Subtotal(inv, items[0]) + CartTotal(inv, items[1..])
  }

  /** `Cart.get_item_count`. */
  function ItemCount(items: seq<CartItem>): nat {
    if items == [] then 0 else items[0].quantity + ItemCount(items[1..])
  }

  /** Both cart sums distribute over concatenation, so they do not depend on how the items are split. */
  lemma {:induction false} CartSumsAppend(inv: Inventory, a: seq<CartItem>, b: seq<CartItem>)
    ensures CartTotal(inv, a + b) == CartTotal(inv, a) + CartTotal(inv, b)
    ensures ItemCount(a + b) == ItemCount(a) + ItemCount(b)
  {
    if a == [] {
      assert a + b == b;
    } else {
      assert (a + b)[0] == a[0];
      assert (a + b)[1..] == a[1..] + b;
      CartSumsAppend(inv, a[1..], b);
    }
  }

  /** The total is bounded by the item count times the dearest listed price. */
  lemma {:induction false} CartTotalBound(inv: Inventory, items: seq<CartItem>, maxPrice: Paise)
    requires forall k | k in inv :: inv[k].price <= maxPrice
    ensures CartTotal(inv, items) <= ItemCount(items) * maxPrice
  {
    if items != [] {
      CartTotalBound(inv, items[1..], maxPrice);
      var q := items[0].quantity;
      var rest := ItemCount(items[1..]);
      assert ItemCount(items) * maxPrice == q * maxPrice + rest * maxPrice by {
        Distribute(q, rest, maxPrice);
      }
      var key := (items[0].pharmacy, items[0].medicine);
      if key in inv {
        MulMonotone(inv[key].price, maxPrice, q);
      }
    }
  }

  lemma MulMonotone(a: nat, b: nat, c: nat)
    requires a <= b
    ensures a * c <= b * c
  {
  }

  lemma Distribute(a: nat, b: nat, c: nat)
    ensures (a + b) * c == a * c + b * c
  {
  }
}
