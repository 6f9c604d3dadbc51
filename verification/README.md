# Medicine ordering platform: a Dafny model of its order core

The platform lets customers order medicines from pharmacies. Pharmacies accept or reject the orders and take the stock. Couriers claim deliveries and close them with a one-time code. Customers pay through a payment gateway and can ask for a refund.

This project models two parts of the system:

- **The server's state machine** (the Django views and models). The database is a `Store.Db` value of immutable maps:
  - order lines keyed by row id, each carrying a non-unique group id `orderId`;
  - inventory keyed by (pharmacy, medicine);
  - deliveries and payments keyed by order row;
  - the notification lists.

  Every endpoint is a pure function from the database, the caller, the request and the inputs the view takes from outside to a `Reply`. The outside inputs are the clock `now`, the random code and group id, the gateway's answers, and the row ids the database would assign. A `Reply` holds the new database and either the success value or a `Failure` (403, 404, 400, a stock-issue list, or 500). Several error paths of the views write to the database before they fail, and the model keeps those writes.
- **The pure logic of the React screens**:
  - the customer's cart, checkout, notification clean-up and refund controls;
  - the courier's "code sent" set, code entry and actions;
  - the pharmacy's bulk CSV import and single add;
  - the admin delivery and order screens.

Each is a function over sequences, with time and request outcomes passed in as parameters.

## Conventions

- **Money.** The server's amounts are integer paise (`Models.Paise`). The pharmacy screen keeps a typed price as the decimal rupee number the user wrote (`PharmacyDashboard.Decimal`), and `PharmacyDashboard.PriceInPaise` converts it.
- **Time.** The server's clock is an integer number of seconds. The screens' times (`UserDashboard.CleanupSelection` thresholds, `ManageDelivery.CreatedKey`) are JavaScript milliseconds.
- **Queryset order.** A queryset's order is the `scan` parameter. It lists every order row once, newest first, and `Store.IsScan` states this. Rows created at the same instant come in whatever order the database returns them.
- **`.get()` lookups.** `Store.GetOne` models `objects.get(...)`. No match is a 404 (`DoesNotExist`). More than one match is a 500 (`MultipleObjectsReturned`, caught by the view's generic handler). A cart checkout gives several lines one `order_id`, so every endpoint that looks a line up by `order_id` fails for such a group. The model keeps that failure, and `Dispatch.MultiLineGroupCannotBeClaimed` and `Dispatch.MultiLineGroupHasNoOtp` state it.

## Model

| member | source | states |
|---|---|---|
| Models.ParseOrderStatus | backend/medicine/models.py:183-190 | a stored text reads as an order status only if it is that status's declared name |
| Models.OrderStatusNamesRoundTrip | backend/medicine/models.py:183-190 | the six order statuses have distinct stored names, each name reads back as its status, and there are exactly six |
| Models.ClassifyMonotone | backend/medicine/views.py:880-885 | more stock never gives a worse stock level at the same threshold |
| Models.LevelRulesAreClassify | backend/medicine/views.py:331-336 | the three stock-level rules of the views are the one threshold classifier: at 20 with `<= 0`, at the row's threshold with `== 0`, and at 9 for the dashboard's `< 10` |
| Models.LevelRulesDisagree | backend/medicine/views.py:1287-1291 | the three rules disagree on some stocks: 15 is low for the viewset rule but in stock for the dashboard, 25 is low at a threshold of 30 only for the acceptance rule, and a raw negative integer, which no stock row can hold, is out of stock only for the viewset rule |
| Models.SplitItemKeepsTotal | backend/medicine/models.py:407-416 | splitting a cart item into two items of the same medicine and pharmacy changes neither the cart total nor the item count, so the subtotal is linear in the quantity; an unlisted medicine costs nothing |
| Models.CartSumsAppend | backend/medicine/models.py:382-388 | adding an item adds its subtotal to the cart's total price and its quantity to the item count |
| Models.CartTotalBound | backend/medicine/models.py:382-388 | the cart total is at most the item count times the highest listed price |
| Store.Refuse | backend/medicine/views.py:528-530 | a refusal leaves the database unchanged |
| Store.Select | backend/medicine/views.py:1169 | `filter(...)` keeps exactly the matching rows, in scan order, distinct and newest first |
| Store.SelectEmptyIffNoMatch | backend/medicine/views.py:806-809 | a filter is empty exactly when no row matches |
| Store.GetOne | backend/medicine/views.py:1024-1030 | `get(...)` succeeds exactly when one row matches and returns that row; no match is a 404 and several are a 500 |
| Store.UpdateRowsTwice | backend/medicine/views.py:889 | with a change that sets a field, updating the same rows twice is updating them once, and updating two row lists in turn is updating their concatenation |
| Payments.CreateOrder | backend/medicine/views.py:474-520 | succeeds exactly for a customer naming a listed medicine with quantity between 0 and the stock; adds one pending, unpaid line priced at listing price times quantity, keeps the client's group id when it sends one, and does not touch stock |
| Payments.CartLinesShareGroupId | backend/medicine/views.py:506 | two lines created with the same client group id share it, so a cart is one group |
| Payments.CreateGatewayOrder | backend/medicine/views.py:525-564 | writes nothing; no line of the caller with the group id is a 404; for the caller's one line, a paid line is refused, and an unpaid one gets the gateway order for its total exactly when the gateway answers, a gateway failure being a 500 |
| Payments.CreateCartGatewayOrder | backend/medicine/views.py:569-610 | as written: writes nothing; refuses an empty id list (400) and a list with none of the caller's lines (404); the order covers exactly the caller's `pending` lines of the listed groups, once each, for the sum of their totals; refused when there are none; when there is one, it succeeds exactly when the gateway answers |
| Payments.CreateCartGatewayOrderCorrected | backend/medicine/views.py:579-581 | corrected: the same, covering every listed line of the caller that is not yet paid, `failed` lines included |
| Payments.CreatePaymentRow | backend/medicine/views.py:642-648 | creating a payment record fails exactly when the line already has one |
| Payments.RecordPayment | backend/medicine/views.py:642-648 | the corrected write: creates or updates the line's record and leaves every other record as it was |
| Payments.VerifyPaymentAsWritten | backend/medicine/views.py:615-680 | as written: a line that already has a payment record gets a 500 and nothing is written; otherwise the line and a new record take the signature's verdict |
| Payments.VerifyPayment | backend/medicine/views.py:615-680 | corrected: the line and its record take the signature's verdict, and the call succeeds exactly when the signature is valid |
| Payments.PaymentWriteKeepsLookups | backend/medicine/views.py:662-668 | rewriting a payment status keeps the scan valid and every lookup that ignores payment status |
| Payments.RetryAfterFailureAsWritten | backend/medicine/views.py:642-668 | as written: after a failed verification, a valid retry answers 500 and the line stays `failed` |
| Payments.RetryAfterFailure | backend/medicine/views.py:642-668 | corrected: after a failed verification, a valid retry succeeds and marks the line and its record paid |
| Payments.OpenRows | backend/medicine/views.py:713-716 | the cart loop visits exactly the caller's not-yet-paid lines of the listed groups, once each |
| Payments.SettleAll | backend/medicine/views.py:713-727 | the visited lines take the verdict and get a record for their total; every other line and record is unchanged |
| Payments.VerifyCartPayment | backend/medicine/views.py:685-755 | corrected: refuses an empty list, an incomplete receipt or no matching line; otherwise every open line takes the verdict, and success (exactly with a valid signature) returns their group ids |
| Payments.SettleAllOpenLines | backend/medicine/views.py:713-745 | after the cart write, an open line has the verdict and a record with that status, and every other line is unchanged |
| Payments.VerifyCartPaymentAsWritten | backend/medicine/views.py:685-755 | as written: the loop creates a record per open line and stops with a 500 at the first line that already has one, keeping the writes before it |
| Payments.CreateAllOpenLines | backend/medicine/views.py:717-743 | the as-written loop completes exactly when no open line has a record, and then equals the corrected write; a line that has one keeps its status |
| Payments.AfterFailedCart | backend/medicine/views.py:735-745 | after a failed cart verification the scan and the cart lookup are unchanged, and every line that was open is still open for the verification loop, which takes any line not yet paid |
| Payments.FailedCartCannotReorder | backend/medicine/views.py:579-581 | as written: after a failed cart verification no listed line is `pending`, so a new cart gateway order for the same cart is refused whatever the gateway would answer |
| Payments.FailedCartCanReorder | backend/medicine/views.py:579-581 | corrected: after a failed cart verification a new cart gateway order succeeds and covers every line the checkout left open |
| Payments.CartRetryAfterFailureAsWritten | backend/medicine/views.py:735-745 | as written: a valid retry after a failed cart verification answers 500 and every open line stays `failed` |
| Payments.CartRetryAfterFailure | backend/medicine/views.py:735-745 | corrected: a valid retry after a failed cart verification succeeds and every open line ends paid |
| Payments.ProcessPayment | backend/medicine/views.py:760-791 | corrected: succeeds exactly when the line is not yet paid; then only the line's payment status and its record (created or updated: paid, for its total, with the method and the `TXN-` reference) change, and that reference is returned; refusals write nothing |
| Payments.ProcessPaymentAsWritten | backend/medicine/views.py:760-791 | as written: succeeds exactly when the line is unpaid and has no record; an unpaid line with a record gets a 500 |
| Payments.FallbackAfterFailureAsWritten | backend/medicine/views.py:774-780 | as written: the direct payment after a failed gateway attempt answers 500 |
| Payments.FallbackAfterFailure | backend/medicine/views.py:774-780 | corrected: the direct payment after a failed gateway attempt succeeds |
| Dispatch.MarkReadFor | backend/medicine/views.py:1651-1654 | afterwards none of the courier's notifications about the line is unread; each keeps everything but its read flag; every other notification is unchanged and in place |
| Dispatch.MarkReadForTwice | backend/medicine/views.py:1651-1654 | marking the same notifications read again changes nothing |
| Dispatch.PendingDeliveries | backend/medicine/views.py:1448-1466 | couriers only; the lines listed are exactly the paid, accepted, unclaimed ones that need delivery, newest first |
| Dispatch.AssignedDelivery | backend/medicine/views.py:1635-1647 | the claimed line's delivery is `assigned` to the courier, created when missing and otherwise updated in place |
| Dispatch.ClaimDelivery | backend/medicine/views.py:1610-1659 | couriers only; one line needing delivery must match; succeeds exactly when it has no partner, and then sets the partner, moves the line to `out_for_delivery`, assigns the delivery and marks the courier's notifications read; refusals write nothing |
| Dispatch.ClaimKeepsLookup | backend/medicine/views.py:1622 | a claim keeps the scan valid and keeps the lookup finding the same line |
| Dispatch.FirstClaimWins | backend/medicine/views.py:1627-1629 | after a successful claim every further claim of the group is refused and writes nothing, and the line keeps the first courier |
| Dispatch.MultiLineGroupCannotBeClaimed | backend/medicine/views.py:1622 | a group with two lines needing delivery can never be claimed: the lookup answers 500 |
| Dispatch.RespondToAssignment | backend/medicine/views.py:951-981 | on the courier's own line: reject clears the partner; accept moves the line to `out_for_delivery` and assigns the delivery to the courier, and without a delivery row it answers 500 but keeps the status write; in every case no other table or row changes |
| Dispatch.CompleteDelivery | backend/medicine/views.py:986-1003 | the courier's own line and its delivery become delivered without any code check; fails without a delivery row |
| Dispatch.IssueCode | backend/medicine/views.py:1040-1080 | only the line's courier or an admin, only with a delivery in `assigned`, `at_pickup` or `in_transit`; a code younger than 600 s is reused with its seconds left and nothing is written; otherwise the new code and the time are stored |
| Dispatch.GenerateOtp | backend/medicine/views.py:1008-1080 | couriers and admins only; the group must have one line (several give a 500); then as `IssueCode`; the order table is never written |
| Dispatch.IssuedCodeIsSixDigits | backend/medicine/views.py:1060-1065 | an issued code is six decimal digits, stored with the current time |
| Dispatch.VerifyOtp | backend/medicine/views.py:1092-1161 | refuses a missing code, a missing stored code, one older than 600 s or a mismatch, writing nothing; a match marks the line and delivery delivered, clears the code and its time, and adds a "Delivery Completed" row to the courier notification table (`Notification`) addressed to the customer; the customer's own feed (`UserNotification`) does not change, so the customer never sees it |
| Dispatch.CodeWorksOnce | backend/medicine/views.py:1139-1140 | after a successful verification the same code is refused and nothing changes |
| Dispatch.IssuedCodeVerifies | backend/medicine/views.py:1060-1145 | a newly issued code, entered within 600 s, completes the delivery |
| Dispatch.VerifyAccepts | backend/medicine/views.py:1119-1145 | a stored, unexpired, matching code entered by the line's courier is accepted |
| Dispatch.MultiLineGroupHasNoOtp | backend/medicine/views.py:1024-1030 | no code can be issued for a group of several lines: the lookup answers 500 |
| Fulfilment.IssueOf | backend/medicine/views.py:833-850 | a line has a stock problem exactly when its listing is missing or has too little stock |
| Fulfilment.StockIssuesOf | backend/medicine/views.py:826-869 | the problem list holds one entry for every line with a problem and nothing else |
| Fulfilment.NoIssuesIffStocked | backend/medicine/views.py:826-869 | the problem list is empty exactly when every line is in stock |
| Fulfilment.Sold | backend/medicine/views.py:876-887 | the listing loses exactly the quantity and is reclassified: out of stock at 0, low up to its threshold |
| Fulfilment.SaveAllDistinct | backend/medicine/views.py:872-889 | when the lines name distinct medicines, each listing ends with its line's quantity taken |
| Fulfilment.SameMedicineLosesAnUpdate | backend/medicine/views.py:834-850 | two lines of 2 and 3 units of one medicine with stock 10 leave 7, not 5: the second save overwrites the first |
| Fulfilment.CourierNotes | backend/medicine/views.py:910-918 | one unread "new delivery" notification per courier, about the line |
| Fulfilment.NewDelivery | backend/medicine/views.py:903-907 | a new delivery is `pending`, without driver or code, with the default 30-minute estimate |
| Fulfilment.OpenDelivery | backend/medicine/views.py:894-921 | a line needing delivery and having none gets a new delivery and the couriers are notified; otherwise nothing changes |
| Fulfilment.Decide | backend/medicine/views.py:826-948 | reject marks every line rejected; accept with any stock problem reports all of them and writes nothing, and otherwise marks every line accepted, takes the stock and opens the delivery |
| Fulfilment.PharmacyAccept | backend/medicine/views.py:796-948 | only a pharmacy, only its own group, only when every line is paid and awaits it; refusals write nothing |
| Fulfilment.AcceptIffStocked | backend/medicine/views.py:826-869 | an acceptance succeeds exactly when every line of the group is in stock |
| Fulfilment.AcceptDecrementsEachListing | backend/medicine/views.py:872-889 | with distinct medicines, each named listing drops by exactly its line's quantity and is reclassified at its threshold |
| Fulfilment.AcceptKeepsOtherListings | backend/medicine/views.py:872-889 | an acceptance leaves every listing that the group does not name unchanged |
| Fulfilment.ActOnceOnly | backend/medicine/views.py:820-824 | once a group is accepted or rejected, a second decision is refused and writes nothing, so stock is never taken twice |
| Fulfilment.DecidedGroupSettled | backend/medicine/views.py:820-824 | after a decision the group no longer awaits the pharmacy |
| Fulfilment.CreateListing | backend/medicine/views.py:321-338 | a pharmacy lists a medicine once; stock defaults to 0, threshold to 20, and the level is out at 0 and low up to 20 |
| Fulfilment.UpdateListing | backend/medicine/views.py:314-359 | a listing the caller cannot see (any for an admin, its own pharmacy's for a pharmacy, none otherwise) is a 404; a PUT without `medicine_id` or `price` (backend/medicine/serializers.py:43-49) is a 400; an admin without a pharmacy gets a 403; otherwise the listing is saved under the caller's pharmacy and the `medicine_id` sent, if any, so an update can move a listing to another medicine and an admin's update moves it to the admin's pharmacy; an unknown medicine or a key already listed is a 500; a new stock recomputes the level, otherwise a level sent is kept; omitted fields keep their values; refusals write nothing |
| Fulfilment.UpdateKeepsOtherListings | backend/medicine/views.py:314-359 | a pharmacy's update rewrites its own listing in place, or moves it to the medicine sent, and leaves every other listing unchanged |
| Fulfilment.UpdateReclassifies | backend/medicine/views.py:340-359 | after a stock update the level is the classifier's at the default threshold |
| Refunds.Rupees | backend/medicine/views.py:1991 | an amount prints with digits, a point and two decimal places |
| Refunds.StartRefund | backend/medicine/views.py:1962-1983 | the whole amount is marked for refund with reason and time; a gateway payment ends `processing` with the refund id, or `pending` when the gateway call fails; others end `initiated` |
| Refunds.RefundLine | backend/medicine/views.py:1933-2003 | no payment record is a 404; otherwise succeeds exactly for a rejected or cancelled, paid line with no refund yet; never touches the order table |
| Refunds.RequestRefund | backend/medicine/views.py:1925-2013 | the caller's own line of the group must be the only one; then as `RefundLine`; refusals write nothing |
| Refunds.RefundOnce | backend/medicine/views.py:1952-1956 | after a successful refund request a second one is refused and writes nothing |
| Refunds.RefundOnlyPaidRefundable | backend/medicine/views.py:1938-1987 | a refund succeeds only for the caller's own paid line in a refundable status, and for the whole payment amount |
| Notifications.Untargeted | backend/medicine/views.py:1591-1594 | deletion keeps exactly the notifications not targeted, and kept plus deleted is all |
| Notifications.MarkTargeted | backend/medicine/views.py:1544-1547 | exactly the caller's listed notifications become read; nothing else changes |
| Notifications.MarkNotificationsRead | backend/medicine/views.py:1533-1558 | an empty id list is a 400; otherwise marks the targeted notifications and returns how many matched |
| Notifications.MarkTwice | backend/medicine/views.py:1533-1558 | marking twice writes nothing more and reports the same count |
| Notifications.DeleteNotification | backend/medicine/views.py:1563-1603 | with a path id, deletes the caller's notification or answers 404; without one, an empty list is a 400 and the listed ones go; the count deleted plus those left is the count before |
| Notifications.DeleteTwice | backend/medicine/views.py:1568-1576 | deleting the same notification again answers 404 and writes nothing |
| Projections.GroupingSound | backend/medicine/views.py:1171-1196 | one group per distinct group id; each line's entry is in its group; each group holds only its own lines and its total is the sum of their prices |
| Projections.GroupingNewestFirst | backend/medicine/views.py:1206 | grouping newest-first lines gives newest-first groups |
| Projections.GroupLines | backend/medicine/views.py:1171-1196 | the loop with its group-index dictionary computes the reference grouping |
| Projections.SortNewestFirst | backend/medicine/views.py:1206 | the sort is a permutation ordered by creation time, newest first |
| Projections.SortKeepsSorted | backend/medicine/views.py:1256 | sorting groups that are already newest first changes nothing |
| Projections.GroupingOfSelect | backend/medicine/views.py:1221-1257 | grouping a filter gives distinct, newest-first groups that cover every kept line and hold only kept lines |
| Projections.GroupingHeadsLead | backend/medicine/views.py:1171-1186 | over newest-first rows, each group's head is its first line and no line of the group is newer |
| Projections.GroupingOncePerLine | backend/medicine/views.py:1171-1196 | grouping distinct lines lists each line once: no group holds a line twice and no line is in two groups |
| Projections.UserOrders | backend/medicine/views.py:1167-1207 | exactly the customer's lines, each listed once, in the group of its id; one group per group id, newest first, each total the sum of its lines; each group's status and date come from its first and newest line |
| Projections.PharmacyOrders | backend/medicine/views.py:1213-1258 | pharmacies only; exactly their paid lines, each listed once, grouped and sorted the same way, each group headed by its first and newest line |
| Text.TrimIdempotent | frontend/src/components/UserDashboard.jsx:313 | trimming twice is trimming once |
| Text.BlankIffAllSpace | frontend/src/components/UserDashboard.jsx:313 | a text trims to empty exactly when every character is white space |
| Text.NatToStringRoundTrip | backend/medicine/views.py:1060 | the decimal text of a number reads back as that number |
| Text.SixDigitCode | backend/medicine/views.py:1060 | a number in 100000..999999 prints as six digits |
| Text.ParseIntOfWord | frontend/src/components/UserDashboard.jsx:585 | `parseInt` of a text whose first character is not white space, a digit or a sign is `NaN` |
| Text.NumberNeverEqualsText | frontend/src/components/UserDashboard.jsx:585 | `===` between a text (or `null`/`undefined`) and the result of `parseInt` is false for every pair of texts; two texts are `===` exactly when equal |
| Text.ContainsIffOccurs | frontend/src/components/UserDashboard.jsx:502-512 | `includes` holds exactly when the word occurs at some position |
| UserDashboard.AddToCart | frontend/src/components/UserDashboard.jsx:266-289 | nothing without a pharmacy; one more unit of a medicine already held; otherwise a new entry with one unit; one entry per medicine is kept |
| UserDashboard.AddAddsOneUnit | frontend/src/components/UserDashboard.jsx:277-287 | adding raises the cart's unit count by exactly one and the medicine is then held |
| UserDashboard.UpdateQuantity | frontend/src/components/UserDashboard.jsx:291-299 | only the matching entry changes, to `max(1, q)` |
| UserDashboard.RemoveFromCart | frontend/src/components/UserDashboard.jsx:301-303 | exactly the entries with that medicine go |
| UserDashboard.RemoveAfterUpdate | frontend/src/components/UserDashboard.jsx:291-303 | removing after an update is removing straight away |
| UserDashboard.ClientTotalIsServerTotal | frontend/src/components/UserDashboard.jsx:371-376 | the screen's total equals the server's cart total when prices are the listings' prices |
| UserDashboard.Dedupe | frontend/src/components/UserDashboard.jsx:348 | the id list keeps every id once |
| UserDashboard.Checkout | frontend/src/components/UserDashboard.jsx:311-356 | no request for an empty cart or a blank required address; one create call per entry with the shared id, stopping at the first failure; after all succeed, one cart payment with the de-duplicated ids |
| UserDashboard.CheckoutPaysOneGroup | frontend/src/components/UserDashboard.jsx:318-356 | when the server keeps the shared id, the payment names that one group |
| UserDashboard.CheckoutLinesShareGroup | frontend/src/components/UserDashboard.jsx:318-329 | the k-th create call is for the k-th cart entry with the shared id |
| UserDashboard.MarkAllRead | frontend/src/components/UserDashboard.jsx:437-450 | no request when everything is read; otherwise exactly the unread ids are sent, and on success everything becomes read |
| UserDashboard.CleanupSelection | frontend/src/components/UserDashboard.jsx:485-524 | every stale notification is selected and only stale ones are |
| UserDashboard.CleanupRemovesExactlyStale | frontend/src/components/UserDashboard.jsx:485-528 | after clean-up no stale notification is left, and every other one stays |
| UserDashboard.RefundControlsExclusive | frontend/src/components/UserDashboard.jsx:1290 | the refund button and the refund panel are never shown together; without payment data the panel never shows |
| UserDashboard.RefundReason | frontend/src/components/UserDashboard.jsx:544-549 | no request for a dismissed or blank reason; the reason sent is trimmed and non-empty |
| UserDashboard.RefundNotesAsWritten | frontend/src/components/UserDashboard.jsx:584-590 | as written: selects only refund-related notifications whose `order_id` text is `===` to `parseInt` of the group id |
| UserDashboard.RefundNotesNeverMatch | frontend/src/components/UserDashboard.jsx:584-590 | as written: for every group id and every notification list the selection is empty |
| UserDashboard.RefundNotes | frontend/src/components/UserDashboard.jsx:584-590 | corrected: selects every refund-related notification whose `order_id` is the group id, and nothing else |
| UserDashboard.RefundNoteOfGroupSelected | frontend/src/components/UserDashboard.jsx:584-590 | a refund-related notification about the group is selected by the corrected test and never by the as-written one |
| DeliveryDashboard.Restore | frontend/src/components/DeliveryDashboard.jsx:42-55 | a stored array becomes a `Set` of its items: each primitive once and every parsed array or object kept, since each is a reference of its own; missing, unparseable or other stored values give the empty set |
| DeliveryDashboard.RestoreComparesByValue | frontend/src/components/DeliveryDashboard.jsx:47-49 | a repeated stored id restores once, while two equal parsed arrays restore as two members |
| DeliveryDashboard.RestorePersist | frontend/src/components/DeliveryDashboard.jsx:73-82 | restoring what was persisted gives back the same set in the same order |
| DeliveryDashboard.DeleteUndoesAdd | frontend/src/components/DeliveryDashboard.jsx:190-194 | removing an order that was just added leaves the set as it was |
| DeliveryDashboard.SendCode | frontend/src/components/DeliveryDashboard.jsx:145-168 | the order joins the set only after generation succeeds; on failure the set is unchanged and the dialog closes |
| DeliveryDashboard.CodeField | frontend/src/components/DeliveryDashboard.jsx:865-867 | the field holds at most six digits and keeps a typed code of up to six digits unchanged |
| DeliveryDashboard.VerifyCode | frontend/src/components/DeliveryDashboard.jsx:178-194 | no request unless six characters are typed; success removes exactly the selected order from the set |
| DeliveryDashboard.SentCodeIsSixDigits | frontend/src/components/DeliveryDashboard.jsx:178-181 | any code sent from the field is six digits, the shape the server issues |
| DeliveryDashboard.DeliveryAction | frontend/src/components/DeliveryDashboard.jsx:207-235 | accept, reject with the answer or "No reason provided", complete; a successful completion removes exactly that order from the set |
| DeliveryDashboard.RejectReasonNonEmpty | frontend/src/components/DeliveryDashboard.jsx:215-216 | a rejection always carries a non-empty reason |
| DeliveryDashboard.GatingMatchesServer | frontend/src/components/DeliveryDashboard.jsx:529-547 | accept/reject and the code buttons never show together; for a declared delivery status the code buttons show exactly when the server would issue a code |
| DeliveryDashboard.CountUnread | frontend/src/components/DeliveryDashboard.jsx:117 | the unread badge is the number of notifications whose read flag is false |
| DeliveryDashboard.CountActive | frontend/src/components/DeliveryDashboard.jsx:429 | the Active count is the number of deliveries whose status is not `delivered` |
| DeliveryDashboard.UnreadZeroIffAllRead | frontend/src/components/DeliveryDashboard.jsx:117 | the unread badge is zero exactly when every notification is read |
| DeliveryDashboard.ActiveAllIffNoneDelivered | frontend/src/components/DeliveryDashboard.jsx:429 | the Active count is the number of deliveries exactly when none is delivered |
| PharmacyDashboard.NumberOrZero | frontend/src/components/PharmacyDashboard.jsx:202 | a missing or empty field is 0, and so is one that cannot start a number; a decimal field (sign, digits, point, digits) has its value |
| PharmacyDashboard.NumberOfWrittenCount | frontend/src/components/PharmacyDashboard.jsx:202 | a written count reads back as itself |
| PharmacyDashboard.PriceTextInPaise | frontend/src/components/PharmacyDashboard.jsx:202 | a price typed as rupees, a point and two digits (such as `25.50`) reads as that decimal and as that many paise |
| PharmacyDashboard.ParseRow | frontend/src/components/PharmacyDashboard.jsx:199-202 | an empty name fails; otherwise name, stock and price are the first three trimmed fields, with missing numbers 0 |
| PharmacyDashboard.ParseBulk | frontend/src/components/PharmacyDashboard.jsx:193-207 | blank text is no batch; otherwise each non-blank line is parsed |
| PharmacyDashboard.ParseBatch | frontend/src/components/PharmacyDashboard.jsx:199-203 | the batch fails exactly when some line has an empty name, before any request; otherwise one entry per line |
| PharmacyDashboard.BulkNeverEmpty | frontend/src/components/PharmacyDashboard.jsx:198 | a non-blank text that parses gives at least one entry |
| PharmacyDashboard.BulkTally | frontend/src/components/PharmacyDashboard.jsx:209-259 | successes plus failures equal the number of entries |
| PharmacyDashboard.FindByName | frontend/src/components/PharmacyDashboard.jsx:154 | the lookup finds the first catalogue entry whose lower-cased name is the trimmed, lower-cased input, or reports that none matches |
| PharmacyDashboard.AddMedicine | frontend/src/components/PharmacyDashboard.jsx:115-185 | a blank name sends nothing; a created medicine is used, otherwise the found one; with neither, nothing is sent |
| PharmacyDashboard.DecisionGatingMatchesServer | frontend/src/components/PharmacyDashboard.jsx:664 | the accept/reject controls show exactly for orders awaiting the pharmacy, the only ones the server would act on |
| ManageDelivery.FilterStep | frontend/src/admin/ManageDelivery.jsx:93-95 | "all" keeps every delivery; any other filter keeps exactly that status, in order |
| ManageDelivery.WithStatusAppend | frontend/src/admin/ManageDelivery.jsx:93-95 | filtering a concatenation is concatenating the filtered parts, so the original order is kept |
| ManageDelivery.SortBy | frontend/src/admin/ManageDelivery.jsx:97-100 | the sort is a permutation ordered by the key, descending |
| ManageDelivery.SortByKeepsSorted | frontend/src/admin/ManageDelivery.jsx:97-100 | sorting an already sorted list changes nothing |
| ManageDelivery.UrgentOrder | frontend/src/admin/ManageDelivery.jsx:101-105 | a permutation ordered by urgency rank when every status has a rank |
| ManageDelivery.Filtered | frontend/src/admin/ManageDelivery.jsx:90-109 | the result is a permutation of the filtered list; "recent" orders by creation time, missing dates as 0 |
| ManageDelivery.Summary | frontend/src/admin/ManageDelivery.jsx:124-129 | the pending, in-progress and completed counts sum to at most the total |
| ManageDelivery.InProgressStatuses | frontend/src/admin/ManageDelivery.jsx:124-129 | among declared statuses only `assigned` and `in_transit` count as in progress; `at_pickup` and `failed` fall in no bucket |
| ManageDelivery.StatusColour | frontend/src/admin/ManageDelivery.jsx:111-122 | the default grey exactly for the statuses outside the seven known ones |
| ManageDelivery.ServerStatusColour | frontend/src/admin/ManageDelivery.jsx:111-122 | of the statuses a delivery can have, only `failed` is shown in grey |
| ManageDelivery.ColoursDistinct | frontend/src/admin/ManageDelivery.jsx:111-122 | the seven known statuses have pairwise distinct colours |
| ManageDelivery.AssignPartner | frontend/src/admin/ManageDelivery.jsx:60-64 | a request only when both a delivery and a partner are chosen, naming both |
| ManageOrders.ChoicesAreOrderStatuses | frontend/src/admin/ManageOrders.jsx:158-169 | the screen's six choices are the server's order statuses in declared order |
| ManageOrders.StatusOptions | frontend/src/admin/ManageOrders.jsx:158-169 | the options are the choices other than the current value |
| ManageOrders.OptionsOmitCurrent | frontend/src/admin/ManageOrders.jsx:158-169 | for an order status the options are the list with exactly that entry cut out |
| ManageOrders.OptionCount | frontend/src/admin/ManageOrders.jsx:158-169 | five options for an order status, six for anything else |
| ManageOrders.BadgeClass | frontend/src/admin/ManageOrders.jsx:147-156 | the plain `tag` class exactly for statuses other than the four coloured ones |
| ManageOrders.PlainBadgeStatuses | frontend/src/admin/ManageOrders.jsx:147-156 | among order statuses, only pending and rejected get the plain badge |
| ManageOrders.UpdateOrderStatus | frontend/src/admin/ManageOrders.jsx:126-145 | on failure the list is kept; on success every order with the id is replaced and no other changes |
| ManageOrders.UpdateTouchesOnePosition | frontend/src/admin/ManageOrders.jsx:141 | with distinct ids the update writes exactly one position |
| ManageOrders.UpdateIdempotent | frontend/src/admin/ManageOrders.jsx:141 | applying the same answer twice is applying it once |

## Left out

- **I/O.** HTTP requests, React rendering, `localStorage` text, polling timers and console output are not modelled. Request outcomes are parameters.
- **The payment gateway client.** Gateway order ids, signature validity and the outcome of the refund call are inputs.
- **Floating-point money.** `int(float(amount) * 100)` and the binary rounding of JavaScript numbers are not modelled. Server amounts are integer paise; typed prices are exact decimals.
- **Clock and randomness.** The clock, `random.randint`, the server's `uuid` group id and the cart's `Math.random` id are inputs. The code is constrained to 100000..999999 and the server-generated group id to `ORD-` plus eight upper-case hex digits. Client-supplied group ids, the cart's base-36 ones included, are any text.
- **Concurrency.** Two requests racing on a stock decrement or a claim are not modelled. Each endpoint is one atomic step.
- **Cart endpoints.** `manage_cart`, `cart_item_detail`, `clear_cart` and `checkout_cart` refer to `Cart`, `CartItem` and a serializer that `views.py` never imports, so they cannot run. The live cart is the client-side one. `Cart.get_total_price`, `get_item_count` and `CartItem.get_subtotal` are modelled as functions of the models.
- **Other endpoints.** These are not part of this model:
  - the dashboard statistics endpoints (their later definitions shadow the earlier ones, and they return fixed metrics);
  - `assign_delivery_partner`, `delivery_orders`, `get_delivery_notifications`, `get_user_notifications` and `mark_notification_read`;
  - the CRUD viewsets other than the inventory create and update;
  - authentication.
- **Response text.** Failure messages that embed exception text or the caller's role are kept only as their status class.
- **Pharmacy-name display.** `user_orders` collects and joins the pharmacy names of a group; the model keeps only the set of pharmacies.
- PharmacyDashboard.NumberOrZero: exponent text (`1e3`), `0x`/`0o`/`0b` text and `Infinity` are numbers to JavaScript. The model reads them as 0 and its contract says nothing about them. Decimal values are exact, without binary rounding.
- PharmacyDashboard.FindByName: `Text.ToLower` folds ASCII letters only. JavaScript `toLowerCase` also folds other scripts, so two non-ASCII names that differ only in case match in the browser but not in the model.
- DeliveryDashboard.Restore: `JNumber` holds integers only, so a stored fraction such as `1.5` is not representable. The dashboard itself stores only order ids.
- ManageDelivery.StatusColour: the browser looks the status up in an object literal, so a name inherited from `Object.prototype` (`constructor`, `toString`, `valueOf`, `hasOwnProperty`, `__proto__` and the like) yields that inherited member and not grey. The model gives grey there; the server never sends such a status.
- ManageDelivery.UrgentOrder: when some status has no rank, the browser's comparator yields `NaN` and the order it produces is engine-defined, so the model answers `None`.
- ManageDelivery.Filtered: dates that do not parse are treated like missing ones, as 0.

## Findings

| source | as written | input that shows it | evidently intended | confidence | as-written member | corrected member |
|---|---|---|---|---|---|---|
| backend/medicine/views.py:642-648 | `Payment.objects.create(order=order, ...)` on a one-to-one table, in the success and the failure branch of every payment view | verify a line with an invalid signature (which stores a `failed` record), then verify again with a valid one: the second create violates the unique key and the view answers 500 with the line still `failed`; the same happens in `process_payment` (views.py:774-780) and in the cart loop (views.py:717-723, 737-743), where a retry is refused even earlier by the defect in the next row | update the line's payment record, or create it when missing, so that a retry can succeed | not executed | Payments.VerifyPaymentAsWritten with Payments.RetryAfterFailureAsWritten, Payments.VerifyCartPaymentAsWritten with Payments.CartRetryAfterFailureAsWritten, Payments.ProcessPaymentAsWritten with Payments.FallbackAfterFailureAsWritten | Payments.VerifyPayment with Payments.RetryAfterFailure, Payments.VerifyCartPayment with Payments.CartRetryAfterFailure, Payments.ProcessPayment with Payments.FallbackAfterFailure |
| frontend/src/components/UserDashboard.jsx:585 | `n.order_id === parseInt(orderId)`, where the serializer sends `order_id` as the group-id text (backend/medicine/serializers.py:179) | any refund: `parseInt` gives a number (or `NaN`) and `order_id` is a text, so `===` is false for every notification and none is deleted | compare the texts: `n.order_id === orderId` | not executed | UserDashboard.RefundNotesAsWritten with UserDashboard.RefundNotesNeverMatch | UserDashboard.RefundNotes with UserDashboard.RefundNoteOfGroupSelected |
| backend/medicine/views.py:579-581 | `orders.filter(payment_status='pending')`, answering "All orders are already paid" when none is left | check out a cart and fail the signature check: every line becomes `failed`, and a new cart gateway order for the same cart is refused with 400 | take every line that is not paid, as the message and the cart verification loop assume | not executed | Payments.CreateCartGatewayOrder with Payments.FailedCartCannotReorder | Payments.CreateCartGatewayOrderCorrected with Payments.FailedCartCanReorder |

Other behaviour of the code as written, kept in the model:

- **Unreachable status.** `request_refund` also accepts `delivery_failed`, which is not an order status, so no line is ever in it. `generate_delivery_otp` and the courier screen also list `out_for_delivery`, which is not a delivery status.
- **Grouped orders break `.get()`.** Every endpoint that looks a line up with `get(order_id=...)` answers 500 for a cart of several lines.
- **The refund panel never shows.** `user_orders` never sends a `payment` field, so the customer's refund panel never appears (`UserDashboard.RefundControlsExclusive`).
- **Unbucketed deliveries.** The admin statistics count `at_pickup` and `failed` deliveries in no bucket.
- **Lost update on acceptance.** When two lines of a group name the same medicine, the acceptance takes only the last line's quantity (`Fulfilment.SameMedicineLosesAnUpdate`). The decrement property is therefore stated for groups with distinct medicines.
- **Stock is not reserved at order time.** `create_order` checks the quantity against stock but does not take it. A negative quantity passes the check and then fails the column constraint with a 500.
- **Completion skips the code.** `mark_delivery_complete` closes a delivery without any code check.
