/**
 * The administrator's order screen (`admin/ManageOrders.jsx`): the status
 * choices offered for an order, the badge class of a status, and the
 * local update of the list after a successful status change.
 */
module ManageOrders {
  import opened Wrappers
  import opened Models

  // ---------------------------------------------------------------------------
  // Status choices
  // ---------------------------------------------------------------------------

  datatype Choice = Choice(value: string, caption: string)

  /** The six order statuses with their labels, in the screen's order. */
  const AllChoices: seq<Choice> := [
    Choice("pending_pharmacy_confirmation", "Pending Pharmacy Confirmation"),
    Choice("pharmacy_accepted", "Pharmacy Accepted"),
    Choice("pharmacy_rejected", "Pharmacy Rejected"),
    Choice("out_for_delivery", "Out for Delivery"),
    Choice("delivered", "Delivered"),
    Choice("cancelled", "Cancelled")
  ]

  /** The screen's choices are the server's order statuses, in declaration order. */
  lemma ChoicesAreOrderStatuses()
    ensures |AllChoices| == |AllOrderStatuses|
    ensures forall i | 0 <= i < |AllChoices| :: AllChoices[i].value == OrderStatusName(AllOrderStatuses[i])
  {
  }

  /** `choices.filter(c => c.value !== current)`. */
  function Without(choices: seq<Choice>, current: string): (r: seq<Choice>)
    ensures forall c :: c in r <==> c in choices && c.value != current
    ensures |r| <= |choices|
  {
    if choices == [] then []
    else
      var rest := Without(choices[1..], current);
      assert choices == [choices[0]] + choices[1..];
      if choices[0].value == current then rest else [choices[0]] + rest
  }

  /** `getStatusOptions(current)`: every status except the current one, in order. */
  function StatusOptions(current: string): (r: seq<Choice>)
    ensures forall c :: c in r <==> c in AllChoices && c.value != current
  {
    Without(AllChoices, current)
  }

  /** For one of the six statuses the options are the list with that one entry cut out. */
  lemma OptionsOmitCurrent(k: nat)
    requires k < |AllChoices|
    ensures StatusOptions(AllChoices[k].value) == AllChoices[..k] + AllChoices[k + 1..]
    ensures |StatusOptions(AllChoices[k].value)| == 5
  {
    WithoutPresent(AllChoices, k);
  }

  /** Removing the value of the `k`-th of several distinct choices cuts out exactly that entry. */
  lemma {:induction false} WithoutPresent(choices: seq<Choice>, k: nat)
    requires k < |choices|
    requires forall i, j | 0 <= i < j < |choices| :: choices[i].value != choices[j].value
    ensures Without(choices, choices[k].value) == choices[..k] + choices[k + 1..]
  {
    var v := choices[k].value;
    if k == 0 {
      WithoutAbsent(choices[1..], v);
    } else {
      WithoutPresent(choices[1..], k - 1);
      assert choices[1..][k - 1] == choices[k];
      assert choices[..k] == [choices[0]] + choices[1..][..k - 1];
      assert choices[k + 1..] == choices[1..][k..];
    }
  }

  /** For any other value nothing is removed. */
  lemma OptionsForUnknown(current: string)
    requires forall i | 0 <= i < |AllChoices| :: AllChoices[i].value != current
    ensures StatusOptions(current) == AllChoices
    ensures |StatusOptions(current)| == 6
  {
    WithoutAbsent(AllChoices, current);
  }

  lemma {:induction false} WithoutAbsent(choices: seq<Choice>, current: string)
    requires forall i | 0 <= i < |choices| :: choices[i].value != current
    ensures Without(choices, current) == choices
  {
    if choices != [] {
      WithoutAbsent(choices[1..], current);
    }
  }

  /** Five options exactly when the current value is an order status. */
  lemma OptionCount(current: string)
    ensures |StatusOptions(current)| == (if ParseOrderStatus(current).Some? then 5 else 6)
  {
    match ParseOrderStatus(current)
    case Some(s) =>
      OrderStatusNamesRoundTrip(s, s);
      var k :| 0 <= k < |AllOrderStatuses| && AllOrderStatuses[k] == s;
      ChoicesAreOrderStatuses();
      OptionsOmitCurrent(k);
    case None =>
      forall i | 0 <= i < |AllChoices| ensures AllChoices[i].value != current {
        ChoicesAreOrderStatuses();
        OrderStatusNamesRoundTrip(AllOrderStatuses[i], AllOrderStatuses[i]);
      }
      OptionsForUnknown(current);
  }

  // ---------------------------------------------------------------------------
  // Badges
  // ---------------------------------------------------------------------------

  /** `getStatusBadgeClass`. */
  function BadgeClass(status: string): (c: string)
    ensures c == "tag" <==>
      status != "delivered" && status != "out_for_delivery" && status != "pharmacy_accepted" && status != "cancelled"
  {
    if status == "delivered" then "tag green"
    else if status == "out_for_delivery" then "tag blue"
    else if status == "pharmacy_accepted" then "tag yellow"
    else if status == "cancelled" then "tag red"
    else "tag"
  }

  /** Among the order statuses, only the two awaiting or refused by the pharmacy get the plain badge. */
  lemma PlainBadgeStatuses(s: OrderStatus)
    ensures BadgeClass(OrderStatusName(s)) == "tag" <==> s == PendingPharmacyConfirmation || s == PharmacyRejected
  {
  }

  // ---------------------------------------------------------------------------
  // The local update
  // ---------------------------------------------------------------------------

  /** An order as the list holds it; the screen only reads the id and status. */
  datatype Listed = Listed(id: nat, status: string)

  /** `orders.map(o => o.id === id ? updated : o)`. */
  function Replace(orders: seq<Listed>, id: nat, updated: Listed): (r: seq<Listed>)
    ensures |r| == |orders|
  {
    seq(|orders|, i requires 0 <= i < |orders| => if orders[i].id == id then updated else orders[i])
  }

  /**
   * `updateOrderStatus` after the PATCH: on success the returned order
   * replaces the listed one with that id; on failure the list is kept and
   * an error is shown.
   */
  function UpdateOrderStatus(orders: seq<Listed>, id: nat, response: Option<Listed>): (r: Result<seq<Listed>, string>)
    ensures r.Failure? <==> response.None?
    ensures r.Success? ==>
      |r.value| == |orders| && forall i | 0 <= i < |orders| :: orders[i].id != id ==> r.value[i] == orders[i]
    ensures r.Success? ==> forall i | 0 <= i < |orders| :: orders[i].id == id ==> r.value[i] == response.value
  {
    if response.None? then Failure("Failed to update order status")
    else Success(Replace(orders, id, response.value))
  }

  /** With distinct ids, the update is a single-position write. */
  lemma UpdateTouchesOnePosition(orders: seq<Listed>, k: nat, updated: Listed)
    requires k < |orders|
    requires forall i, j | 0 <= i < j < |orders| :: orders[i].id != orders[j].id
    ensures UpdateOrderStatus(orders, orders[k].id, Some(updated)) == Success(orders[k := updated])
  {
    var r := Replace(orders, orders[k].id, updated);
    forall i | 0 <= i < |orders| ensures r[i] == orders[k := updated][i] {
      if i < k {
        assert orders[i].id != orders[k].id;
      } else if i > k {
        assert orders[k].id != orders[i].id;
      }
    }
    assert r == orders[k := updated];
  }

  /** Applying the same answer twice changes nothing more, as long as it keeps its id. */
  lemma UpdateIdempotent(orders: seq<Listed>, id: nat, updated: Listed)
    requires updated.id == id
    ensures Replace(Replace(orders, id, updated), id, updated) == Replace(orders, id, updated)
  {
  }
}
