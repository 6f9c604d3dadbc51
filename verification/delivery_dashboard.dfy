/**
 * The courier dashboard's own logic (`DeliveryDashboard.jsx`): the
 * remembered set of orders whose code was sent, its storage as a JSON
 * array, the code-entry field, the action handlers and the gating of the
 * action buttons. Request outcomes are parameters.
 */
module DeliveryDashboard {
  import opened Wrappers
  import opened Models
  import Text
  import Dispatch

  // ---------------------------------------------------------------------------
  // The "code sent" set and its storage
  // ---------------------------------------------------------------------------

  /** A JSON value, as `JSON.parse` produces and `JSON.stringify` consumes. */
  datatype Json =
    | JNull
    | JBool(b: bool)
    | JNumber(n: int)
    | JString(s: string)
    | JArray(items: seq<Json>)
    | JObject(fields: seq<(string, Json)>)

  /** What `localStorage.getItem` plus `JSON.parse` yield: nothing, a parse error, or a value. */
  datatype Stored = Missing | Unparseable | Parsed(value: Json)

  /**
   * A set member compared by value. A `Set` compares by `SameValueZero`:
   * equal primitives are the same member, but every array or object that
   * `JSON.parse` returns is a reference of its own.
   */
  predicate Primitive(j: Json) {
    !j.JArray? && !j.JObject?
  }

  /** A JavaScript `Set` of parsed values: no primitive twice, in insertion order. */
  predicate IsSet(s: seq<Json>) {
    forall i, j | 0 <= i < j < |s| && Primitive(s[i]) :: s[i] != s[j]
  }

  /** Appending keeps a set exactly when the new member is not a primitive already in it. */
  lemma IsSetSnoc(s: seq<Json>, x: Json)
    ensures IsSet(s + [x]) <==> IsSet(s) && (Primitive(x) ==> x !in s)
  {
    var t := s + [x];
    if IsSet(t) {
      forall i, j | 0 <= i < j < |s| && Primitive(s[i]) ensures s[i] != s[j] {
        assert t[i] == s[i] && t[j] == s[j];
      }
      forall i | 0 <= i < |s| && Primitive(x) ensures s[i] != x {
        assert t[i] == s[i] && t[|s|] == x;
      }
    } else {
      var i, j :| 0 <= i < j < |t| && Primitive(t[i]) && t[i] == t[j];
      if j < |s| {
        assert s[i] == s[j];
      } else {
        assert t[i] == s[i];
      }
    }
  }

  /**
   * `new Set(items)` over parsed values: the first occurrence of each
   * primitive, and every array or object, in order.
   */
  function ToSet(items: seq<Json>): (s: seq<Json>)
    ensures IsSet(s)
    ensures forall x :: x in s <==> x in items
    ensures forall x | Primitive(x) :: multiset(s)[x] == if x in items then 1 else 0
    ensures forall x | !Primitive(x) :: multiset(s)[x] == multiset(items)[x]
  {
    if items == [] then []
    else
      var init := items[..|items| - 1];
      var rest := ToSet(init);
      var last := items[|items| - 1];
      assert items == init + [last];
      assert multiset(items) == multiset(init) + multiset{last};
      if Primitive(last) && last in rest then rest
      else
        IsSetSnoc(rest, last);
        assert multiset(rest + [last]) == multiset(rest) + multiset{last};
        rest + [last]
  }

  /** A set in which every member is already distinct is its own `new Set`. */
  lemma {:induction false} ToSetOfSet(s: seq<Json>)
    requires IsSet(s)
    ensures ToSet(s) == s
  {
    if s != [] {
      var init := s[..|s| - 1];
      var last := s[|s| - 1];
      assert s == init + [last];
      IsSetSnoc(init, last);
      ToSetOfSet(init);
    }
  }

  /**
   * The lazy initial state: a stored JSON array becomes a set of its
   * items; a missing entry, unparseable text or any other JSON value
   * gives the empty set.
   */
  function Restore(stored: Stored): (s: seq<Json>)
    ensures IsSet(s)
    ensures !(stored.Parsed? && stored.value.JArray?) ==> s == []
    ensures stored.Parsed? && stored.value.JArray? ==> forall x :: x in s <==> x in stored.value.items
  {
    match stored
    case Parsed(JArray(items)) => ToSet(items)
    case _ => []
  }

  /** A stored repeated id counts once, but two equal parsed arrays are two members. */
  lemma RestoreComparesByValue()
    ensures |Restore(Parsed(JArray([JNumber(1), JNumber(1)])))| == 1
    ensures |Restore(Parsed(JArray([JArray([JNumber(1)]), JArray([JNumber(1)])])))| == 2
  {
    var one := [JNumber(1), JNumber(1)];
    assert one[..1] == [JNumber(1)];
    var arrays := [JArray([JNumber(1)]), JArray([JNumber(1)])];
    assert arrays[..1] == [JArray([JNumber(1)])];
  }

  /** The persisting effect: `JSON.stringify(Array.from(set))`. */
  function Persist(s: seq<Json>): (j: Json)
    ensures j.JArray? && j.items == s
  {
    JArray(s)
  }

  /** Restoring what was persisted gives back the same set, in the same order. */
  lemma RestorePersist(s: seq<Json>)
    requires IsSet(s)
    ensures Restore(Parsed(Persist(s))) == s
  {
    ToSetOfSet(s);
  }

  /** `set.add(orderId)`: the dashboard only ever adds an order id, a text. */
  function Add(s: seq<Json>, id: string): (r: seq<Json>)
    ensures IsSet(s) ==> IsSet(r)
    ensures forall y :: y in r <==> y in s || y == JString(id)
  {
    if JString(id) in s then s else s + [JString(id)]
  }

  /** `set.delete(orderId)`: every entry equal to the text goes (at most one in a set). */
  function Delete(s: seq<Json>, id: string): (r: seq<Json>)
    ensures IsSet(s) ==> IsSet(r)
    ensures forall y :: y in r <==> y in s && y != JString(id)
    ensures |r| <= |s|
  {
    if s == [] then []
    else
      var rest := Delete(s[..|s| - 1], id);
      var last := s[|s| - 1];
      assert s == s[..|s| - 1] + [last];
      IsSetSnoc(s[..|s| - 1], last);
      IsSetSnoc(rest, last);
      if last == JString(id) then rest else rest + [last]
  }

  /** Sending a code and then completing the delivery leaves the other orders as they were. */
  lemma DeleteUndoesAdd(s: seq<Json>, id: string)
    requires IsSet(s) && JString(id) !in s
    ensures Delete(Add(s, id), id) == s
  {
    DeleteAbsent(s, id);
    assert Add(s, id) == s + [JString(id)];
    assert (s + [JString(id)])[..|s|] == s;
  }

  lemma {:induction false} DeleteAbsent(s: seq<Json>, id: string)
    requires JString(id) !in s
    ensures Delete(s, id) == s
  {
    if s != [] {
      DeleteAbsent(s[..|s| - 1], id);
      assert s == s[..|s| - 1] + [s[|s| - 1]];
    }
  }

  // ---------------------------------------------------------------------------
  // Handlers
  // ---------------------------------------------------------------------------

  /** After `handleSendOTP`: the set, and whether the code dialog is still open. */
  datatype SendOutcome = SendOutcome(sent: seq<Json>, dialogOpen: bool)

  /**
   * `handleSendOTP`: the order joins the set only when generation
   * succeeded; on failure the set is unchanged and the dialog closes.
   */
  function SendCode(sent: seq<Json>, orderId: string, generated: bool): (r: SendOutcome)
    ensures generated ==> r.dialogOpen && forall y :: y in r.sent <==> y in sent || y == JString(orderId)
    ensures !generated ==> r.sent == sent && !r.dialogOpen
    ensures IsSet(sent) ==> IsSet(r.sent)
  {
    if generated then SendOutcome(Add(sent, orderId), true) else SendOutcome(sent, false)
  }

  /**
   * The code field: the browser keeps at most six typed characters and the
   * change handler drops every non-digit.
   */
  function CodeField(typed: string): (v: string)
    ensures |v| <= 6 && Text.AllDigits(v)
    ensures Text.AllDigits(typed) && |typed| <= 6 ==> v == typed
  {
    Text.KeepDigits(if |typed| <= 6 then typed else typed[..6])
  }

  /** What `handleVerifyOTP` does: no request, or a request and (on success) the updated set. */
  datatype VerifyOutcome = NoRequest | Verified(code: string, sent: seq<Json>) | Rejected(code: string)

  /**
   * `handleVerifyOTP`: no request unless the field holds six characters;
   * a successful check removes the selected order from the set.
   */
  function VerifyCode(field: string, sent: seq<Json>, selected: string, accepted: bool): (r: VerifyOutcome)
    ensures r.NoRequest? <==> |field| != 6
    ensures r.Verified? ==> r.code == field && forall y :: y in r.sent <==> y in sent && y != JString(selected)
    ensures r.Rejected? <==> |field| == 6 && !accepted
  {
    if |field| != 6 then NoRequest
    else if accepted then Verified(field, Delete(sent, selected))
    else Rejected(field)
  }

  /** A code typed into the field and sent is six decimal digits, the shape the server issues. */
  lemma SentCodeIsSixDigits(typed: string, sent: seq<Json>, selected: string, accepted: bool)
    ensures var r := VerifyCode(CodeField(typed), sent, selected, accepted);
      !r.NoRequest? ==> |r.code| == 6 && Text.AllDigits(r.code)
  {
  }

  /** The requests `handleDeliveryAction` sends. */
  datatype ActionCall = AcceptCall(orderId: string) | RejectCall(orderId: string, reason: string) | CompleteCall(orderId: string)

  datatype ActionOutcome = ActionOutcome(call: Option<ActionCall>, sent: seq<Json>)

  /**
   * `handleDeliveryAction`: accept, reject (with the prompt's answer, or
   * "No reason provided" when it is dismissed or empty) and complete; a
   * successful completion removes the order from the set.
   */
  function DeliveryAction(action: string, orderId: string, answer: Option<string>, sent: seq<Json>, ok: bool): (r: ActionOutcome)
    ensures action == "reject" ==>
      r.call == Some(RejectCall(orderId, if answer.None? || answer.value == "" then "No reason provided" else answer.value))
    ensures action == "accept" ==> r.call == Some(AcceptCall(orderId))
    ensures action == "complete" ==> r.call == Some(CompleteCall(orderId))
    ensures action != "accept" && action != "reject" && action != "complete" ==> r.call.None?
    ensures action == "complete" && ok ==> forall y :: y in r.sent <==> y in sent && y != JString(orderId)
    ensures !(action == "complete" && ok) ==> r.sent == sent
  {
    if action == "accept" then ActionOutcome(Some(AcceptCall(orderId)), sent)
    else if action == "reject" then
      var reason := if answer.None? || answer.value == "" then "No reason provided" else answer.value;
      ActionOutcome(Some(RejectCall(orderId, reason)), sent)
    else if action == "complete" then
      ActionOutcome(Some(CompleteCall(orderId)), if ok then Delete(sent, orderId) else sent)
    else ActionOutcome(None, sent)
  }

  /** The rejection never carries an empty reason. */
  lemma RejectReasonNonEmpty(orderId: string, answer: Option<string>, sent: seq<Json>, ok: bool)
    ensures var r := DeliveryAction("reject", orderId, answer, sent, ok);
      r.call.Some? && r.call.value.RejectCall? && r.call.value.reason != ""
  {
  }

  // ---------------------------------------------------------------------------
  // Gating and counters
  // ---------------------------------------------------------------------------

  /** Accept/Reject: a pending delivery with a driver name. */
  predicate OffersAcceptReject(status: string, driverName: Option<string>) {
    status == "pending" && driverName.Some? && driverName.value != ""
  }

  /** The statuses in which the code buttons appear. */
  predicate OffersCode(status: string) {
    status == "assigned" || status == "at_pickup" || status == "in_transit" || status == "out_for_delivery"
  }

  /** "Enter OTP" and "Resend OTP" appear once a code was sent for the order. */
  predicate OffersCodeEntry(status: string, sent: seq<Json>, orderId: string) {
    OffersCode(status) && JString(orderId) in sent
  }

  /**
   * The two groups of buttons never appear together, and for every
   * declared delivery status the code buttons appear exactly when the
   * server accepts a code request (`out_for_delivery` is not a delivery
   * status, so the extra entry never matters).
   */
  lemma GatingMatchesServer(status: string, driverName: Option<string>, d: DeliveryStatus)
    ensures !(OffersAcceptReject(status, driverName) && OffersCode(status))
    ensures OffersCode(DeliveryStatusName(d)) <==> Dispatch.OtpStage(d)
  {
  }

  /** The unread badge: how many read flags are `false`. */
  function CountUnread(notes: seq<bool>): (k: nat)
    ensures k <= |notes|
    ensures k == multiset(notes)[false]
  {
    if notes == [] then 0
    else
      assert notes == notes[..|notes| - 1] + [notes[|notes| - 1]];
      CountUnread(notes[..|notes| - 1]) + if notes[|notes| - 1] then 0 else 1
  }

  /** The statuses of the courier's deliveries that are not yet `delivered`. */
  function CountActive(statuses: seq<string>): (k: nat)
    ensures k <= |statuses|
    ensures k == |statuses| - multiset(statuses)["delivered"]
  {
    if statuses == [] then 0
    else
      assert statuses == statuses[..|statuses| - 1] + [statuses[|statuses| - 1]];
      CountActive(statuses[..|statuses| - 1]) + if statuses[|statuses| - 1] == "delivered" then 0 else 1
  }

  /** The unread badge is zero exactly when every notification is read (given their read flags). */
  lemma {:induction false} UnreadZeroIffAllRead(readFlags: seq<bool>)
    ensures CountUnread(readFlags) == 0 <==> forall i | 0 <= i < |readFlags| :: readFlags[i]
  {
    if readFlags != [] {
      UnreadZeroIffAllRead(readFlags[..|readFlags| - 1]);
    }
  }

  /** The Active tab counts every delivery exactly when none is delivered. */
  lemma {:induction false} ActiveAllIffNoneDelivered(statuses: seq<string>)
    ensures CountActive(statuses) == |statuses| <==> forall i | 0 <= i < |statuses| :: statuses[i] != "delivered"
  {
    if statuses != [] {
      ActiveAllIffNoneDelivered(statuses[..|statuses| - 1]);
    }
  }
}
