/**
 * The customer-notification endpoints of `views.py`:
 * `mark_notifications_read` and `delete_notification`. Both act only on
 * the caller's own notifications whose ids the request lists.
 */
module Notifications {
  import opened Wrappers
  import opened Models
  import opened Store

  // Messages of the views
  const IdsRequiredMsg := "notification_ids is required"
  const NotificationNotFoundMsg := "Notification not found"

  /** The caller's notification named in the request. */
  predicate Targeted(me: User, ids: seq<nat>, n: UserNote) { n.user == me.id && n.id in ids }

  /** How many notifications the filter selects. */
  function CountTargeted(notes: seq<UserNote>, me: User, ids: seq<nat>): (k: nat)
    ensures k <= |notes|
  {
    if notes == [] then 0
    else CountTargeted(notes[..|notes| - 1], me, ids) + if Targeted(me, ids, notes[|notes| - 1]) then 1 else 0
  }

  /** The notifications the filter leaves in place, in order. */
  function Untargeted(notes: seq<UserNote>, me: User, ids: seq<nat>): (rest: seq<UserNote>)
    ensures forall n :: n in rest <==> n in notes && !Targeted(me, ids, n)
    ensures |rest| + CountTargeted(notes, me, ids) == |notes|
  {
    if notes == [] then []
    else
      var last := notes[|notes| - 1];
      Untargeted(notes[..|notes| - 1], me, ids) + if Targeted(me, ids, last) then [] else [last]
  }

  function MarkOne(me: User, ids: seq<nat>, n: UserNote): UserNote {
    if Targeted(me, ids, n) then n.(isRead := true) else n
  }

  /** `update(is_read=True)` over the filter: targeted notifications read, every other one untouched. */
  function MarkTargeted(notes: seq<UserNote>, me: User, ids: seq<nat>): (notes': seq<UserNote>)
    ensures |notes'| == |notes|
    ensures forall i | 0 <= i < |notes| ::
      notes'[i] == notes[i].(isRead := notes'[i].isRead)
      && (notes'[i].isRead <==> notes[i].isRead || Targeted(me, ids, notes[i]))
  {
    seq(|notes|, i requires 0 <= i < |notes| => MarkOne(me, ids, notes[i]))
  }

  /**
   * `mark_notifications_read`: an empty id list is refused; otherwise the
   * caller's notifications with a listed id become read, and the answer is
   * how many matched (already-read ones included).
   */
  function MarkNotificationsRead(db: Db, me: User, ids: seq<nat>): (r: Reply<nat>)
    ensures r.body.Failure? <==> ids == []
    ensures r.body.Failure? ==> r.db == db && r.body.error.BadRequest?
    ensures r.body.Success? ==>
      && r.db == db.(userNotes := r.db.userNotes)
      && r.db.userNotes == MarkTargeted(db.userNotes, me, ids)
      && r.body.value == CountTargeted(db.userNotes, me, ids)
  {
    if ids == [] then Refuse(db, BadRequest(IdsRequiredMsg))
    else Reply(db.(userNotes := MarkTargeted(db.userNotes, me, ids)), Success(CountTargeted(db.userNotes, me, ids)))
  }

  /** Marking is idempotent, and a second call matches the same number of notifications. */
  lemma MarkTwice(db: Db, me: User, ids: seq<nat>)
    ensures var r1 := MarkNotificationsRead(db, me, ids);
      var r2 := MarkNotificationsRead(r1.db, me, ids);
      && r2.db == r1.db
      && r2.body == r1.body
  {
    var notes := db.userNotes;
    var marked := MarkTargeted(notes, me, ids);
    assert MarkTargeted(marked, me, ids) == marked;
    SameTargetsSameCount(notes, marked, me, ids);
  }

  /** Rewriting only the read flag keeps which notifications the filter selects. */
  lemma {:induction false} SameTargetsSameCount(a: seq<UserNote>, b: seq<UserNote>, me: User, ids: seq<nat>)
    requires |a| == |b|
    requires forall i | 0 <= i < |a| :: b[i] == a[i].(isRead := b[i].isRead)
    ensures CountTargeted(a, me, ids) == CountTargeted(b, me, ids)
  {
    if a != [] {
      SameTargetsSameCount(a[..|a| - 1], b[..|b| - 1], me, ids);
      assert Targeted(me, ids, a[|a| - 1]) == Targeted(me, ids, b[|b| - 1]);
    }
  }

  /**
   * `delete_notification`: with a (non-zero) id in the path, deletes the
   * caller's notification with that id or answers 404; without one, an
   * empty id list is refused and the caller's listed notifications are
   * deleted. The answer is the number deleted.
   */
  function DeleteNotification(db: Db, me: User, pathId: Option<nat>, ids: seq<nat>): (r: Reply<nat>)
    ensures r.body.Failure? ==> r.db == db
    ensures pathId.Some? && pathId.value != 0 ==>
      (r.body.Success? <==> exists n | n in db.userNotes :: n.user == me.id && n.id == pathId.value)
      && (r.body.Failure? ==> r.body.error.NotFound?)
    ensures (pathId.None? || pathId.value == 0) ==>
      (r.body.Failure? <==> ids == []) && (r.body.Failure? ==> r.body.error.BadRequest?)
    ensures r.body.Success? ==>
      var chosen := if pathId.Some? && pathId.value != 0 then [pathId.value] else ids;
      && r.db == db.(userNotes := Untargeted(db.userNotes, me, chosen))
      && r.body.value == CountTargeted(db.userNotes, me, chosen)
      && r.body.value + |r.db.userNotes| == |db.userNotes|
  {
    if pathId.Some? && pathId.value != 0 then
      var k := CountTargeted(db.userNotes, me, [pathId.value]);
      if k == 0 then
        NoneTargeted(db.userNotes, me, [pathId.value]);
        Refuse(db, NotFound(NotificationNotFoundMsg))
      else
        SomeTargeted(db.userNotes, me, [pathId.value]);
        Reply(db.(userNotes := Untargeted(db.userNotes, me, [pathId.value])), Success(k))
    else if ids == [] then Refuse(db, BadRequest(IdsRequiredMsg))
    else Reply(db.(userNotes := Untargeted(db.userNotes, me, ids)), Success(CountTargeted(db.userNotes, me, ids)))
  }

  lemma {:induction false} NoneTargeted(notes: seq<UserNote>, me: User, ids: seq<nat>)
    requires CountTargeted(notes, me, ids) == 0
    ensures forall n | n in notes :: !Targeted(me, ids, n)
  {
    if notes != [] {
      NoneTargeted(notes[..|notes| - 1], me, ids);
      assert notes == notes[..|notes| - 1] + [notes[|notes| - 1]];
    }
  }

  lemma {:induction false} SomeTargeted(notes: seq<UserNote>, me: User, ids: seq<nat>)
    requires CountTargeted(notes, me, ids) > 0
    ensures exists n | n in notes :: Targeted(me, ids, n)
  {
    if !Targeted(me, ids, notes[|notes| - 1]) {
      SomeTargeted(notes[..|notes| - 1], me, ids);
    }
  }

  /** Deleting one notification twice: the second request finds nothing. */
  lemma DeleteTwice(db: Db, me: User, id: nat)
    requires id != 0
    ensures var r1 := DeleteNotification(db, me, Some(id), []);
      var r2 := DeleteNotification(r1.db, me, Some(id), []);
      r2.body.Failure? && r2.body.error.NotFound? && r2.db == r1.db
  {
  }
}
