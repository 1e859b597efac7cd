/** Catalog redemptions (backend/app/Models/Rewards/RewardRedemption.php): the five
    statuses, their accessors and display values, and the admin-side transitions. */
module Redemptions {
  import opened Wrappers
  import Php

  const Pending := "pending"
  const Approved := "approved"
  const Rejected := "rejected"
  const Fulfilled := "fulfilled"
  const Cancelled := "cancelled"

  /** `STATUSES`, in declaration order. */
  const Statuses: seq<string> := [Pending, Approved, Rejected, Fulfilled, Cancelled]

  lemma StatusesDistinct()
    ensures |Statuses| == 5
    ensures forall i, j :: 0 <= i < j < |Statuses| ==> Statuses[i] != Statuses[j]
  {
  }

  /** `is_pending`. */
  predicate IsPending(status: string) {
    status == Pending
  }

  /** `is_approved`. */
  predicate IsApproved(status: string) {
    status == Approved
  }

  /** `is_fulfilled`. */
  predicate IsFulfilled(status: string) {
    status == Fulfilled
  }

  /** `can_be_cancelled`: the status is one of pending and approved. */
  predicate CanBeCancelled(status: string) {
    status in [Pending, Approved]
  }

  /** At most one of the three status accessors holds, and a redemption can be cancelled
      exactly while it is pending or approved; rejected, fulfilled, cancelled and unknown
      statuses cannot be. */
  lemma StatusAccessors(status: string)
    ensures !(IsPending(status) && IsApproved(status))
    ensures !(IsPending(status) && IsFulfilled(status))
    ensures !(IsApproved(status) && IsFulfilled(status))
    ensures CanBeCancelled(status) <==> IsPending(status) || IsApproved(status)
    ensures status in {Rejected, Fulfilled, Cancelled} ==> !CanBeCancelled(status)
  {
  }

  /** `status_label`: a Spanish label per known status, `ucfirst` of anything else. */
  function StatusLabel(status: string): (l: string)
    ensures status !in Statuses ==> l == Php.UcFirst(status)
  {
    match status
    case "pending" => "Pendiente"
    case "approved" => "Aprobado"
    case "rejected" => "Rechazado"
    case "fulfilled" => "Completado"
    case "cancelled" => "Cancelado"
    case _ => Php.UcFirst(status)
  }

  /** `status_color`: a colour per known status, grey for anything else. */
  function StatusColor(status: string): (c: string)
    ensures status !in Statuses ==> c == "gray"
  {
    match status
    case "pending" => "yellow"
    case "approved" => "blue"
    case "rejected" => "red"
    case "fulfilled" => "green"
    case "cancelled" => "gray"
    case _ => "gray"
  }

  /** The known statuses get five different labels; only cancelled shares the fallback grey. */
  lemma StatusDisplayDistinct()
    ensures forall i, j :: 0 <= i < j < |Statuses| ==> StatusLabel(Statuses[i]) != StatusLabel(Statuses[j])
    ensures forall i :: 0 <= i < |Statuses| && Statuses[i] != Cancelled ==> StatusColor(Statuses[i]) != "gray"
  {
  }

  /** The note "0" is falsy in PHP, so passing it leaves the stored notes alone. */
  lemma ZeroNoteIgnored()
    ensures !Php.Truthy(Some("0")) && !Php.Truthy(Some("")) && !Php.Truthy(None)
    ensures Php.Truthy(Some("00"))
  {
  }

  /** A row of reward_redemptions. The transitions assign the status whatever it was:
      none of them checks the current one. */
  class Redemption {
    const rewardUserId: int
    const catalogItemId: int
    const pointsSpent: int
    var status: string
    var processedBy: Option<int>
    var processedAt: Option<int>
    var adminNotes: Option<string>

    /** A new redemption is pending and unprocessed. */
    constructor (rewardUserId: int, catalogItemId: int, pointsSpent: int)
      ensures this.rewardUserId == rewardUserId && this.catalogItemId == catalogItemId
      ensures this.pointsSpent == pointsSpent
      ensures status == Pending && IsPending(status) && CanBeCancelled(status)
      ensures processedBy.None? && processedAt.None? && adminNotes.None?
    {
      this.rewardUserId := rewardUserId;
      this.catalogItemId := catalogItemId;
      this.pointsSpent := pointsSpent;
      status := Pending;
      processedBy := None;
      processedAt := None;
      adminNotes := None;
    }

    /** `approve(adminId, notes)`. */
    method Approve(adminId: int, now: int, notes: Option<string> := None)
      modifies this
      ensures status == Approved && processedBy == Some(adminId) && processedAt == Some(now)
      ensures Php.Truthy(notes) ==> adminNotes == notes
      ensures !Php.Truthy(notes) ==> adminNotes == old(adminNotes)
    {
      status := Approved;
      processedBy := Some(adminId);
      processedAt := Some(now);
      if Php.Truthy(notes) {
        adminNotes := notes;
      }
    }

    /** `reject(adminId, reason)`. */
    method Reject(adminId: int, now: int, reason: Option<string> := None)
      modifies this
      ensures status == Rejected && processedBy == Some(adminId) && processedAt == Some(now)
      ensures !CanBeCancelled(status)
      ensures Php.Truthy(reason) ==> adminNotes == reason
      ensures !Php.Truthy(reason) ==> adminNotes == old(adminNotes)
    {
      status := Rejected;
      processedBy := Some(adminId);
      processedAt := Some(now);
      if Php.Truthy(reason) {
        adminNotes := reason;
      }
    }

    /** `fulfill(adminId, notes)`. */
    method Fulfill(adminId: int, now: int, notes: Option<string> := None)
      modifies this
      ensures status == Fulfilled && IsFulfilled(status) && !CanBeCancelled(status)
      ensures processedBy == Some(adminId) && processedAt == Some(now)
      ensures Php.Truthy(notes) ==> adminNotes == notes
      ensures !Php.Truthy(notes) ==> adminNotes == old(adminNotes)
    {
      status := Fulfilled;
      processedBy := Some(adminId);
      processedAt := Some(now);
      if Php.Truthy(notes) {
        adminNotes := notes;
      }
    }

    /** `cancel(reason)`: no admin stamp; the processing fields keep their values. */
    method Cancel(reason: Option<string> := None)
      modifies this
      ensures status == Cancelled && !CanBeCancelled(status)
      ensures processedBy == old(processedBy) && processedAt == old(processedAt)
      ensures Php.Truthy(reason) ==> adminNotes == reason
      ensures !Php.Truthy(reason) ==> adminNotes == old(adminNotes)
    {
      status := Cancelled;
      if Php.Truthy(reason) {
        adminNotes := reason;
      }
    }
  }

  /** Pending, cancelled with a reason: the redemption ends cancelled, carries the reason,
      and can no longer be cancelled. Fulfilled, then cancelled: also accepted. */
  method CancelScenario(adminId: int, now: int)
  {
    var r := new Redemption(7, 3, 300);
    r.Cancel(Some("changed my mind"));
    assert r.status == Cancelled && !CanBeCancelled(r.status);
    assert r.adminNotes == Some("changed my mind") && r.processedBy.None?;
    var f := new Redemption(7, 3, 300);
    f.Approve(adminId, now);
    f.Fulfill(adminId, now + 1, Some("0"));
    f.Cancel();
    assert f.status == Cancelled && f.processedAt == Some(now + 1) && f.adminNotes.None?;
  }
}
