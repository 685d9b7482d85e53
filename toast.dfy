/**
 * The toast queue shared by every component: a list of toasts and the
 * counter that numbers them. Timers are not modelled; `ShowToast` reports
 * whether it schedules the automatic removal and after how long.
 */
module Toasts {
  import opened Wrappers
  import opened Seqs

  datatype ToastType = Success | Error | Warning | Info

  datatype Toast = Toast(id: int, message: string, toastType: ToastType, timeout: int)

  /** No two toasts share an id. */
  predicate DistinctIds(ts: seq<Toast>) {
    forall a, b :: 0 <= a < b < |ts| ==> ts[a].id != ts[b].id
  }

  /** Every toast was numbered before the counter reached `next`. */
  predicate IdsBelow(ts: seq<Toast>, next: int) {
    forall a :: 0 <= a < |ts| ==> ts[a].id < next
  }

  function HasId(id: int): Toast -> bool {
    (t: Toast) => t.id == id
  }

  /** The list after `removeToast(id)`: the first toast with that id spliced
      out, or the list unchanged when there is none. */
  function WithoutToast(ts: seq<Toast>, id: int): seq<Toast> {
    match IndexWhere(HasId(id), ts)
    case None => ts
    case Some(k) => RemoveAt(ts, k)
  }

  /** Removing by id: an unknown id changes nothing; otherwise exactly one
      toast goes, the first with that id, and the others keep their order.
      In a list with distinct ids no toast with that id is left. */
  lemma WithoutToastSpec(ts: seq<Toast>, id: int)
    ensures (forall a :: 0 <= a < |ts| ==> ts[a].id != id) ==> WithoutToast(ts, id) == ts
    ensures (exists a :: 0 <= a < |ts| && ts[a].id == id) ==>
      |WithoutToast(ts, id)| == |ts| - 1
      && SubsequenceOf(WithoutToast(ts, id), ts)
    ensures DistinctIds(ts) ==>
      DistinctIds(WithoutToast(ts, id)) && forall t :: t in WithoutToast(ts, id) ==> t.id != id
  {
    match IndexWhere(HasId(id), ts)
    case None =>
      assert WithoutToast(ts, id) == ts;
      forall a | 0 <= a < |ts|
        ensures ts[a].id != id
      {
        assert !HasId(id)(ts[a]);
      }
    case Some(k) =>
      var r := RemoveAt(ts, k);
      assert ts == ts[..k] + [ts[k]] + ts[k + 1..];
      RemoveAtSubsequence(ts, k);
      if DistinctIds(ts) {
        forall t | t in r
          ensures t.id != id
        {
          var j :| 0 <= j < |r| && r[j] == t;
          if j < k {
            assert ts[j] == t;
          } else {
            assert ts[j + 1] == t;
          }
        }
      }
  }

  /** Appending a toast numbered by the counter, then advancing the counter,
      keeps ids distinct and below the counter. */
  lemma AppendKeepsIds(ts: seq<Toast>, next: int, t: Toast)
    requires DistinctIds(ts) && IdsBelow(ts, next) && t.id == next
    ensures DistinctIds(ts + [t]) && IdsBelow(ts + [t], next + 1)
  {
  }

  /** The shared toast list and its counter. */
  class ToastQueue {
    var toasts: seq<Toast>
    var nextId: int

    ghost predicate Valid()
      reads this
    {
      nextId >= 1 && DistinctIds(toasts) && IdsBelow(toasts, nextId)
    }

    constructor ()
      ensures Valid()
      ensures toasts == [] && nextId == 1
    {
      toasts := [];
      nextId := 1;
    }

    /** `showToast(message, type = 'info', timeout = 5000)`: number the toast
        with the counter, append it, and schedule its removal unless the
        timeout is 0. `scheduled` is the delay of that removal, if any. */
    method ShowToast(message: string, toastType: Option<ToastType>, timeout: Option<int>)
      returns (id: int, scheduled: Option<int>)
      requires Valid()
      modifies this
      ensures Valid()
      ensures id == old(nextId) && nextId == old(nextId) + 1
      ensures toasts == old(toasts) + [Toast(id, message, toastType.GetOr(Info), timeout.GetOr(5000))]
      ensures scheduled == if timeout.GetOr(5000) != 0 then Some(timeout.GetOr(5000)) else None
    {
      var effectiveType := toastType.GetOr(Info);
      var effectiveTimeout := timeout.GetOr(5000);
      id := nextId;
      nextId := nextId + 1;
      var toast := Toast(id, message, effectiveType, effectiveTimeout);
      AppendKeepsIds(toasts, id, toast);
      toasts := toasts + [toast];
      if effectiveTimeout != 0 {
        scheduled := Some(effectiveTimeout);
      } else {
        scheduled := None;
      }
    }

    /** `removeToast(id)` */
    method RemoveToast(id: int)
      requires Valid()
      modifies this
      ensures Valid()
      ensures nextId == old(nextId)
      ensures toasts == WithoutToast(old(toasts), id)
    {
      var index := IndexWhere(HasId(id), toasts);
      WithoutToastSpec(toasts, id);
      if index.Some? {
        toasts := RemoveAt(toasts, index.value);
      }
      assert forall t :: t in toasts ==> t in old(toasts);
    }
  }
}
