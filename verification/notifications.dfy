/** The notification store: a newest-first list of notifications and an
    `unreadCount` counter that every operation adjusts in the same step. */
module NotificationStore {
  import opened Wrappers
  import opened Types
  import Seqs

  datatype NotificationState = NotificationState(notifications: seq<Notification>, unreadCount: nat)

  /** The store before any operation. */
  const Initial := NotificationState([], 0)

  /** The number of records whose `read` flag is false. */
  function CountUnread(ns: seq<Notification>): nat
    decreases |ns|
  {
    if ns == [] then 0 else (if ns[0].read then 0 else 1) + CountUnread(ns[1..])
  }

  predicate DistinctIds(ns: seq<Notification>) {
    forall i, j :: 0 <= i < j < |ns| ==> ns[i].id != ns[j].id
  }

  predicate HasId(ns: seq<Notification>, id: string) {
    exists i :: 0 <= i < |ns| && ns[i].id == id
  }

  /** The store invariant: ids are pairwise distinct and the counter equals
      the number of unread records. */
  predicate Consistent(s: NotificationState) {
    DistinctIds(s.notifications) && s.unreadCount == CountUnread(s.notifications)
  }

  /** `notifications.find(n => n.id === id)`: the first record carrying the
      id; under distinct ids, the only one. */
  function Find(ns: seq<Notification>, id: string): (r: Option<Notification>)
    ensures r.None? <==> !HasId(ns, id)
    ensures r.Some? ==> r.value.id == id && r.value in ns
    ensures r.Some? ==> exists k :: 0 <= k < |ns| && ns[k] == r.value
                                    && forall i :: 0 <= i < k ==> ns[i].id != id
    ensures r.Some? && DistinctIds(ns) ==> forall i :: 0 <= i < |ns| && ns[i].id == id ==> ns[i] == r.value
    decreases |ns|
  {
    if ns == [] then None
    else if ns[0].id == id then Some(ns[0])
    else
      var r := Find(ns[1..], id);
      assert HasId(ns, id) ==> HasId(ns[1..], id) by {
        if HasId(ns, id) {
          var i :| 0 <= i < |ns| && ns[i].id == id;
          assert ns[1..][i - 1].id == id;
        }
      }
      assert r.Some? ==> forall k :: 0 <= k < |ns| - 1 && ns[1..][k] == r.value ==> ns[k + 1] == r.value;
      r
  }

  /** `Math.max(0, count - 1)`. */
  function DecrementFloored(count: nat): nat {
    if count >= 1 then count - 1 else 0
  }

  /** `addNotification`: the new record, unread, goes in front of the old
      list, and the counter goes up by one. */
  function AddNotification(s: NotificationState, draft: NotificationDraft, id: string, now: int): (r: NotificationState)
    ensures |r.notifications| == |s.notifications| + 1
    ensures r.notifications[1..] == s.notifications
    ensures var n := r.notifications[0];
      && n.id == id && n.timestamp == now && !n.read
      && n.kind == draft.kind && n.title == draft.title && n.message == draft.message
      && n.bookId == draft.bookId && n.bookTitle == draft.bookTitle
    ensures r.unreadCount == s.unreadCount + 1
  {
    var n := Notification(id, draft.kind, draft.title, draft.message, draft.bookId, draft.bookTitle, now, false);
    NotificationState([n] + s.notifications, s.unreadCount + 1)
  }

  /** Sets `read` on every record with the id, leaving the others alone. */
  function MarkIn(ns: seq<Notification>, id: string): (r: seq<Notification>)
    ensures |r| == |ns|
    ensures forall i :: 0 <= i < |ns| ==> r[i].id == ns[i].id
    ensures forall i :: 0 <= i < |ns| ==> r[i].read == (ns[i].read || ns[i].id == id)
    ensures forall i :: 0 <= i < |ns| ==> r[i].(read := ns[i].read) == ns[i]
  {
    seq(|ns|, i requires 0 <= i < |ns| => if ns[i].id == id then ns[i].(read := true) else ns[i])
  }

  /** `markAsRead`: a no-op for an absent or already read id; otherwise the
      record becomes read and the counter drops by one, floored at zero. */
  function MarkAsRead(s: NotificationState, id: string): (r: NotificationState)
    ensures !HasId(s.notifications, id) ==> r == s
    ensures (Find(s.notifications, id).Some? && Find(s.notifications, id).value.read) ==> r == s
    ensures (Find(s.notifications, id).Some? && !Find(s.notifications, id).value.read) ==>
      && r.notifications == MarkIn(s.notifications, id)
      && r.unreadCount == DecrementFloored(s.unreadCount)
  {
    match Find(s.notifications, id)
    case None => s
    case Some(n) =>
      if n.read then s
      else NotificationState(MarkIn(s.notifications, id), DecrementFloored(s.unreadCount))
  }

  /** `markAllAsRead`: same records in the same order, all read, counter 0. */
  function MarkAllAsRead(s: NotificationState): (r: NotificationState)
    ensures |r.notifications| == |s.notifications|
    ensures forall i :: 0 <= i < |s.notifications| ==>
      r.notifications[i] == s.notifications[i].(read := true)
    ensures r.unreadCount == 0
  {
    var ns := s.notifications;
    NotificationState(seq(|ns|, i requires 0 <= i < |ns| => ns[i].(read := true)), 0)
  }

  function NotId(id: string): Notification -> bool {
    (n: Notification) => n.id != id
  }

  /** `clearNotification`: the records with the id are removed; the counter
      drops by one (floored at zero) only when the record found was unread. */
  function ClearNotification(s: NotificationState, id: string): (r: NotificationState)
    ensures forall i :: 0 <= i < |r.notifications| ==> r.notifications[i].id != id
    ensures r.notifications == Seqs.Filter(s.notifications, NotId(id))
    ensures !HasId(s.notifications, id) ==> r == s
    ensures r.unreadCount ==
      if Find(s.notifications, id).Some? && !Find(s.notifications, id).value.read
      then DecrementFloored(s.unreadCount) else s.unreadCount
  {
    var found := Find(s.notifications, id);
    var wasUnread := found.Some? && !found.value.read;
    if !HasId(s.notifications, id) then
      Seqs.FilterKeepsAll(s.notifications, NotId(id));
      NotificationState(Seqs.Filter(s.notifications, NotId(id)), s.unreadCount)
    else
      NotificationState(Seqs.Filter(s.notifications, NotId(id)),
                        if wasUnread then DecrementFloored(s.unreadCount) else s.unreadCount)
  }

  /** `clearAllNotifications`: empty list, counter 0. */
  function ClearAllNotifications(s: NotificationState): (r: NotificationState)
    ensures r.notifications == [] && r.unreadCount == 0
  {
    Initial
  }

  // ---------------------------------------------------------------------
  // The counter invariant, operation by operation.

  lemma InitialConsistent()
    ensures Consistent(Initial)
  {
  }

  lemma AddPreservesConsistent(s: NotificationState, draft: NotificationDraft, id: string, now: int)
    requires Consistent(s)
    requires !HasId(s.notifications, id)
    ensures Consistent(AddNotification(s, draft, id, now))
  {
    var r := AddNotification(s, draft, id, now);
    assert CountUnread(r.notifications) == 1 + CountUnread(s.notifications);
    forall i, j | 0 <= i < j < |r.notifications| ensures r.notifications[i].id != r.notifications[j].id {
      assert r.notifications[j] == s.notifications[j - 1];
      if i > 0 {
        assert r.notifications[i] == s.notifications[i - 1];
      }
    }
  }

  /** Marking the records with one id read lowers the unread count by the
      number of unread records carrying it, which is at most one. */
  lemma {:induction false} CountAfterMark(ns: seq<Notification>, id: string)
    requires DistinctIds(ns)
    ensures CountUnread(MarkIn(ns, id)) ==
      CountUnread(ns) - (if Find(ns, id).Some? && !Find(ns, id).value.read then 1 else 0)
    decreases |ns|
  {
    if ns != [] {
      var m := MarkIn(ns, id);
      assert m[1..] == MarkIn(ns[1..], id);
      CountAfterMark(ns[1..], id);
      if ns[0].id == id {
        assert !HasId(ns[1..], id) by {
          forall k | 0 <= k < |ns| - 1 ensures ns[1..][k].id != id {
            assert ns[1..][k] == ns[k + 1];
          }
        }
      }
    }
  }

  lemma MarkAsReadPreservesConsistent(s: NotificationState, id: string)
    requires Consistent(s)
    ensures Consistent(MarkAsRead(s, id))
  {
    var f := Find(s.notifications, id);
    if f.Some? && !f.value.read {
      CountAfterMark(s.notifications, id);
      assert s.unreadCount >= 1 by {
        assert f.value in s.notifications;
        UnreadRecordCounted(s.notifications, f.value);
      }
    }
  }

  /** An unread record contributes to the count. */
  lemma {:induction false} UnreadRecordCounted(ns: seq<Notification>, n: Notification)
    requires n in ns && !n.read
    ensures CountUnread(ns) >= 1
    decreases |ns|
  {
    if ns[0] != n {
      UnreadRecordCounted(ns[1..], n);
    }
  }

  /** The unread count is zero exactly when every record is read. */
  lemma {:induction false} CountZeroIffAllRead(ns: seq<Notification>)
    ensures CountUnread(ns) == 0 <==> forall i :: 0 <= i < |ns| ==> ns[i].read
    decreases |ns|
  {
    if ns != [] {
      CountZeroIffAllRead(ns[1..]);
      if CountUnread(ns) == 0 {
        forall i | 0 <= i < |ns| ensures ns[i].read {
          if i > 0 {
            assert ns[i] == ns[1..][i - 1];
          }
        }
      }
    }
  }

  lemma MarkAllPreservesConsistent(s: NotificationState)
    requires Consistent(s)
    ensures Consistent(MarkAllAsRead(s))
  {
    var r := MarkAllAsRead(s);
    CountZeroIffAllRead(r.notifications);
  }

  /** Clearing one id removes exactly the unread contribution of its record. */
  lemma {:induction false} CountAfterClear(ns: seq<Notification>, id: string)
    requires DistinctIds(ns)
    ensures CountUnread(Seqs.Filter(ns, NotId(id))) ==
      CountUnread(ns) - (if Find(ns, id).Some? && !Find(ns, id).value.read then 1 else 0)
    decreases |ns|
  {
    if ns != [] {
      CountAfterClear(ns[1..], id);
      assert NotId(id)(ns[0]) == (ns[0].id != id);
      if ns[0].id == id {
        assert !HasId(ns[1..], id) by {
          forall k | 0 <= k < |ns| - 1 ensures ns[1..][k].id != id {
            assert ns[1..][k] == ns[k + 1];
          }
        }
        assert Find(ns[1..], id).None?;
        assert Seqs.Filter(ns, NotId(id)) == Seqs.Filter(ns[1..], NotId(id));
      }
    }
  }

  /** A filter keeps distinct ids distinct. */
  lemma {:induction false} FilterDistinct(ns: seq<Notification>, keep: Notification -> bool)
    requires DistinctIds(ns)
    ensures DistinctIds(Seqs.Filter(ns, keep))
    decreases |ns|
  {
    if ns != [] {
      FilterDistinct(ns[1..], keep);
      var t := Seqs.Filter(ns[1..], keep);
      var r := Seqs.Filter(ns, keep);
      forall i, j | 0 <= i < j < |r| ensures r[i].id != r[j].id {
        if keep(ns[0]) && i == 0 {
          assert r[j] == t[j - 1];
          Seqs.FilterMembership(ns[1..], keep, r[j]);
          var k :| 0 <= k < |ns[1..]| && ns[1..][k] == r[j];
          assert ns[k + 1] == r[j];
        } else if keep(ns[0]) {
          assert r[i] == t[i - 1] && r[j] == t[j - 1];
        } else {
          assert r[i] == t[i] && r[j] == t[j];
        }
      }
    }
  }

  lemma ClearPreservesConsistent(s: NotificationState, id: string)
    requires Consistent(s)
    ensures Consistent(ClearNotification(s, id))
  {
    var f := Find(s.notifications, id);
    CountAfterClear(s.notifications, id);
    FilterDistinct(s.notifications, NotId(id));
    if f.Some? && !f.value.read {
      UnreadRecordCounted(s.notifications, f.value);
    }
  }

  // ---------------------------------------------------------------------
  // Any sequence of operations.

  datatype Op =
    | Add(draft: NotificationDraft, id: string, now: int)
    | MarkRead(id: string)
    | MarkAll
    | Clear(id: string)
    | ClearAll

  function Apply(s: NotificationState, op: Op): NotificationState {
    match op
    case Add(d, id, now) => AddNotification(s, d, id, now)
    case MarkRead(id) => MarkAsRead(s, id)
    case MarkAll => MarkAllAsRead(s)
    case Clear(id) => ClearNotification(s, id)
    case ClearAll => ClearAllNotifications(s)
  }

  function Run(s: NotificationState, ops: seq<Op>): NotificationState
    decreases |ops|
  {
    if ops == [] then s else Run(Apply(s, ops[0]), ops[1..])
  }

  /** Every `Add` in the run brings an id no record carries at that moment,
      as the time-and-random id of the source does. */
  predicate FreshRun(s: NotificationState, ops: seq<Op>)
    decreases |ops|
  {
    ops == [] ||
    ((ops[0].Add? ==> !HasId(s.notifications, ops[0].id)) && FreshRun(Apply(s, ops[0]), ops[1..]))
  }

  lemma ApplyPreservesConsistent(s: NotificationState, op: Op)
    requires Consistent(s)
    requires op.Add? ==> !HasId(s.notifications, op.id)
    ensures Consistent(Apply(s, op))
  {
    match op
    case Add(d, id, now) => AddPreservesConsistent(s, d, id, now);
    case MarkRead(id) => MarkAsReadPreservesConsistent(s, id);
    case MarkAll => MarkAllPreservesConsistent(s);
    case Clear(id) => ClearPreservesConsistent(s, id);
    case ClearAll =>
  }

  /** After any run with fresh ids, the counter still equals the number of
      unread records and ids stay distinct. */
  lemma {:induction false} RunPreservesConsistent(s: NotificationState, ops: seq<Op>)
    requires Consistent(s) && FreshRun(s, ops)
    ensures Consistent(Run(s, ops))
    decreases |ops|
  {
    if ops != [] {
      ApplyPreservesConsistent(s, ops[0]);
      RunPreservesConsistent(Apply(s, ops[0]), ops[1..]);
    }
  }

  /** From the initial store, the counter is exact after every step. */
  lemma CounterExactFromInitial(ops: seq<Op>)
    requires FreshRun(Initial, ops)
    ensures Run(Initial, ops).unreadCount == CountUnread(Run(Initial, ops).notifications)
  {
    RunPreservesConsistent(Initial, ops);
  }

  /** Only `addNotification` lengthens the list, by exactly one. */
  lemma OnlyAddLengthens(s: NotificationState, op: Op)
    ensures op.Add? ==> |Apply(s, op).notifications| == |s.notifications| + 1
    ensures !op.Add? ==> |Apply(s, op).notifications| <= |s.notifications|
  {
  }
}
