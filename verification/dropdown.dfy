/** The notification dropdown: relative timestamps, the click handler and the
    unread line. */
module Dropdown {
  import opened Wrappers
  import opened Types
  import Text
  import NotificationStore

  /** `Math.floor(x / d)` for a positive divisor: Dafny's division on `int`
      already rounds toward negative infinity when the divisor is positive. */
  function FloorDiv(x: int, d: int): (q: int)
    requires d > 0
    ensures q * d <= x < q * d + d
  {
    x / d
  }

  /** `formatTimeAgo(timestamp)` at instant `now`, both in milliseconds. */
  function FormatTimeAgo(now: int, timestamp: int): (r: string)
    ensures var elapsed := now - timestamp;
      && (elapsed < 60000 ==> r == "just now")
      && (60000 <= elapsed < 3600000 ==> r == Text.NatToString(elapsed / 60000) + "m ago")
      && (3600000 <= elapsed < 86400000 ==> r == Text.NatToString(elapsed / 3600000) + "h ago")
      && (86400000 <= elapsed ==> r == Text.NatToString(elapsed / 86400000) + "d ago")
  {
    var seconds := FloorDiv(now - timestamp, 1000);
    if seconds < 60 then "just now"
    else
      var minutes := FloorDiv(seconds, 60);
      if minutes < 60 then Text.NatToString(minutes) + "m ago"
      else
        var hours := FloorDiv(minutes, 60);
        if hours < 24 then Text.NatToString(hours) + "h ago"
        else Text.NatToString(FloorDiv(hours, 24)) + "d ago"
  }

  /** A timestamp in the future (clock skew) still reads "just now". */
  lemma FutureIsJustNow(now: int, timestamp: int)
    requires timestamp >= now
    ensures FormatTimeAgo(now, timestamp) == "just now"
  {
  }

  /** What a click on a notification does: the store after `markAsRead`, and
      the route navigated to, if any. */
  datatype ClickOutcome = ClickOutcome(store: NotificationStore.NotificationState, navigateTo: Option<string>)

  /** `handleNotificationClick`: always marks the notification read; navigates
      to the book only when the notification carries a non-empty book id. */
  function NotificationClick(s: NotificationStore.NotificationState, id: string, bookId: Option<string>): (r: ClickOutcome)
    ensures r.store == NotificationStore.MarkAsRead(s, id)
    ensures r.navigateTo.Some? <==> bookId.Some? && bookId.value != ""
    ensures r.navigateTo.Some? ==> r.navigateTo.value == "/book/" + bookId.value
  {
    var store := NotificationStore.MarkAsRead(s, id);
    if bookId.Some? && bookId.value != "" then ClickOutcome(store, Some("/book/" + bookId.value))
    else ClickOutcome(store, None)
  }

  /** A click leaves the store consistent and the clicked record read. */
  lemma ClickMarksRead(s: NotificationStore.NotificationState, id: string, bookId: Option<string>, i: nat)
    requires NotificationStore.Consistent(s)
    requires i < |s.notifications| && s.notifications[i].id == id
    ensures NotificationStore.Consistent(NotificationClick(s, id, bookId).store)
    ensures NotificationClick(s, id, bookId).store.notifications[i].read
  {
    NotificationStore.MarkAsReadPreservesConsistent(s, id);
  }

  /** The "N unread" line under the header. */
  function UnreadLine(unreadCount: nat): (r: Option<string>)
    ensures r.Some? <==> unreadCount > 0
    ensures r.Some? ==> r.value == Text.NatToString(unreadCount) + " unread"
  {
    if unreadCount > 0 then Some(Text.NatToString(unreadCount) + " unread") else None
  }

  /** In a consistent store the line shows exactly when some notification is
      unread. */
  lemma UnreadLineIffUnreadRecord(s: NotificationStore.NotificationState)
    requires NotificationStore.Consistent(s)
    ensures UnreadLine(s.unreadCount).Some? <==> exists i :: 0 <= i < |s.notifications| && !s.notifications[i].read
  {
    NotificationStore.CountZeroIffAllRead(s.notifications);
  }
}
