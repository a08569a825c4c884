/** The book details page: the book looked up by route id, the status button
    that cycles the reading status, and the relative-date formatter. */
module BookDetails {
  import opened Wrappers
  import opened Types
  import Text
  import BookStore

  /** The status the button moves to. */
  function NextStatus(s: ReadingStatus): (r: ReadingStatus)
    ensures r != s
  {
    match s
    case WantToRead => CurrentlyReading
    case CurrentlyReading => Read
    case Read => WantToRead
  }

  /** Three presses bring a book back to where it was, and no status is
      skipped: `NextStatus` is a single 3-cycle. */
  lemma NextStatusCycle(s: ReadingStatus)
    ensures NextStatus(NextStatus(NextStatus(s))) == s
    ensures NextStatus(NextStatus(s)) != s
  {
  }

  lemma NextStatusInjective(a: ReadingStatus, b: ReadingStatus)
    ensures NextStatus(a) == NextStatus(b) ==> a == b
  {
  }

  /** The button caption for the book's current status: it names the step
      the press takes. */
  function ButtonLabel(s: ReadingStatus): (r: string)
    ensures r == "Start Reading" <==> NextStatus(s) == CurrentlyReading
    ensures r == "Mark as Read" <==> NextStatus(s) == Read
    ensures r == "Read Again" <==> NextStatus(s) == WantToRead
  {
    match s
    case WantToRead => "Start Reading"
    case CurrentlyReading => "Mark as Read"
    case Read => "Read Again"
  }

  /** Each status has its own caption. */
  lemma ButtonLabelInjective(a: ReadingStatus, b: ReadingStatus)
    ensures ButtonLabel(a) == ButtonLabel(b) <==> a == b
  {
    if a != b {
      assert ButtonLabel(a)[0] != ButtonLabel(b)[0];
    }
  }

  /** `handleStatusChange` from the button: the displayed book (the first in
      the collection with the route id) with the next status. A route id with
      no book renders "Book Not Found", shows no button and changes nothing. */
  function PressStatusButton(s: BookStore.BookCollection, routeId: string): (r: BookStore.BookCollection)
    ensures FindBook(s.books, routeId).None? ==> r == s
    ensures FindBook(s.books, routeId).Some? ==>
      r == BookStore.UpdateBookStatus(s, routeId, NextStatus(FindBook(s.books, routeId).value.status))
  {
    match FindBook(s.books, routeId)
    case None => s
    case Some(book) => BookStore.UpdateBookStatus(s, book.id, NextStatus(book.status))
  }

  /** After the press, the page shows the next status. */
  lemma PressAdvancesStatus(s: BookStore.BookCollection, routeId: string)
    requires FindBook(s.books, routeId).Some?
    ensures FindBook(PressStatusButton(s, routeId).books, routeId).Some?
    ensures FindBook(PressStatusButton(s, routeId).books, routeId).value.status ==
            NextStatus(FindBook(s.books, routeId).value.status)
  {
    BookStore.UpdateThenFind(s, routeId, NextStatus(FindBook(s.books, routeId).value.status));
  }

  /** The unit's plural ending, used exactly when the count shown is two or
      more. */
  function Plural(count: nat, unit: string): string {
    unit + (if count >= 2 then "s" else "")
  }

  /** JavaScript's `n || fallback` for a count: zero is falsy. */
  function NumberOr(n: nat, fallback: string): string {
    if n != 0 then Text.NatToString(n) else fallback
  }

  /** `formatDate`, given the whole number of days between the date and now
      (`Math.ceil` of the absolute difference, so never negative). Its three
      bands, stated by the number shown. */
  function FormatDate(diffDays: nat): (r: string)
    ensures diffDays < 30 ==> r == "Less than a month ago"
    ensures 30 <= diffDays < 365 ==>
      r == Text.NatToString(diffDays / 30) + " " + Plural(diffDays / 30, "month") + " ago"
    ensures 365 <= diffDays ==>
      r == Text.NatToString(diffDays / 365) + " " + Plural(diffDays / 365, "year") + " ago"
  {
    if diffDays < 30 then
      NumberOr(diffDays / 30, "Less than a")
      + " month" + (if diffDays >= 60 then "s" else "") + " ago"
    else if diffDays < 365 then
      Text.NatToString(diffDays / 30) + " month" + (if diffDays >= 60 then "s" else "") + " ago"
    else
      Text.NatToString(diffDays / 365) + " year" + (if diffDays >= 730 then "s" else "") + " ago"
  }

  /** The number in a months or years label reads back as the whole months
      (30 days) or years (365 days) elapsed, and it is at least one. */
  lemma FormatDateCount(d: nat)
    requires d >= 30
    ensures var n := if d < 365 then d / 30 else d / 365;
      && n >= 1
      && Text.IsDigits(Text.NatToString(n))
      && Text.DecimalValue(Text.NatToString(n)) == n
  {
    Text.DecimalRoundTrip(if d < 365 then d / 30 else d / 365);
  }
}
