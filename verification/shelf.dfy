/** The bookshelf page: books grouped by reading status into three sections,
    and the drag callbacks that move a book between sections. */
module Shelf {
  import opened Wrappers
  import opened Types
  import Seqs
  import BookStore

  function HasStatus(status: ReadingStatus): Book -> bool {
    (b: Book) => b.status == status
  }

  /** `books.filter(book => book.status === status)`: one section. */
  function Section(books: seq<Book>, status: ReadingStatus): (r: seq<Book>)
    ensures |r| <= |books|
    ensures forall i :: 0 <= i < |r| ==> r[i].status == status
  {
    Seqs.Filter(books, HasStatus(status))
  }

  datatype Grouping = Grouping(wantToRead: seq<Book>, currentlyReading: seq<Book>, read: seq<Book>) {
    function Get(status: ReadingStatus): seq<Book> {
      match status
      case WantToRead => wantToRead
      case CurrentlyReading => currentlyReading
      case Read => read
    }
  }

  /** `booksByStatus`. */
  function GroupByStatus(books: seq<Book>): (g: Grouping)
    ensures forall st :: g.Get(st) == Section(books, st)
  {
    Grouping(Section(books, WantToRead), Section(books, CurrentlyReading), Section(books, Read))
  }

  /** Every book lands in exactly the section of its status. */
  lemma GroupMembership(books: seq<Book>, b: Book, st: ReadingStatus)
    ensures b in GroupByStatus(books).Get(st) <==> b in books && b.status == st
  {
    Seqs.FilterMembership(books, HasStatus(st), b);
  }

  /** The three sections together hold as many books as the collection. */
  lemma {:induction false} GroupSizes(books: seq<Book>)
    ensures |Section(books, WantToRead)| + |Section(books, CurrentlyReading)| + |Section(books, Read)| == |books|
    decreases |books|
  {
    if books != [] {
      GroupSizes(books[1..]);
    }
  }

  /** Grouping keeps the collection's order inside each section: the section
      of a concatenation is the concatenation of the sections. */
  lemma GroupKeepsOrder(a: seq<Book>, b: seq<Book>, st: ReadingStatus)
    ensures GroupByStatus(a + b).Get(st) == GroupByStatus(a).Get(st) + GroupByStatus(b).Get(st)
  {
    Seqs.FilterConcat(a, b, HasStatus(st));
  }

  /** `handleDragStart`: the first book whose id is the dragged id, or none. */
  function DragStart(books: seq<Book>, activeId: string): (active: Option<Book>)
    ensures active.None? <==> !BookStore.HasBook(books, activeId)
    ensures active.Some? ==> active.value.id == activeId && active.value in books
    ensures active.Some? ==> exists k :: 0 <= k < |books| && books[k] == active.value
                                         && forall i :: 0 <= i < k ==> books[i].id != activeId
  {
    FindBook(books, activeId)
  }

  /** A command the page issues to the book store. */
  datatype StatusUpdate = StatusUpdate(bookId: string, status: ReadingStatus)

  /** What a drag end produces: at most one status update, and the cleared
      drag overlay. */
  datatype DragEndOutcome = DragEndOutcome(update: Option<StatusUpdate>, activeBook: Option<Book>)

  /** `handleDragEnd`. Sections are the only drop targets, and their ids are
      the status values, so a target is a status; the guard compares the
      dragged book's id with the target's id, not with the book's status. */
  function DragEnd(activeId: string, over: Option<ReadingStatus>): (r: DragEndOutcome)
    ensures r.activeBook.None?
    ensures over.None? ==> r.update.None?
    ensures r.update.Some? <==> over.Some? && activeId != StatusValue(over.value)
    ensures r.update.Some? ==> r.update.value == StatusUpdate(activeId, over.value)
  {
    if over.Some? && activeId != StatusValue(over.value) then
      DragEndOutcome(Some(StatusUpdate(activeId, over.value)), None)
    else
      DragEndOutcome(None, None)
  }

  /** The store after the drag end's command, if any, has run. */
  function ApplyDragEnd(s: BookStore.BookCollection, activeId: string, over: Option<ReadingStatus>): (r: BookStore.BookCollection)
    ensures r.searchResults == s.searchResults
    ensures |r.books| == |s.books|
    ensures forall i :: 0 <= i < |s.books| ==> r.books[i].(status := s.books[i].status) == s.books[i]
    ensures forall i :: 0 <= i < |s.books| ==>
      r.books[i].status ==
        if over.Some? && activeId != StatusValue(over.value) && s.books[i].id == activeId
        then over.value else s.books[i].status
  {
    match DragEnd(activeId, over).update
    case None => s
    case Some(u) => BookStore.UpdateBookStatus(s, u.bookId, u.status)
  }

  /** A release over the book's own section still issues the update, but the
      collection does not change. */
  lemma DropOnOwnSectionKeepsBooks(s: BookStore.BookCollection, activeId: string, target: ReadingStatus)
    requires forall i :: 0 <= i < |s.books| && s.books[i].id == activeId ==> s.books[i].status == target
    ensures ApplyDragEnd(s, activeId, Some(target)) == s
  {
    BookStore.UpdateToCurrentIsIdentity(s, activeId, target);
  }

  /** A drop on another section moves the dragged book there. */
  lemma DropMovesBook(s: BookStore.BookCollection, activeId: string, target: ReadingStatus)
    requires BookStore.HasBook(s.books, activeId)
    requires activeId != StatusValue(target)
    ensures DragStart(ApplyDragEnd(s, activeId, Some(target)).books, activeId).value.status == target
    ensures |GroupByStatus(ApplyDragEnd(s, activeId, Some(target)).books).Get(target)| >= 1
  {
    var r := ApplyDragEnd(s, activeId, Some(target));
    BookStore.UpdateThenFind(s, activeId, target);
    var b := DragStart(r.books, activeId).value;
    GroupMembership(r.books, b, target);
  }

  /** Picking a book up again after dropping it on another section finds
      the same book, now carrying the target status. */
  lemma DragThenDrop(s: BookStore.BookCollection, activeId: string, target: ReadingStatus)
    requires DragStart(s.books, activeId).Some?
    requires activeId != StatusValue(target)
    ensures DragStart(ApplyDragEnd(s, activeId, Some(target)).books, activeId) ==
      Some(DragStart(s.books, activeId).value.(status := target))
  {
    var r := ApplyDragEnd(s, activeId, Some(target));
    var k :| 0 <= k < |s.books| && s.books[k] == DragStart(s.books, activeId).value
             && forall i :: 0 <= i < k ==> s.books[i].id != activeId;
    assert r.books[k] == s.books[k].(status := target);
    assert forall i :: 0 <= i < k ==> r.books[i].id == s.books[i].id;
    FindBookAt(r.books, activeId, k);
  }
}
