/** The dashboard's recent-books panel: the last five books added, newest
    first. */
module RecentBooks {
  import opened Types
  import BookStore

  const MaxRecent := 5

  /** `s.reverse()`. */
  function Reverse<T>(s: seq<T>): (r: seq<T>)
    ensures |r| == |s|
    ensures forall i :: 0 <= i < |s| ==> r[i] == s[|s| - 1 - i]
    decreases |s|
  {
    if s == [] then [] else Reverse(s[1..]) + [s[0]]
  }

  /** `books.slice(-5).reverse()`: a negative start counts from the end and
      is clamped at the front. */
  function Recent(books: seq<Book>): (r: seq<Book>)
    ensures |r| == if |books| < MaxRecent then |books| else MaxRecent
    ensures forall i :: 0 <= i < |r| ==> r[i] == books[|books| - 1 - i]
    ensures r == [] <==> books == []
  {
    var start := if |books| > MaxRecent then |books| - MaxRecent else 0;
    Reverse(books[start..])
  }

  /** What the panel shows: the empty state, or the recent books with a
      "View all" link when the collection holds more than five. */
  datatype Panel = EmptyState | Listed(recent: seq<Book>, viewAll: bool)

  function RecentPanel(books: seq<Book>): (p: Panel)
    ensures p.EmptyState? <==> books == []
    ensures p.Listed? ==> p.recent == Recent(books) && (p.viewAll <==> |books| > MaxRecent)
  {
    var recent := Recent(books);
    if |recent| == 0 then EmptyState else Listed(recent, |books| > MaxRecent)
  }

  /** A book just added heads the panel, followed by the previous recent
      books with the oldest of them dropped once the panel is full. */
  lemma AddedBookComesFirst(s: BookStore.BookCollection, book: Book)
    ensures Recent(BookStore.AddBook(s, book).books)[0] == book
    ensures var before := Recent(s.books);
      Recent(BookStore.AddBook(s, book).books)[1..] ==
        (if |before| == MaxRecent then before[..MaxRecent - 1] else before)
  {
    var books := BookStore.AddBook(s, book).books;
    assert books == s.books + [book];
    RecentAppend(s.books, book);
  }

  lemma RecentAppend(books: seq<Book>, book: Book)
    ensures Recent(books + [book])[0] == book
    ensures var before := Recent(books);
      Recent(books + [book])[1..] == (if |before| == MaxRecent then before[..MaxRecent - 1] else before)
  {
    var n := |books|;
    var all := books + [book];
    var before := Recent(books);
    var after := Recent(all);
    var expected := if |before| == MaxRecent then before[..MaxRecent - 1] else before;
    assert |after[1..]| == |expected|;
    forall i | 0 <= i < |expected| ensures after[1..][i] == expected[i] {
      assert after[i + 1] == all[n - 1 - i];
      assert expected[i] == before[i] == books[n - 1 - i];
    }
  }
}
