/** The book collection store: the tracked books in insertion order, plus a
    scratch list of search results. */
module BookStore {
  import opened Types
  import Seqs

  datatype BookCollection = BookCollection(books: seq<Book>, searchResults: seq<Book>)

  const Initial := BookCollection([], [])

  predicate HasBook(books: seq<Book>, id: string) {
    exists i :: 0 <= i < |books| && books[i].id == id
  }

  /** `addBook`: the book goes at the end; an id already present is not
      checked, so the collection can hold it twice. */
  function AddBook(s: BookCollection, book: Book): (r: BookCollection)
    ensures |r.books| == |s.books| + 1
    ensures r.books[..|s.books|] == s.books && r.books[|s.books|] == book
    ensures r.searchResults == s.searchResults
  {
    s.(books := s.books + [book])
  }

  function NotBook(id: string): Book -> bool {
    (b: Book) => b.id != id
  }

  /** `removeBook`: every book with the id goes; the rest keep their order. */
  function RemoveBook(s: BookCollection, id: string): (r: BookCollection)
    ensures !HasBook(r.books, id)
    ensures forall b :: b in r.books <==> b in s.books && b.id != id
    ensures r.books == Seqs.Filter(s.books, NotBook(id))
    ensures !HasBook(s.books, id) ==> r == s
    ensures r.searchResults == s.searchResults
  {
    var kept := Seqs.Filter(s.books, NotBook(id));
    forall b ensures b in kept <==> b in s.books && b.id != id {
      Seqs.FilterMembership(s.books, NotBook(id), b);
    }
    if !HasBook(s.books, id) then
      Seqs.FilterKeepsAll(s.books, NotBook(id));
      s
    else
      s.(books := kept)
  }

  /** `updateBookStatus`: every book with the id takes the new status; no
      other field and no other book changes. */
  function UpdateBookStatus(s: BookCollection, id: string, status: ReadingStatus): (r: BookCollection)
    ensures |r.books| == |s.books|
    ensures forall i :: 0 <= i < |s.books| ==> r.books[i].(status := s.books[i].status) == s.books[i]
    ensures forall i :: 0 <= i < |s.books| ==>
      r.books[i].status == if s.books[i].id == id then status else s.books[i].status
    ensures r.searchResults == s.searchResults
  {
    var bs := s.books;
    s.(books := seq(|bs|, i requires 0 <= i < |bs| => if bs[i].id == id then bs[i].(status := status) else bs[i]))
  }

  /** `setSearchResults`: replaces the scratch list only. */
  function SetSearchResults(s: BookCollection, results: seq<Book>): (r: BookCollection)
    ensures r.books == s.books && r.searchResults == results
  {
    s.(searchResults := results)
  }

  /** `clearSearchResults`: empties the scratch list only. */
  function ClearSearchResults(s: BookCollection): (r: BookCollection)
    ensures r.books == s.books && r.searchResults == []
  {
    s.(searchResults := [])
  }

  /** Applying the same status update twice is the same as once. */
  lemma UpdateIdempotent(s: BookCollection, id: string, status: ReadingStatus)
    ensures UpdateBookStatus(UpdateBookStatus(s, id, status), id, status) == UpdateBookStatus(s, id, status)
  {
    var once := UpdateBookStatus(s, id, status);
    var twice := UpdateBookStatus(once, id, status);
    forall i | 0 <= i < |s.books| ensures twice.books[i] == once.books[i] {
    }
  }

  /** Setting the status every book with the id already has changes nothing;
      in particular an absent id changes nothing. */
  lemma UpdateToCurrentIsIdentity(s: BookCollection, id: string, status: ReadingStatus)
    requires forall i :: 0 <= i < |s.books| && s.books[i].id == id ==> s.books[i].status == status
    ensures UpdateBookStatus(s, id, status) == s
  {
    var r := UpdateBookStatus(s, id, status);
    forall i | 0 <= i < |s.books| ensures r.books[i] == s.books[i] {
    }
  }

  lemma UpdateAbsentIsIdentity(s: BookCollection, id: string, status: ReadingStatus)
    requires !HasBook(s.books, id)
    ensures UpdateBookStatus(s, id, status) == s
  {
    UpdateToCurrentIsIdentity(s, id, status);
  }

  /** After an update, looking the id up finds a book with the new status. */
  lemma UpdateThenFind(s: BookCollection, id: string, status: ReadingStatus)
    requires HasBook(s.books, id)
    ensures FindBook(UpdateBookStatus(s, id, status).books, id).Some?
    ensures FindBook(UpdateBookStatus(s, id, status).books, id).value.status == status
  {
    var r := UpdateBookStatus(s, id, status);
    var k :| 0 <= k < |s.books| && s.books[k].id == id;
    assert r.books[k].id == id;
  }
}
