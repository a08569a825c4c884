/** The recommendations panel: collect the collection's categories and
    authors without duplicates, pick one search query, and show at most five
    results the user does not own yet. */
module Recommendations {
  import opened Wrappers
  import opened Types
  import Seqs
  import GoogleBooks

  /** `s.indexOf(x)`: the position of the first occurrence. */
  function IndexOf<T(==)>(s: seq<T>, x: T): (k: nat)
    requires x in s
    ensures k < |s| && s[k] == x && x !in s[..k]
    decreases |s|
  {
    if s[0] == x then 0
    else
      var k := IndexOf(s[1..], x);
      assert s[..k + 1] == [s[0]] + s[1..][..k];
      k + 1
  }

  /** A position holding `x` with no earlier `x` is `indexOf(x)`. */
  lemma IndexOfUnique<T>(s: seq<T>, x: T, k: nat)
    requires k < |s| && s[k] == x && x !in s[..k]
    ensures IndexOf(s, x) == k
  {
    var j := IndexOf(s, x);
  }

  /** Looking up an element of a prefix gives the same position in the
      whole sequence. */
  lemma IndexOfPrefix<T>(s: seq<T>, n: nat, x: T)
    requires n <= |s| && x in s[..n]
    ensures IndexOf(s, x) == IndexOf(s[..n], x)
  {
    var k := IndexOf(s[..n], x);
    assert s[..n][..k] == s[..k];
    IndexOfUnique(s, x, k);
  }

  /** `s.filter((x, i, self) => self.indexOf(x) === i)`: the first occurrence
      of every element, in the order of those first occurrences. */
  function Dedupe<T(==)>(s: seq<T>): (r: seq<T>)
    ensures Seqs.NoDuplicates(r)
    ensures forall i :: 0 <= i < |r| ==> r[i] in s
    ensures forall i :: 0 <= i < |s| ==> s[i] in r
    ensures forall i, j :: 0 <= i < j < |r| ==> IndexOf(s, r[i]) < IndexOf(s, r[j])
    decreases |s|
  {
    if s == [] then []
    else
      var n := |s| - 1;
      var init := Dedupe(s[..n]);
      var last := s[n];
      forall i | 0 <= i < |init| ensures init[i] in s && IndexOf(s, init[i]) == IndexOf(s[..n], init[i]) {
        IndexOfPrefix(s, n, init[i]);
      }
      forall i | 0 <= i < n ensures s[i] in init {
        assert s[i] == s[..n][i];
      }
      if last in s[..n] then
        init
      else
        IndexOfUnique(s, last, n);
        var r := init + [last];
        forall i, j | 0 <= i < j < |r| ensures r[i] != r[j] && IndexOf(s, r[i]) < IndexOf(s, r[j]) {
          if j == n {
          }
        }
        r
  }

  /** The first element survives deduplication at the front. */
  lemma DedupeHead<T>(s: seq<T>)
    ensures Dedupe(s) == [] <==> s == []
    ensures s != [] ==> Dedupe(s)[0] == s[0]
  {
    if s != [] {
      var r := Dedupe(s);
      assert s[0] in r;
      var k :| 0 <= k < |r| && r[k] == s[0];
      IndexOfUnique(s, s[0], 0);
    }
  }

  /** Extending the input by one element extends the result by it exactly
      when it has not occurred before. */
  lemma DedupeStep<T>(s: seq<T>, i: nat)
    requires i < |s|
    ensures Dedupe(s[..i + 1]) == if s[i] in s[..i] then Dedupe(s[..i]) else Dedupe(s[..i]) + [s[i]]
  {
    assert s[..i + 1][..i] == s[..i];
  }

  /** The same deduplication as a single pass with a set of seen elements;
      it agrees with `Dedupe`. */
  method DedupeBySeen<T(==)>(s: seq<T>) returns (r: seq<T>)
    ensures r == Dedupe(s)
  {
    r := [];
    var seen: set<T> := {};
    var i := 0;
    while i < |s|
      invariant 0 <= i <= |s|
      invariant r == Dedupe(s[..i])
      invariant seen == set k | 0 <= k < i :: s[k]
    {
      DedupeStep(s, i);
      assert s[i] in seen <==> s[i] in s[..i];
      if s[i] !in seen {
        r := r + [s[i]];
      }
      seen := seen + {s[i]};
      i := i + 1;
    }
    assert s[..|s|] == s;
  }

  /** The first element that deduplication keeps, if any: the input's first. */
  function FirstDistinct<T(==)>(s: seq<T>): (r: Option<T>)
    ensures r.None? <==> s == []
    ensures r.Some? ==> r.value == s[0]
  {
    DedupeHead(s);
    var d := Dedupe(s);
    if |d| > 0 then Some(d[0]) else None
  }

  /** `books.flatMap(book => book.categories || [])`. */
  function Categories(books: seq<Book>): (r: seq<string>)
    ensures forall c :: c in r <==> exists i :: 0 <= i < |books| && books[i].categories.Some? && c in books[i].categories.value
    ensures r == [] <==> forall i :: 0 <= i < |books| ==> books[i].categories.GetOr([]) == []
    decreases |books|
  {
    if books == [] then [] else books[0].categories.GetOr([]) + Categories(books[1..])
  }

  /** `books.flatMap(book => book.authors)`. */
  function Authors(books: seq<Book>): (r: seq<string>)
    ensures forall a :: a in r <==> exists i :: 0 <= i < |books| && a in books[i].authors
    ensures r == [] <==> forall i :: 0 <= i < |books| ==> books[i].authors == []
    decreases |books|
  {
    if books == [] then [] else books[0].authors + Authors(books[1..])
  }

  const Fallback := "bestseller"

  /** The search query: the first category if there is one, else the first
      author when it is not empty, else the fallback. An empty collection
      starts no search at all. */
  function ChooseQuery(books: seq<Book>): (q: Option<string>)
    ensures books == [] <==> q.None?
    ensures books != [] && Categories(books) != [] ==> q == Some(Categories(books)[0])
    ensures books != [] && Categories(books) == [] && Authors(books) != [] && Authors(books)[0] != "" ==>
      q == Some(Authors(books)[0])
    ensures books != [] && Categories(books) == [] && (Authors(books) == [] || Authors(books)[0] == "") ==>
      q == Some(Fallback)
  {
    if books == [] then None
    else
      match FirstDistinct(Categories(books))
      case Some(category) => Some(category)
      case None =>
        match FirstDistinct(Authors(books))
        case Some(author) => if author != "" then Some(author) else Some(Fallback)
        case None => Some(Fallback)
  }

  predicate Owns(books: seq<Book>, id: string) {
    exists i :: 0 <= i < |books| && books[i].id == id
  }

  function NotOwned(books: seq<Book>): Book -> bool {
    (b: Book) => !Owns(books, b.id)
  }

  const MaxShown := 5

  /** `results.filter(book => !bookIds.has(book.id)).slice(0, 5)`. */
  function SelectNew(books: seq<Book>, results: seq<Book>): (r: seq<Book>)
    ensures |r| <= MaxShown
    ensures forall i :: 0 <= i < |r| ==> !Owns(books, r[i].id)
    ensures var unowned := Seqs.Filter(results, NotOwned(books));
      |r| == (if |unowned| < MaxShown then |unowned| else MaxShown) && r == unowned[..|r|]
  {
    var unowned := Seqs.Filter(results, NotOwned(books));
    if |unowned| <= MaxShown then unowned else unowned[..MaxShown]
  }

  const LoadError := "Unable to load recommendations. Please try again later."

  datatype Panel = NotFetched | Shown(recommended: seq<Book>) | Failed(message: string)

  /** The effect of `fetchRecommendations`, given the response to its search. */
  function Recommend(books: seq<Book>, response: GoogleBooks.SearchResponse): (p: Panel)
    ensures books == [] <==> p.NotFetched?
    ensures p.Shown? ==> |p.recommended| <= MaxShown
    ensures p.Shown? ==> forall i :: 0 <= i < |p.recommended| ==> !Owns(books, p.recommended[i].id)
    ensures p.Failed? ==> p.message == LoadError
    ensures books != [] ==>
      (p.Failed? <==> GoogleBooks.SearchBooks(ChooseQuery(books).value, response).Failure?)
    ensures p.Shown? ==>
      p.recommended == SelectNew(books, GoogleBooks.SearchBooks(ChooseQuery(books).value, response).value)
  {
    match ChooseQuery(books)
    case None => NotFetched
    case Some(query) =>
      match GoogleBooks.SearchBooks(query, response)
      case Success(results) => Shown(SelectNew(books, results))
      case Failure(_) => Failed(LoadError)
  }
}
