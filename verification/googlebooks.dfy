/** The Google Books client without its network: the blank-query guard, the
    classification of HTTP statuses, and the normalisation of a volume into a
    `Book`. The HTTP response is a parameter standing for what `fetch`
    returned. */
module GoogleBooks {
  import opened Wrappers
  import opened Types
  import Text

  datatype ImageLinks = ImageLinks(thumbnail: Option<string>, smallThumbnail: Option<string>)

  datatype VolumeInfo = VolumeInfo(
    title: Option<string>,
    authors: Option<seq<string>>,
    description: Option<string>,
    publishedDate: Option<string>,
    pageCount: Option<int>,
    categories: Option<seq<string>>,
    imageLinks: Option<ImageLinks>)

  datatype Volume = Volume(id: string, volumeInfo: VolumeInfo)

  /** A search response: the status line and the optional `items` array. */
  datatype SearchResponse = SearchResponse(status: nat, statusText: string, items: Option<seq<Volume>>)

  /** A single-volume response. */
  datatype VolumeResponse = VolumeResponse(status: nat, statusText: string, item: Volume)

  const UnknownTitle := "Unknown Title"
  const UnknownAuthor := "Unknown Author"
  const NoDescription := "No description available."
  const PlaceholderThumbnail := "/placeholder-book.png"

  /** JavaScript's `s || fallback` for an optional string: a missing and an
      empty string are both falsy. */
  function StringOr(s: Option<string>, fallback: string): (r: string)
    ensures s.Some? && s.value != "" ==> r == s.value
    ensures s.None? || s.value == "" ==> r == fallback
  {
    if s.Some? && s.value != "" then s.value else fallback
  }

  /** `imageLinks?.thumbnail || imageLinks?.smallThumbnail || placeholder`. */
  function Thumbnail(links: Option<ImageLinks>): (r: string)
    ensures r != ""
    ensures links.None? ==> r == PlaceholderThumbnail
    ensures links.Some? && links.value.thumbnail.Some? && links.value.thumbnail.value != "" ==>
      r == links.value.thumbnail.value
    ensures links.Some? && (links.value.thumbnail.None? || links.value.thumbnail.value == "") ==>
      r == StringOr(links.value.smallThumbnail, PlaceholderThumbnail)
  {
    match links
    case None => PlaceholderThumbnail
    case Some(l) => StringOr(l.thumbnail, StringOr(l.smallThumbnail, PlaceholderThumbnail))
  }

  /** The mapping from a volume to a `Book`, shared by search and lookup. */
  function ToBook(v: Volume): (b: Book)
    ensures b.id == v.id
    ensures b.title != [] && b.description != [] && b.thumbnail != []
    ensures b.title == StringOr(v.volumeInfo.title, UnknownTitle)
    ensures v.volumeInfo.authors.Some? ==> b.authors == v.volumeInfo.authors.value
    ensures v.volumeInfo.authors.None? ==> b.authors == [UnknownAuthor]
    ensures b.description == StringOr(v.volumeInfo.description, NoDescription)
    ensures b.publishedDate == v.volumeInfo.publishedDate
    ensures b.pageCount == v.volumeInfo.pageCount
    ensures b.categories == v.volumeInfo.categories
    ensures b.status == WantToRead
  {
    var info := v.volumeInfo;
    Book(v.id,
         StringOr(info.title, UnknownTitle),
         info.authors.GetOr([UnknownAuthor]),
         StringOr(info.description, NoDescription),
         Thumbnail(info.imageLinks),
         info.publishedDate,
         info.pageCount,
         info.categories,
         WantToRead)
  }

  /** `data.items.map(...)`, with a missing or empty `items` giving []. */
  function ToBooks(items: Option<seq<Volume>>): (r: seq<Book>)
    ensures items.None? ==> r == []
    ensures items.Some? ==> |r| == |items.value|
    ensures items.Some? ==> forall i :: 0 <= i < |r| ==> r[i] == ToBook(items.value[i])
    ensures forall i :: 0 <= i < |r| ==> r[i].status == WantToRead
  {
    match items
    case None => []
    case Some(vs) => seq(|vs|, i requires 0 <= i < |vs| => ToBook(vs[i]))
  }

  /** `response.ok`. */
  predicate IsOk(status: nat) {
    200 <= status <= 299
  }

  datatype SearchError = RateLimited | ApiError(status: nat, statusText: string)

  /** What the thrown error says before `searchBooks` wraps it. */
  function ErrorDetail(e: SearchError): string {
    match e
    case RateLimited => "Rate limit exceeded. Please try again later."
    case ApiError(status, text) => "API error: " + Text.NatToString(status) + " " + text
  }

  /** The message `searchBooks` rethrows. */
  function SearchErrorMessage(e: SearchError): string {
    "Failed to search books: " + ErrorDetail(e)
  }

  /** `searchBooks(query)`, given the response the request would get. */
  function SearchBooks(query: string, response: SearchResponse): (r: Result<seq<Book>, SearchError>)
    ensures Text.IsBlank(query) ==> r == Success([])
    ensures !Text.IsBlank(query) ==>
      && (response.status == 429 <==> r == Failure(RateLimited))
      && (r.Failure? <==> !IsOk(response.status))
      && (r.Success? ==> r.value == ToBooks(response.items))
  {
    if Text.Trim(query) == [] then Success([])
    else if response.status == 429 then Failure(RateLimited)
    else if !IsOk(response.status) then Failure(ApiError(response.status, response.statusText))
    else Success(ToBooks(response.items))
  }

  /** A blank query is answered before any request: the response has no
      influence on the result. */
  lemma BlankQueryMakesNoRequest(query: string, r1: SearchResponse, r2: SearchResponse)
    requires Text.IsBlank(query)
    ensures SearchBooks(query, r1) == SearchBooks(query, r2) == Success([])
  {
  }

  /** The rate-limit message differs from every other error message. */
  lemma RateLimitMessageDistinct(status: nat, text: string)
    ensures SearchErrorMessage(RateLimited) != SearchErrorMessage(ApiError(status, text))
  {
    var prefix := "Failed to search books: ";
    var rate := ErrorDetail(RateLimited);
    var api := ErrorDetail(ApiError(status, text));
    assert rate == "Rate limit exceeded. Please try again later.";
    assert rate[0] == 'R';
    assert api[0] == 'A';
    assert (prefix + rate)[|prefix|] == rate[0];
    assert (prefix + api)[|prefix|] == api[0];
  }

  datatype LookupError = IdRequired | LookupApiError(status: nat, statusText: string)

  /** `getBookById(bookId)`, given the response the request would get; it
      has no rate-limit branch of its own. */
  function GetBookById(bookId: string, response: VolumeResponse): (r: Result<Book, LookupError>)
    ensures bookId == "" ==> r == Failure(IdRequired)
    ensures bookId != "" && !IsOk(response.status) ==>
      r == Failure(LookupApiError(response.status, response.statusText))
    ensures bookId != "" && IsOk(response.status) ==> r == Success(ToBook(response.item))
  {
    if bookId == "" then Failure(IdRequired)
    else if !IsOk(response.status) then Failure(LookupApiError(response.status, response.statusText))
    else Success(ToBook(response.item))
  }

  /** The search query `getRecommendations` builds. */
  function RecommendationQuery(query: string): (q: string)
    ensures |q| == |query| + 8 && q[..8] == "subject:" && q[8..] == query
  {
    "subject:" + query
  }

  /** `getRecommendations(query)`: the search for the subject, with the
      search's error classification. */
  function GetRecommendations(query: string, response: SearchResponse): (r: Result<seq<Book>, SearchError>)
    ensures r.Success? <==> IsOk(response.status)
    ensures r == Failure(RateLimited) <==> response.status == 429
    ensures r.Success? ==> r.value == ToBooks(response.items)
  {
    RecommendationsNotBlank(query);
    SearchBooks(RecommendationQuery(query), response)
  }

  /** The prefix is never blank, so a recommendation search always goes out,
      even for an empty subject. */
  lemma RecommendationsNotBlank(query: string)
    ensures !Text.IsBlank(RecommendationQuery(query))
  {
    assert RecommendationQuery(query)[0] == 's';
  }

  /** An empty id is refused before any request: the response has no
      influence on the result. */
  lemma EmptyIdMakesNoRequest(r1: VolumeResponse, r2: VolumeResponse)
    ensures GetBookById("", r1) == GetBookById("", r2) == Failure(IdRequired)
  {
  }
}
