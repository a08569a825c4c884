/** The storage schemas as parsers over JSON values. An object schema reads
    the keys it names and ignores any others; a required key must be present
    with a value of the right shape; an optional key may be absent, but when
    present its value must have the right shape (JSON `null` is not
    "absent"). Numbers are integers here. */
module Schemas {
  import opened Wrappers
  import opened Types
  import BookStore
  import UserStore
  import Text

  datatype Json =
    | JNull
    | JBool(flag: bool)
    | JNumber(num: int)
    | JString(str: string)
    | JArray(items: seq<Json>)
    | JObject(fields: map<string, Json>)

  // ---- Primitive schemas ----

  function ParseString(j: Json): (r: Option<string>)
    ensures r.Some? <==> j.JString?
    ensures r.Some? ==> r.value == j.str
  {
    if j.JString? then Some(j.str) else None
  }

  function ParseNumber(j: Json): (r: Option<int>)
    ensures r.Some? <==> j.JNumber?
    ensures r.Some? ==> r.value == j.num
  {
    if j.JNumber? then Some(j.num) else None
  }

  function ParseBool(j: Json): (r: Option<bool>)
    ensures r.Some? <==> j.JBool?
    ensures r.Some? ==> r.value == j.flag
  {
    if j.JBool? then Some(j.flag) else None
  }

  /** `z.array(item)`: every element must parse; the results keep their
      positions. */
  function ParseArray<T>(items: seq<Json>, parse: Json -> Option<T>): (r: Option<seq<T>>)
    ensures r.Some? <==> forall i :: 0 <= i < |items| ==> parse(items[i]).Some?
    ensures r.Some? ==> |r.value| == |items|
    ensures r.Some? ==> forall i :: 0 <= i < |items| ==> parse(items[i]) == Some(r.value[i])
    decreases |items|
  {
    if items == [] then Some([])
    else
      match parse(items[0])
      case None => None
      case Some(x) =>
        match ParseArray(items[1..], parse)
        case None =>
          assert exists i :: 0 <= i < |items[1..]| && parse(items[1..][i]).None?;
          None
        case Some(xs) =>
          assert forall i :: 1 <= i < |items| ==> items[i] == items[1..][i - 1];
          Some([x] + xs)
  }

  function ParseArrayOf<T>(j: Json, parse: Json -> Option<T>): (r: Option<seq<T>>)
    ensures r.Some? <==> j.JArray? && forall i :: 0 <= i < |j.items| ==> parse(j.items[i]).Some?
    ensures r.Some? ==> |r.value| == |j.items|
    ensures r.Some? ==> forall i :: 0 <= i < |j.items| ==> parse(j.items[i]) == Some(r.value[i])
  {
    if j.JArray? then ParseArray(j.items, parse) else None
  }

  /** `z.array(z.string())`. */
  function ParseStrings(j: Json): (r: Option<seq<string>>)
    ensures r.Some? <==> j.JArray? && forall i :: 0 <= i < |j.items| ==> j.items[i].JString?
    ensures r.Some? ==> j == EncodeStrings(r.value)
  {
    var r := ParseArrayOf(j, ParseString);
    if r.Some? then
      assert j.items == EncodeStrings(r.value).items;
      r
    else r
  }

  function EncodeArray<T>(xs: seq<T>, encode: T -> Json): (r: Json)
    ensures r.JArray? && |r.items| == |xs|
    ensures forall i :: 0 <= i < |xs| ==> r.items[i] == encode(xs[i])
  {
    JArray(seq(|xs|, i requires 0 <= i < |xs| => encode(xs[i])))
  }

  /** An array of encoded elements parses back to the elements when each
      element does. */
  lemma ArrayRoundTrip<T>(xs: seq<T>, encode: T -> Json, parse: Json -> Option<T>)
    requires forall i :: 0 <= i < |xs| ==> parse(encode(xs[i])) == Some(xs[i])
    ensures ParseArrayOf(EncodeArray(xs, encode), parse) == Some(xs)
  {
    var r := ParseArrayOf(EncodeArray(xs, encode), parse);
    assert r.Some?;
    assert r.value == xs;
  }

  /** A required key: present, and its value parses. */
  function Required<T>(fields: map<string, Json>, key: string, parse: Json -> Option<T>): (r: Option<T>)
    ensures r.Some? ==> key in fields && parse(fields[key]) == r
    ensures key in fields ==> r == parse(fields[key])
  {
    if key in fields then parse(fields[key]) else None
  }

  /** `.optional()`: an absent key gives `Some(None)`; a present key must
      parse. `None` means the object is rejected. */
  function Optional<T>(fields: map<string, Json>, key: string, parse: Json -> Option<T>): (r: Option<Option<T>>)
    ensures key !in fields ==> r == Some(None)
    ensures key in fields ==> (r.Some? <==> parse(fields[key]).Some?)
    ensures key in fields && r.Some? ==> r.value == parse(fields[key])
  {
    if key !in fields then Some(None)
    else
      match parse(fields[key])
      case None => None
      case Some(v) => Some(Some(v))
  }

  /** The object to encode an optional value into: the key is left out for
      a missing value. */
  function WithOptional<T>(fields: map<string, Json>, key: string, value: Option<T>, encode: T -> Json): map<string, Json> {
    if value.Some? then fields[key := encode(value.value)] else fields
  }

  // ---- ReadingStatusSchema ----

  function ParseStatus(j: Json): (r: Option<ReadingStatus>)
    ensures r.Some? <==> j.JString? && j.str in {"want-to-read", "currently-reading", "read"}
    ensures r.Some? ==> j == EncodeStatus(r.value)
  {
    if j == JString("want-to-read") then Some(WantToRead)
    else if j == JString("currently-reading") then Some(CurrentlyReading)
    else if j == JString("read") then Some(Read)
    else None
  }

  function EncodeStatus(s: ReadingStatus): Json {
    JString(StatusValue(s))
  }

  /** The status schema accepts exactly the enum's string values, and each
      string denotes the status that carries it. */
  lemma StatusSchemaMatchesEnum(s: ReadingStatus, x: string)
    ensures ParseStatus(EncodeStatus(s)) == Some(s)
    ensures ParseStatus(JString(x)) == Some(s) <==> x == StatusValue(s)
  {
  }

  // ---- BookSchema ----

  const BookKeys: set<string> :=
    {"id", "title", "authors", "description", "thumbnail", "publishedDate", "pageCount", "categories", "status"}

  function ParseBook(j: Json): (r: Option<Book>)
    ensures r.Some? ==> j.JObject?
    ensures r.Some? ==> forall key :: key in {"id", "title", "authors", "description", "thumbnail", "status"} ==> key in j.fields
    ensures r.Some? && "publishedDate" !in j.fields ==> r.value.publishedDate.None?
    ensures r.Some? && "pageCount" !in j.fields ==> r.value.pageCount.None?
    ensures r.Some? && "categories" !in j.fields ==> r.value.categories.None?
    ensures r.Some? ==>
      && j.fields["id"] == JString(r.value.id)
      && j.fields["title"] == JString(r.value.title)
      && j.fields["authors"] == EncodeStrings(r.value.authors)
      && j.fields["description"] == JString(r.value.description)
      && j.fields["thumbnail"] == JString(r.value.thumbnail)
      && j.fields["status"] == EncodeStatus(r.value.status)
    ensures r.Some? ==>
      && ("publishedDate" in j.fields <==> r.value.publishedDate.Some?)
      && (r.value.publishedDate.Some? ==> j.fields["publishedDate"] == JString(r.value.publishedDate.value))
      && ("pageCount" in j.fields <==> r.value.pageCount.Some?)
      && (r.value.pageCount.Some? ==> j.fields["pageCount"] == JNumber(r.value.pageCount.value))
      && ("categories" in j.fields <==> r.value.categories.Some?)
      && (r.value.categories.Some? ==> j.fields["categories"] == EncodeStrings(r.value.categories.value))
  {
    if !j.JObject? then None
    else
      var f := j.fields;
      var id := Required(f, "id", ParseString);
      var title := Required(f, "title", ParseString);
      var authors := Required(f, "authors", ParseStrings);
      var description := Required(f, "description", ParseString);
      var thumbnail := Required(f, "thumbnail", ParseString);
      var publishedDate := Optional(f, "publishedDate", ParseString);
      var pageCount := Optional(f, "pageCount", ParseNumber);
      var categories := Optional(f, "categories", ParseStrings);
      var status := Required(f, "status", ParseStatus);
      if id.Some? && title.Some? && authors.Some? && description.Some? && thumbnail.Some?
         && publishedDate.Some? && pageCount.Some? && categories.Some? && status.Some?
      then
        Some(Book(id.value, title.value, authors.value, description.value, thumbnail.value,
                  publishedDate.value, pageCount.value, categories.value, status.value))
      else None
  }

  function EncodeStrings(xs: seq<string>): Json {
    EncodeArray(xs, s => JString(s))
  }

  function EncodeBook(b: Book): (j: Json)
    ensures j.JObject?
  {
    var required := map[
      "id" := JString(b.id),
      "title" := JString(b.title),
      "authors" := EncodeStrings(b.authors),
      "description" := JString(b.description),
      "thumbnail" := JString(b.thumbnail),
      "status" := EncodeStatus(b.status)];
    var withDate := WithOptional(required, "publishedDate", b.publishedDate, s => JString(s));
    var withPages := WithOptional(withDate, "pageCount", b.pageCount, n => JNumber(n));
    JObject(WithOptional(withPages, "categories", b.categories, EncodeStrings))
  }

  lemma StringsRoundTrip(xs: seq<string>)
    ensures ParseStrings(EncodeStrings(xs)) == Some(xs)
  {
    ArrayRoundTrip(xs, s => JString(s), ParseString);
  }

  /** Every book, stored and read back, is the same book; absent optional
      fields stay absent. */
  lemma BookRoundTrip(b: Book)
    ensures ParseBook(EncodeBook(b)) == Some(b)
  {
    var f := EncodeBook(b).fields;
    EncodedBookFields(b);
    StringsRoundTrip(b.authors);
    assert Required(f, "id", ParseString) == Some(b.id);
    assert Required(f, "title", ParseString) == Some(b.title);
    assert Required(f, "authors", ParseStrings) == Some(b.authors);
    assert Required(f, "description", ParseString) == Some(b.description);
    assert Required(f, "thumbnail", ParseString) == Some(b.thumbnail);
    assert Required(f, "status", ParseStatus) == Some(b.status);
    assert Optional(f, "publishedDate", ParseString) == Some(b.publishedDate);
    assert Optional(f, "pageCount", ParseNumber) == Some(b.pageCount);
    if b.categories.Some? {
      StringsRoundTrip(b.categories.value);
    }
    assert Optional(f, "categories", ParseStrings) == Some(b.categories);
  }

  /** Where each field of a book lands in its encoding. */
  lemma EncodedBookFields(b: Book)
    ensures var f := EncodeBook(b).fields;
      && "id" in f && f["id"] == JString(b.id)
      && "title" in f && f["title"] == JString(b.title)
      && "authors" in f && f["authors"] == EncodeStrings(b.authors)
      && "description" in f && f["description"] == JString(b.description)
      && "thumbnail" in f && f["thumbnail"] == JString(b.thumbnail)
      && "status" in f && f["status"] == EncodeStatus(b.status)
      && ("publishedDate" in f <==> b.publishedDate.Some?)
      && (b.publishedDate.Some? ==> f["publishedDate"] == JString(b.publishedDate.value))
      && ("pageCount" in f <==> b.pageCount.Some?)
      && (b.pageCount.Some? ==> f["pageCount"] == JNumber(b.pageCount.value))
      && ("categories" in f <==> b.categories.Some?)
      && (b.categories.Some? ==> f["categories"] == EncodeStrings(b.categories.value))
  {
  }

  /** The keys of an object the schema accepted, other keys dropped, are
      exactly the stored form of the book it reads as. */
  lemma ParsedBookEncodes(j: Json)
    requires ParseBook(j).Some?
    ensures EncodeBook(ParseBook(j).value).fields == map k | k in j.fields && k in BookKeys :: j.fields[k]
  {
    var b := ParseBook(j).value;
    var e := EncodeBook(b).fields;
    var m := map k | k in j.fields && k in BookKeys :: j.fields[k];
    EncodedBookFields(b);
    assert forall k :: k in e ==> k in BookKeys;
    assert e.Keys == m.Keys;
  }

  /** Keys the book schema does not name are ignored. */
  lemma BookIgnoresUnknownKeys(fields: map<string, Json>, key: string, value: Json)
    requires key !in BookKeys
    ensures ParseBook(JObject(fields[key := value])) == ParseBook(JObject(fields))
  {
    var g := fields[key := value];
    forall k | k in BookKeys ensures (k in g <==> k in fields) && (k in g ==> g[k] == fields[k]) {
    }
  }

  /** A book with no authors is valid. */
  lemma EmptyAuthorsAccepted(b: Book)
    requires b.authors == []
    ensures ParseBook(EncodeBook(b)).Some?
  {
    BookRoundTrip(b);
  }

  // ---- UserSchema ----

  const MinUsernameLength := 3

  function ParseUser(j: Json): (r: Option<User>)
    ensures r.Some? ==> |r.value.username| >= MinUsernameLength
    ensures r.Some? ==> j.JObject? && forall key :: key in {"id", "username", "createdAt"} ==> key in j.fields
    ensures r.Some? ==>
      && j.fields["id"] == JString(r.value.id)
      && j.fields["username"] == JString(r.value.username)
      && j.fields["createdAt"] == JString(r.value.createdAt)
  {
    if !j.JObject? then None
    else
      var f := j.fields;
      var id := Required(f, "id", ParseString);
      var username := Required(f, "username", ParseString);
      var createdAt := Required(f, "createdAt", ParseString);
      if id.Some? && username.Some? && |username.value| >= MinUsernameLength && createdAt.Some?
      then Some(User(id.value, username.value, createdAt.value))
      else None
  }

  function EncodeUser(u: User): Json {
    JObject(map["id" := JString(u.id), "username" := JString(u.username), "createdAt" := JString(u.createdAt)])
  }

  /** A stored user reads back exactly when the username has at least three
      characters. */
  lemma UserRoundTrip(u: User)
    ensures ParseUser(EncodeUser(u)).Some? <==> |u.username| >= MinUsernameLength
    ensures ParseUser(EncodeUser(u)).Some? ==> ParseUser(EncodeUser(u)).value == u
  {
  }

  // ---- CommentSchema and FeedPostSchema ----

  const CommentKeys: set<string> := {"id", "userId", "username", "text", "timestamp"}

  function ParseComment(j: Json): (r: Option<Comment>)
    ensures r.Some? ==> j.JObject? && forall key :: key in CommentKeys ==> key in j.fields
    ensures r.Some? ==>
      && j.fields["id"] == JString(r.value.id)
      && j.fields["userId"] == JString(r.value.userId)
      && j.fields["username"] == JString(r.value.username)
      && j.fields["text"] == JString(r.value.text)
      && j.fields["timestamp"] == JString(r.value.timestamp)
  {
    if !j.JObject? then None
    else
      var f := j.fields;
      var id := Required(f, "id", ParseString);
      var userId := Required(f, "userId", ParseString);
      var username := Required(f, "username", ParseString);
      var text := Required(f, "text", ParseString);
      var timestamp := Required(f, "timestamp", ParseString);
      if id.Some? && userId.Some? && username.Some? && text.Some? && timestamp.Some?
      then Some(Comment(id.value, userId.value, username.value, text.value, timestamp.value))
      else None
  }

  function EncodeComment(c: Comment): Json {
    JObject(map[
      "id" := JString(c.id),
      "userId" := JString(c.userId),
      "username" := JString(c.username),
      "text" := JString(c.text),
      "timestamp" := JString(c.timestamp)])
  }

  lemma CommentRoundTrip(c: Comment)
    ensures ParseComment(EncodeComment(c)) == Some(c)
  {
  }

  /** The schema's keys of an accepted comment object are exactly the
      stored form of the comment it reads as. */
  lemma ParsedCommentEncodes(j: Json)
    requires ParseComment(j).Some?
    ensures EncodeComment(ParseComment(j).value).fields == map k | k in j.fields && k in CommentKeys :: j.fields[k]
  {
    var e := EncodeComment(ParseComment(j).value).fields;
    var m := map k | k in j.fields && k in CommentKeys :: j.fields[k];
    assert e.Keys == m.Keys;
  }

  function ActivityValue(a: ActivityType): string {
    match a
    case StartedReading => "started-reading"
    case FinishedReading => "finished-reading"
    case AddedToCollection => "added-to-collection"
  }

  function ParseActivity(j: Json): (r: Option<ActivityType>)
    ensures r.Some? <==> j.JString? && j.str in {"started-reading", "finished-reading", "added-to-collection"}
    ensures r.Some? ==> j == JString(ActivityValue(r.value))
  {
    if j == JString("started-reading") then Some(StartedReading)
    else if j == JString("finished-reading") then Some(FinishedReading)
    else if j == JString("added-to-collection") then Some(AddedToCollection)
    else None
  }

  /** The activity schema accepts exactly the three activity strings. */
  lemma ActivityRoundTrip(a: ActivityType)
    ensures ParseActivity(JString(ActivityValue(a))) == Some(a)
  {
    match a
    case StartedReading =>
    case FinishedReading =>
    case AddedToCollection =>
  }

  function ParseComments(j: Json): Option<seq<Comment>> {
    ParseArrayOf(j, ParseComment)
  }

  function ParsePost(j: Json): (r: Option<FeedPost>)
    ensures r.Some? ==> j.JObject?
    ensures r.Some? ==> "book" in j.fields && ParseBook(j.fields["book"]) == Some(r.value.book)
    ensures r.Some? ==> (
      && "comments" in j.fields && j.fields["comments"].JArray?
      && |j.fields["comments"].items| == |r.value.comments|
      && forall i :: 0 <= i < |r.value.comments| ==>
           ParseComment(j.fields["comments"].items[i]) == Some(r.value.comments[i]))
    ensures r.Some? ==> "activityType" in j.fields && j.fields["activityType"] == JString(ActivityValue(r.value.activityType))
    ensures r.Some? ==>
      && "id" in j.fields && j.fields["id"] == JString(r.value.id)
      && "userId" in j.fields && j.fields["userId"] == JString(r.value.userId)
      && "username" in j.fields && j.fields["username"] == JString(r.value.username)
      && "timestamp" in j.fields && j.fields["timestamp"] == JString(r.value.timestamp)
      && "likes" in j.fields && j.fields["likes"] == EncodeStrings(r.value.likes)
  {
    if !j.JObject? then None
    else
      var f := j.fields;
      var id := Required(f, "id", ParseString);
      var userId := Required(f, "userId", ParseString);
      var username := Required(f, "username", ParseString);
      var book := Required(f, "book", ParseBook);
      var activity := Required(f, "activityType", ParseActivity);
      var timestamp := Required(f, "timestamp", ParseString);
      var likes := Required(f, "likes", ParseStrings);
      var comments := Required(f, "comments", ParseComments);
      if id.Some? && userId.Some? && username.Some? && book.Some? && activity.Some?
         && timestamp.Some? && likes.Some? && comments.Some?
      then
        Some(FeedPost(id.value, userId.value, username.value, book.value, activity.value,
                      timestamp.value, likes.value, comments.value))
      else None
  }

  function EncodePost(p: FeedPost): Json {
    JObject(map[
      "id" := JString(p.id),
      "userId" := JString(p.userId),
      "username" := JString(p.username),
      "book" := EncodeBook(p.book),
      "activityType" := JString(ActivityValue(p.activityType)),
      "timestamp" := JString(p.timestamp),
      "likes" := EncodeStrings(p.likes),
      "comments" := EncodeArray(p.comments, EncodeComment)])
  }

  lemma PostRoundTrip(p: FeedPost)
    ensures ParsePost(EncodePost(p)) == Some(p)
  {
    var f := EncodePost(p).fields;
    EncodedPostFields(p);
    ActivityRoundTrip(p.activityType);
    BookRoundTrip(p.book);
    StringsRoundTrip(p.likes);
    forall i | 0 <= i < |p.comments| ensures ParseComment(EncodeComment(p.comments[i])) == Some(p.comments[i]) {
      CommentRoundTrip(p.comments[i]);
    }
    ArrayRoundTrip(p.comments, EncodeComment, ParseComment);
    assert Required(f, "id", ParseString) == Some(p.id);
    assert Required(f, "userId", ParseString) == Some(p.userId);
    assert Required(f, "username", ParseString) == Some(p.username);
    assert Required(f, "book", ParseBook) == Some(p.book);
    assert Required(f, "activityType", ParseActivity) == Some(p.activityType);
    assert Required(f, "timestamp", ParseString) == Some(p.timestamp);
    assert Required(f, "likes", ParseStrings) == Some(p.likes);
    assert Required(f, "comments", ParseComments) == Some(p.comments);
  }

  /** Where each field of a post lands in its encoding. */
  lemma EncodedPostFields(p: FeedPost)
    ensures var f := EncodePost(p).fields;
      && "id" in f && f["id"] == JString(p.id)
      && "userId" in f && f["userId"] == JString(p.userId)
      && "username" in f && f["username"] == JString(p.username)
      && "book" in f && f["book"] == EncodeBook(p.book)
      && "activityType" in f && f["activityType"] == JString(ActivityValue(p.activityType))
      && "timestamp" in f && f["timestamp"] == JString(p.timestamp)
      && "likes" in f && f["likes"] == EncodeStrings(p.likes)
      && "comments" in f && f["comments"] == EncodeArray(p.comments, EncodeComment)
  {
  }

  // ---- Storage schemas ----

  function ParseBooks(j: Json): Option<seq<Book>> {
    ParseArrayOf(j, ParseBook)
  }

  /** The persisted book collection; an absent `searchResults` reads as []. */
  function ParseBookCollection(j: Json): (r: Option<BookStore.BookCollection>)
    ensures r.Some? ==> j.JObject? && "books" in j.fields
    ensures r.Some? && "searchResults" !in j.fields ==> r.value.searchResults == []
    ensures r.Some? ==> ParseBooks(j.fields["books"]) == Some(r.value.books)
    ensures r.Some? && "searchResults" in j.fields ==>
      ParseBooks(j.fields["searchResults"]) == Some(r.value.searchResults)
  {
    if !j.JObject? then None
    else
      var books := Required(j.fields, "books", ParseBooks);
      var results := Optional(j.fields, "searchResults", ParseBooks);
      if books.Some? && results.Some? then Some(BookStore.BookCollection(books.value, results.value.GetOr([])))
      else None
  }

  function EncodeBooks(books: seq<Book>): Json {
    EncodeArray(books, EncodeBook)
  }

  function EncodeBookCollection(c: BookStore.BookCollection): Json {
    JObject(map["books" := EncodeBooks(c.books), "searchResults" := EncodeBooks(c.searchResults)])
  }

  lemma BooksRoundTrip(books: seq<Book>)
    ensures ParseBooks(EncodeBooks(books)) == Some(books)
  {
    forall i | 0 <= i < |books| ensures ParseBook(EncodeBook(books[i])) == Some(books[i]) {
      BookRoundTrip(books[i]);
    }
    ArrayRoundTrip(books, EncodeBook, ParseBook);
  }

  lemma BookCollectionRoundTrip(c: BookStore.BookCollection)
    ensures ParseBookCollection(EncodeBookCollection(c)) == Some(c)
  {
    BooksRoundTrip(c.books);
    BooksRoundTrip(c.searchResults);
  }

  /** Older stored collections without search results load with none. */
  lemma MissingSearchResultsDefault(books: seq<Book>)
    ensures ParseBookCollection(JObject(map["books" := EncodeBooks(books)])) ==
            Some(BookStore.BookCollection(books, []))
  {
    BooksRoundTrip(books);
  }

  /** The persisted user state; `user` must be present, and may be null. */
  function ParseUserStorage(j: Json): (r: Option<UserStore.UserState>)
    ensures r.Some? ==> j.JObject? && "user" in j.fields && "isAuthenticated" in j.fields
    ensures r.Some? ==> (r.value.user.None? <==> j.fields["user"] == JNull)
    ensures r.Some? ==> j.fields["isAuthenticated"] == JBool(r.value.isAuthenticated)
    ensures r.Some? && r.value.user.Some? ==> ParseUser(j.fields["user"]) == r.value.user
  {
    if !j.JObject? then None
    else
      var f := j.fields;
      var user :=
        if "user" !in f then None
        else if f["user"] == JNull then Some(None)
        else
          match ParseUser(f["user"])
          case None => None
          case Some(u) => Some(Some(u));
      var auth := Required(f, "isAuthenticated", ParseBool);
      if user.Some? && auth.Some? then Some(UserStore.UserState(user.value, auth.value)) else None
  }

  function EncodeUserState(s: UserStore.UserState): Json {
    JObject(map[
      "user" := (match s.user case None => JNull case Some(u) => EncodeUser(u)),
      "isAuthenticated" := JBool(s.isAuthenticated)])
  }

  /** A stored user state reads back exactly when its profile, if any,
      passes the user schema. */
  lemma UserStorageRoundTrip(s: UserStore.UserState)
    ensures ParseUserStorage(EncodeUserState(s)).Some? <==>
      (s.user.None? || |s.user.value.username| >= MinUsernameLength)
    ensures ParseUserStorage(EncodeUserState(s)).Some? ==> ParseUserStorage(EncodeUserState(s)).value == s
  {
    if s.user.Some? {
      UserRoundTrip(s.user.value);
    }
  }

  /** A login that the login page accepts stores a user the schema accepts,
      and logging out stores a state it accepts too. */
  lemma AcceptedLoginIsStorable(s: UserStore.UserState, username: string, id: string, createdAt: string)
    requires |Text.Trim(username)| >= MinUsernameLength
    ensures var t := UserStore.Login(s, username, id, createdAt);
      ParseUserStorage(EncodeUserState(t)) == Some(t)
    ensures ParseUserStorage(EncodeUserState(UserStore.Logout(s))) == Some(UserStore.Logout(s))
  {
    UserStorageRoundTrip(UserStore.Login(s, username, id, createdAt));
    UserStorageRoundTrip(UserStore.Logout(s));
  }

  function ParsePosts(j: Json): Option<seq<FeedPost>> {
    ParseArrayOf(j, ParsePost)
  }

  /** The persisted feed. */
  function ParseFeedStorage(j: Json): (r: Option<seq<FeedPost>>)
    ensures r.Some? ==> j.JObject? && "posts" in j.fields && j.fields["posts"].JArray?
    ensures r.Some? ==> |r.value| == |j.fields["posts"].items|
    ensures r.Some? ==> forall i :: 0 <= i < |r.value| ==> ParsePost(j.fields["posts"].items[i]) == Some(r.value[i])
  {
    if !j.JObject? then None
    else Required(j.fields, "posts", ParsePosts)
  }

  function EncodeFeed(posts: seq<FeedPost>): Json {
    JObject(map["posts" := EncodeArray(posts, EncodePost)])
  }

  lemma FeedRoundTrip(posts: seq<FeedPost>)
    ensures ParseFeedStorage(EncodeFeed(posts)) == Some(posts)
  {
    forall i | 0 <= i < |posts| ensures ParsePost(EncodePost(posts[i])) == Some(posts[i]) {
      PostRoundTrip(posts[i]);
    }
    ArrayRoundTrip(posts, EncodePost, ParsePost);
  }
}
