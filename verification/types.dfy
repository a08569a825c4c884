/** The entities of the reading tracker: books and their reading status,
    notifications, feed posts with comments, and the local user profile. */
module Types {
  import opened Wrappers

  /** A book's single current classification on the shelf. */
  datatype ReadingStatus = WantToRead | CurrentlyReading | Read

  /** The string value each status carries in storage and as a drop-target id. */
  function StatusValue(s: ReadingStatus): string {
    match s
    case WantToRead => "want-to-read"
    case CurrentlyReading => "currently-reading"
    case Read => "read"
  }

  /** Distinct statuses have distinct string values. */
  lemma StatusValueInjective(a: ReadingStatus, b: ReadingStatus)
    ensures StatusValue(a) == StatusValue(b) <==> a == b
  {
    if a != b {
      assert StatusValue(a)[0] != StatusValue(b)[0] || |StatusValue(a)| != |StatusValue(b)|;
    }
  }

  /** A normalised book record. `pageCount` is a JavaScript number, kept as an
      integer here. */
  datatype Book = Book(
    id: string,
    title: string,
    authors: seq<string>,
    description: string,
    thumbnail: string,
    publishedDate: Option<string>,
    pageCount: Option<int>,
    categories: Option<seq<string>>,
    status: ReadingStatus)

  datatype NotificationType = BookRead | BookAdded | Milestone

  datatype Notification = Notification(
    id: string,
    kind: NotificationType,
    title: string,
    message: string,
    bookId: Option<string>,
    bookTitle: Option<string>,
    timestamp: int,
    read: bool)

  /** What a caller passes to `addNotification`: a notification without its
      id, timestamp and read flag. */
  datatype NotificationDraft = NotificationDraft(
    kind: NotificationType,
    title: string,
    message: string,
    bookId: Option<string>,
    bookTitle: Option<string>)

  datatype ActivityType = StartedReading | FinishedReading | AddedToCollection

  datatype Comment = Comment(id: string, userId: string, username: string, text: string, timestamp: string)

  /** What a caller passes to `addComment`: a comment without id and timestamp. */
  datatype CommentDraft = CommentDraft(userId: string, username: string, text: string)

  /** A social post; `likes` holds the ids of the users who liked it, in the
      order they liked it. */
  datatype FeedPost = FeedPost(
    id: string,
    userId: string,
    username: string,
    book: Book,
    activityType: ActivityType,
    timestamp: string,
    likes: seq<string>,
    comments: seq<Comment>)

  /** What a caller passes to `addPost`: a post without id, timestamp, likes
      and comments. */
  datatype PostDraft = PostDraft(userId: string, username: string, book: Book, activityType: ActivityType)

  datatype User = User(id: string, username: string, createdAt: string)

  /** `books.find(b => b.id === id)`: the first book carrying the id. */
  function FindBook(books: seq<Book>, id: string): (r: Option<Book>)
    ensures r.None? <==> forall i :: 0 <= i < |books| ==> books[i].id != id
    ensures r.Some? ==> r.value in books && r.value.id == id
    ensures r.Some? ==> exists k :: 0 <= k < |books| && books[k] == r.value
                                    && forall i :: 0 <= i < k ==> books[i].id != id
    decreases |books|
  {
    if books == [] then None
    else if books[0].id == id then Some(books[0])
    else
      var r := FindBook(books[1..], id);
      assert r.Some? ==> forall k :: 0 <= k < |books| - 1 && books[1..][k] == r.value ==> books[k + 1] == r.value;
      r
  }

  /** The book at the first position carrying the id is the one found. */
  lemma {:induction false} FindBookAt(books: seq<Book>, id: string, k: nat)
    requires k < |books| && books[k].id == id
    requires forall i :: 0 <= i < k ==> books[i].id != id
    ensures FindBook(books, id) == Some(books[k])
    decreases k
  {
    if k > 0 {
      FindBookAt(books[1..], id, k - 1);
    }
  }
}
