# Reading tracker core in Dafny

This project models the logic of a single-page reading tracker. Users keep a
collection of books, each in one of three reading statuses: want to read,
currently reading, and read. Books move between statuses by dragging them across
bookshelf sections or by pressing a button on a book's page. The app also keeps
notifications with an unread counter, a social feed with likes and comments, and
a self-asserted user profile. The model covers four groups of behaviour.

- **The persisted stores.** Each one is a pure function from the old state and
  the arguments to the new state.
  - Notifications: `NotificationStore`.
  - Feed: `FeedStore`.
  - Books: `BookStore`.
  - User: `UserStore`.
- **The interaction logic that lives in pages and components.**
  - The bookshelf grouping and drag callbacks: `Shelf`.
  - The book page's status button and relative date: `BookDetails`.
  - The feed's like toggle and comment guard: `FeedPage`.
  - The notification dropdown: `Dropdown`.
  - The login form: `LoginPage`.
  - The file explorer tree: `FileExplorer`.
- **The pure derivations.**
  - Normalising Google Books volumes into books: `GoogleBooks`.
  - Recommendations: `Recommendations`.
  - The recent-books window: `RecentBooks`.
  - Reading-progress statistics: `Progress`.
- **The storage schemas.** `Schemas` models them as parsers over a small JSON
  datatype, with encoders and round-trip lemmas.

Shared pieces:

- `Wrappers` defines `Option` and `Result`.
- `Text` defines JavaScript's `trim` over the ECMAScript white-space and
  line-terminator code points, and decimal rendering of counts.
- `Seqs` defines `filter` and remove-all.
- `Types` defines the entities.

Ids and timestamps come from `Date.now`, `Math.random`, `crypto.randomUUID` and
`new Date`, so the model takes them as parameters. Where an invariant depends on
fresh ids, a lemma states that as a precondition. The clearest example is
`FreshRun` for the notification counter.

Design notes, where the code does less than one might expect (the model follows
the code):

- Changing a book's status writes only the book collection. No code path adds a
  "book read" notification when a book is marked read.
- Adding a book does not reject an id that is already in the collection.
- The drag-end guard compares the dragged book's id with the id of the section it
  is dropped on, not with the book's current status. A drop on the book's own
  section still issues an update, and that update changes nothing
  (`Shelf.DropOnOwnSectionKeepsBooks`).
- The store's `addComment` accepts any text. The blank check and the trimming
  live only in the feed page.

## Model

| member | source | states |
|---|---|---|
| Types.StatusValueInjective | src/types/book.ts:4-8 | the three enum string values are pairwise distinct, so a status is recovered from its string |
| Types.FindBook | src/pages/BookDetailsPage.tsx:32 | `find` returns a book with the id that is in the list and has no earlier book with that id; None exactly when no book has the id |
| Types.FindBookAt | src/pages/BookDetailsPage.tsx:32 | the book at the first position carrying the id is exactly the one `find` returns |
| Text.Trim | src/store/user.ts:22 | trimming yields a slice of the input whose ends are not white space, and everything cut from either end is white space; the result is empty exactly when the input is blank |
| Text.TrimIdempotent | src/pages/FeedPage.tsx:33 | trimming twice is trimming once |
| Text.DecimalRoundTrip | src/components/NotificationDropdown.tsx:33-37 | the rendered count is a digit string without a leading zero that reads back as the same number |
| NotificationStore.AddNotification | src/store/notifications.ts:18-30 | one unread record with the given id and time goes in front, the old list follows unchanged, and the counter rises by one |
| NotificationStore.Find | src/store/notifications.ts:37 | the first record with the id, and under distinct ids the only one; none exactly when no record has it |
| NotificationStore.MarkAsRead | src/store/notifications.ts:35-49 | an absent or already read id leaves the state unchanged; otherwise exactly that record becomes read and the counter drops by one, floored at zero |
| NotificationStore.MarkAllAsRead | src/store/notifications.ts:54-59 | same records in the same order, all read, counter zero |
| NotificationStore.ClearNotification | src/store/notifications.ts:64-74 | the records with the id are gone, the others keep their order, and the counter drops only if the cleared record was unread |
| NotificationStore.ClearAllNotifications | src/store/notifications.ts:79-84 | empty list and zero counter |
| NotificationStore.CountAfterMark | src/store/notifications.ts:42-47 | with distinct ids, marking one id read lowers the number of unread records by one exactly when that record was unread |
| NotificationStore.CountAfterClear | src/store/notifications.ts:67-71 | with distinct ids, clearing one id lowers the number of unread records by one exactly when that record was unread |
| NotificationStore.CountZeroIffAllRead | src/store/notifications.ts:56-57 | the unread count is zero exactly when every record is read |
| NotificationStore.AddPreservesConsistent | src/store/notifications.ts:21-28 | adding a fresh id keeps ids distinct and the counter equal to the unread records |
| NotificationStore.MarkAsReadPreservesConsistent | src/store/notifications.ts:35-49 | marking one read keeps ids distinct and the counter exact |
| NotificationStore.MarkAllPreservesConsistent | src/store/notifications.ts:54-59 | marking all read keeps ids distinct and the counter exact |
| NotificationStore.ClearPreservesConsistent | src/store/notifications.ts:64-74 | clearing one keeps ids distinct and the counter exact |
| NotificationStore.RunPreservesConsistent | src/store/notifications.ts:18-84 | over any sequence of operations whose added ids are fresh, ids stay distinct and the counter equals the number of unread records |
| NotificationStore.CounterExactFromInitial | src/store/notifications.ts:12-84 | starting from the empty store, the counter equals the number of unread records after every run with fresh ids |
| NotificationStore.OnlyAddLengthens | src/store/notifications.ts:27-81 | adding lengthens the list by exactly one; every other operation never lengthens it |
| FeedStore.AddPost | src/store/feed.ts:13-24 | the new post, with its id, time, no likes and no comments, goes in front of the unchanged old posts |
| FeedStore.LikePost | src/store/feed.ts:26-34 | each post with the id gains the user at the end of its likes unless already present, in which case the post is unchanged; no other field and no other post changes |
| FeedStore.UnlikePost | src/store/feed.ts:36-44 | each post with the id loses every occurrence of the user from its likes and keeps the other likes; other posts are unchanged |
| FeedStore.UnlikeKeepsOthers | src/store/feed.ts:36-44 | unliking keeps every other user's like on the post |
| FeedStore.AddComment | src/store/feed.ts:46-59 | the new comment is appended to each post with the id; an unknown post id changes nothing |
| FeedStore.RemovePost | src/store/feed.ts:61-65 | exactly the posts with the id disappear, with their comments; the rest keep their order |
| FeedStore.LikeKeepsLikesDistinct | src/store/feed.ts:29-30 | liking keeps every like list free of duplicates |
| FeedStore.UnlikeKeepsLikesDistinct | src/store/feed.ts:40 | unliking keeps every like list free of duplicates |
| FeedStore.AddPostKeepsLikesDistinct | src/store/feed.ts:18 | a new post starts with a duplicate-free like list, and the others keep theirs |
| FeedStore.AddCommentKeepsLikesDistinct | src/store/feed.ts:46-59 | commenting does not touch any like list |
| FeedStore.RemovePostKeepsLikesDistinct | src/store/feed.ts:61-65 | removing posts keeps the remaining like lists duplicate-free |
| FeedStore.LikeIdempotent | src/store/feed.ts:29 | a second identical like changes nothing |
| FeedStore.UnlikeAbsentNoop | src/store/feed.ts:40 | unliking a user who has not liked the post changes nothing |
| FeedStore.CommentAfterRemoveNoop | src/store/feed.ts:53-63 | after a post is removed, commenting on its id changes nothing |
| BookStore.AddBook | src/store/books.ts:18-22 | the book is appended after the unchanged collection, even when its id is already present; search results are untouched |
| BookStore.RemoveBook | src/store/books.ts:27-31 | exactly the books with the id disappear, the others keep their order, and an absent id changes nothing |
| BookStore.UpdateBookStatus | src/store/books.ts:36-42 | each book with the id takes the new status, nothing else about any book changes, and the length is kept |
| BookStore.SetSearchResults | src/store/books.ts:47-49 | only the search results are replaced |
| BookStore.ClearSearchResults | src/store/books.ts:54-56 | only the search results are emptied |
| BookStore.UpdateIdempotent | src/store/books.ts:38-40 | applying the same status update twice is the same as applying it once |
| BookStore.UpdateToCurrentIsIdentity | src/store/books.ts:38-40 | setting the status that every book with the id already has changes nothing |
| BookStore.UpdateAbsentIsIdentity | src/store/books.ts:38-40 | an update for an id that is not in the collection changes nothing |
| BookStore.UpdateThenFind | src/store/books.ts:36-42 | after an update, looking up the id finds a book with the new status |
| UserStore.Login | src/store/user.ts:19-30 | the state is authenticated, with a profile holding the trimmed username and the given id and time |
| UserStore.Logout | src/store/user.ts:35-40 | no profile and not authenticated |
| UserStore.AuthAgreesAlways | src/store/user.ts:12-40 | over any sequence of logins and logouts, the flag is set exactly when a profile is present |
| Shelf.GroupByStatus | src/pages/MyBooksPage.tsx:36-46 | each section is the collection filtered by its status |
| Shelf.GroupMembership | src/pages/MyBooksPage.tsx:36-46 | a book is in a section exactly when it is in the collection with that status |
| Shelf.GroupSizes | src/pages/MyBooksPage.tsx:36-46 | the three sections together hold exactly as many books as the collection |
| Shelf.GroupKeepsOrder | src/pages/MyBooksPage.tsx:37-45 | grouping a concatenation concatenates the groupings, so collection order is kept inside each section |
| Shelf.DragStart | src/pages/MyBooksPage.tsx:49-53 | the dragged book is the first book in the collection with the dragged id, or none when no book has it |
| Shelf.DragEnd | src/pages/MyBooksPage.tsx:56-65 | an update is issued exactly when there is a drop target whose id differs from the dragged id; the update carries the target status; the dragged book is always cleared |
| Shelf.ApplyDragEnd | src/pages/MyBooksPage.tsx:56-65 | after a drop, only statuses change: exactly the books with the dragged id take the target status, and only when the target's id differs from the dragged id |
| Shelf.DropOnOwnSectionKeepsBooks | src/pages/MyBooksPage.tsx:59-61 | dropping a book on the section of its current status leaves the collection unchanged |
| Shelf.DropMovesBook | src/pages/MyBooksPage.tsx:59-61 | dropping a book on another section gives it that status, and that section is no longer empty |
| Shelf.DragThenDrop | src/pages/MyBooksPage.tsx:49-65 | picking a book up again after dropping it on another section finds the same book with the target status |
| BookDetails.NextStatus | src/pages/BookDetailsPage.tsx:171-175 | the button never keeps the current status |
| BookDetails.NextStatusCycle | src/pages/BookDetailsPage.tsx:171-175 | three presses return to the start and two never do, so the status cycle has length three |
| BookDetails.NextStatusInjective | src/pages/BookDetailsPage.tsx:171-175 | distinct statuses lead to distinct next statuses |
| BookDetails.ButtonLabelInjective | src/pages/BookDetailsPage.tsx:179-181 | each status has its own caption |
| BookDetails.ButtonLabel | src/pages/BookDetailsPage.tsx:171-181 | the caption names the step the press takes: "Start Reading" exactly when the next status is currently-reading, "Mark as Read" when it is read, "Read Again" when it is want-to-read |
| BookDetails.PressStatusButton | src/pages/BookDetailsPage.tsx:102-104 | with a book for the route id, the press issues the status update for that id with the next status; without one nothing changes |
| BookDetails.PressAdvancesStatus | src/pages/BookDetailsPage.tsx:171-175 | after a press the page shows the next status |
| BookDetails.FormatDate | src/pages/BookDetailsPage.tsx:112-117 | under 30 days reads "Less than a month ago"; up to a year, whole 30-day months with the plural from two on; then whole 365-day years with the plural from two on |
| BookDetails.FormatDateCount | src/pages/BookDetailsPage.tsx:115-117 | the number in a month or year label is at least one and reads back as the count |
| FeedPage.FindPost | src/pages/FeedPage.tsx:19 | the first post with the id: it is in the feed and no earlier post carries the id; none exactly when no post has it |
| FeedPage.HandleLike | src/pages/FeedPage.tsx:17-25 | no user changes nothing; otherwise only the like lists of posts with the id change, the user's like on them is flipped relative to the found post, and every other user's like is kept |
| FeedPage.LikeThenUnlike | src/store/feed.ts:26-44 | liking then unliking a user who had not liked restores the feed |
| FeedPage.DoubleLikeRestores | src/pages/FeedPage.tsx:17-25 | starting from no like, pressing the button twice restores the feed |
| FeedPage.HandleAddComment | src/pages/FeedPage.tsx:27-37 | without a user, or with a missing or blank draft, nothing changes; otherwise exactly one comment with the trimmed text and the user's id and name is appended, that draft is reset and other drafts are kept |
| FeedPage.HandleAddCommentKeepsTrimmed | src/pages/FeedPage.tsx:28-33 | comments posted through the page are never empty and are already trimmed |
| Dropdown.FormatTimeAgo | src/components/NotificationDropdown.tsx:29-38 | under a minute, including future times, reads "just now"; then whole minutes, hours or days of the elapsed time |
| Dropdown.FutureIsJustNow | src/components/NotificationDropdown.tsx:30-31 | a timestamp at or after now reads "just now" |
| Dropdown.NotificationClick | src/components/NotificationDropdown.tsx:21-27 | always marks the notification read; navigates to the book page exactly when the book id is present and non-empty |
| Dropdown.ClickMarksRead | src/components/NotificationDropdown.tsx:21-22 | after a click the clicked record is read and the store stays consistent |
| Dropdown.UnreadLine | src/components/NotificationDropdown.tsx:110-111 | the "N unread" line shows exactly when the count is positive, with that count |
| Dropdown.UnreadLineIffUnreadRecord | src/components/NotificationDropdown.tsx:110-111 | in a consistent store the line shows exactly when some record is unread |
| LoginPage.HandleSubmit | src/pages/LoginPage.tsx:19-38 | a blank name gives the required message and a trimmed length of one or two gives the length message, without logging in; otherwise the user logs in with a name of at least three characters, the error is cleared and the page navigates home |
| LoginPage.RequiredBeforeLength | src/pages/LoginPage.tsx:24-33 | a blank name never gets the length message, although its trimmed length is below three |
| LoginPage.SubmitSuccessAuthenticates | src/pages/LoginPage.tsx:36 | a successful submission leaves an authenticated store whose flag and profile agree |
| GoogleBooks.StringOr | src/services/googleBooks.ts:80-82 | a present non-empty string is kept; a missing or empty one gives the fallback |
| GoogleBooks.Thumbnail | src/services/googleBooks.ts:83-85 | the thumbnail link, else the small thumbnail, else the placeholder; never empty |
| GoogleBooks.ToBook | src/services/googleBooks.ts:78-90 | id and optional fields pass through; title and description are never empty; missing authors become the unknown author, while a present list is kept even when empty; the status is want-to-read |
| GoogleBooks.ToBooks | src/services/googleBooks.ts:73-90 | one book per item, in order; missing items give none |
| GoogleBooks.SearchBooks | src/services/googleBooks.ts:41-103 | a blank query succeeds with no books; otherwise status 429 and only 429 is the rate-limit error, any other non-2xx status is an API error, and success returns the normalised items |
| GoogleBooks.BlankQueryMakesNoRequest | src/services/googleBooks.ts:42-44 | for a blank query the response has no influence on the result |
| GoogleBooks.RateLimitMessageDistinct | src/services/googleBooks.ts:61-68 | the rate-limit message differs from every API-error message |
| GoogleBooks.GetBookById | src/services/googleBooks.ts:110-158 | an empty id is rejected before any request; a non-2xx status is an API error; otherwise the normalised volume |
| GoogleBooks.EmptyIdMakesNoRequest | src/services/googleBooks.ts:111-113 | for an empty id the response has no influence on the result |
| GoogleBooks.RecommendationQuery | src/services/googleBooks.ts:168 | the query is "subject:" followed by the subject, unchanged |
| GoogleBooks.RecommendationsNotBlank | src/services/googleBooks.ts:166-169 | the prefixed query is never blank, so a recommendation search always reaches the service, even for an empty subject |
| GoogleBooks.GetRecommendations | src/services/googleBooks.ts:166-169 | succeeds exactly on a 2xx status with the normalised items; status 429 and only 429 is the rate-limit error |
| Recommendations.IndexOf | src/components/BookRecommendations.tsx:33 | `indexOf` gives a position holding the element with no earlier occurrence |
| Recommendations.Dedupe | src/components/BookRecommendations.tsx:31-38 | the result has no duplicates and the same elements as the input, ordered by first occurrence |
| Recommendations.DedupeHead | src/components/BookRecommendations.tsx:41-43 | deduplication keeps the first element first and is empty only for an empty input |
| Recommendations.DedupeBySeen | src/components/BookRecommendations.tsx:31-38 | a single pass with a set of seen elements computes the same deduplication |
| Recommendations.Categories | src/components/BookRecommendations.tsx:30-31 | a category occurs exactly when some book lists it; none exactly when no book has a non-empty category list |
| Recommendations.Authors | src/components/BookRecommendations.tsx:35-36 | an author occurs exactly when some book lists them; none exactly when every author list is empty |
| Recommendations.ChooseQuery | src/components/BookRecommendations.tsx:22-43 | no query for an empty collection; else the first category, else the first author when non-empty, else "bestseller" |
| Recommendations.SelectNew | src/components/BookRecommendations.tsx:49-52 | at most five results, none already owned, forming a prefix of the unowned results of length min(5, their number) |
| Recommendations.Recommend | src/components/BookRecommendations.tsx:20-61 | an empty collection fetches nothing; otherwise the panel fails exactly when the search for the chosen query fails, with the fixed message, and shows exactly the selection of new books from its results on success (at most five, none owned) |
| RecentBooks.Reverse | src/components/RecentBooks.tsx:14 | element i of the reversal is element n-1-i of the input |
| RecentBooks.Recent | src/components/RecentBooks.tsx:14 | min(5, n) books with the newest first: element i is the book added i places before the last; empty exactly for an empty collection |
| RecentBooks.RecentPanel | src/components/RecentBooks.tsx:14-51 | the empty state shows exactly for an empty collection; the "View all" link shows exactly for more than five books |
| RecentBooks.RecentAppend | src/components/RecentBooks.tsx:14 | an appended book heads the window, followed by the previous window with its oldest entry dropped once the window is full |
| RecentBooks.AddedBookComesFirst | src/store/books.ts:18-22 | after adding a book it heads the recent books, followed by the previous ones |
| Progress.ComputeStats | src/components/ReadingProgress.tsx:12-17 | each count is the size of its section, and the three counts add up to the total |
| Progress.Percentage | src/components/ReadingProgress.tsx:20 | zero for no books; otherwise the whole percent nearest to read/total with halves rounded up, always within 0..100 |
| Progress.PercentageExtremes | src/components/ReadingProgress.tsx:20 | nothing read gives 0 and everything read gives 100 |
| Progress.PercentageMonotone | src/components/ReadingProgress.tsx:20 | more books read never gives a lower percentage |
| Progress.ProgressPanel | src/components/ReadingProgress.tsx:12-63 | the percentage is within 0..100 and the encouragement shows exactly for an empty collection |
| Progress.AllReadShowsFull | src/components/ReadingProgress.tsx:20 | a non-empty collection with every book read shows 100% and no other status |
| Progress.NoneReadShowsZero | src/components/ReadingProgress.tsx:20 | with no book read the percentage is 0 |
| Schemas.ParseArray | src/schemas/storage.ts:14 | an array is accepted exactly when every element is, and the results keep their positions |
| Schemas.ArrayRoundTrip | src/schemas/storage.ts:53-54 | an encoded array reads back when its elements do |
| Schemas.StatusSchemaMatchesEnum | src/schemas/storage.ts:6 | the status schema accepts exactly the enum's strings, each denoting its status |
| Schemas.ParseStatus | src/schemas/storage.ts:6 | accepts exactly the three enum strings, and an accepted value is the stored form of the status it reads as |
| Schemas.ParseStrings | src/schemas/storage.ts:14 | accepts exactly arrays of strings, and an accepted value is the stored form of the list it reads as |
| Schemas.ParseBook | src/schemas/storage.ts:11-21 | an accepted book is an object with the six required keys, each holding the matching field in its schema type; an optional key is present exactly when the field is, and then holds it |
| Schemas.ParsedBookEncodes | src/schemas/storage.ts:11-21 | an accepted object, restricted to the schema's keys, is exactly the stored form of the book it reads as |
| Schemas.BookRoundTrip | src/schemas/storage.ts:11-21 | every book is accepted in its encoded form and reads back unchanged |
| Schemas.BookIgnoresUnknownKeys | src/schemas/storage.ts:11-21 | keys the book schema does not name have no influence on the result |
| Schemas.EmptyAuthorsAccepted | src/schemas/storage.ts:14 | a book with an empty author list is valid |
| Schemas.ParseUser | src/schemas/storage.ts:26-30 | an accepted user is an object whose three keys hold its string fields, with a username of at least three characters |
| Schemas.UserRoundTrip | src/schemas/storage.ts:26-30 | an encoded user is accepted exactly when the username has at least three characters, and then reads back unchanged |
| Schemas.ParseComment | src/schemas/storage.ts:35-41 | an accepted comment is an object whose five keys hold its string fields |
| Schemas.ParsedCommentEncodes | src/schemas/storage.ts:35-41 | an accepted object, restricted to the schema's keys, is exactly the stored form of the comment it reads as |
| Schemas.CommentRoundTrip | src/schemas/storage.ts:35-41 | every comment reads back unchanged |
| Schemas.ParseActivity | src/schemas/storage.ts:51 | accepts exactly the three activity strings, each denoting its activity |
| Schemas.ParsePost | src/schemas/storage.ts:46-55 | an accepted post is an object whose string keys hold its id, user id, username and timestamp, whose likes key holds its like list, whose book key parses to its book, whose comments array parses element by element to its comments, and whose activity key holds its activity string |
| Schemas.PostRoundTrip | src/schemas/storage.ts:46-55 | every post reads back unchanged |
| Schemas.ParseBookCollection | src/schemas/storage.ts:60-63 | an accepted collection's books are what its books array parses to, and its search results what the search-results array parses to, or empty when that key is absent |
| Schemas.BookCollectionRoundTrip | src/schemas/storage.ts:60-63 | every stored collection reads back unchanged |
| Schemas.MissingSearchResultsDefault | src/schemas/storage.ts:62 | a stored collection without search results reads back with none |
| Schemas.ParseUserStorage | src/schemas/storage.ts:68-71 | the user key must be present; null gives no profile, and otherwise the profile is what the user schema reads from it; the flag is the stored boolean |
| Schemas.UserStorageRoundTrip | src/schemas/storage.ts:68-71 | a stored user state reads back exactly when its profile, if any, has a valid username |
| Schemas.AcceptedLoginIsStorable | src/schemas/storage.ts:28 | the state after a login the login page accepts, and the state after logout, both pass the storage schema and read back unchanged |
| Schemas.ParseFeedStorage | src/schemas/storage.ts:76-78 | an accepted feed is an object whose posts array has one element per post, and each element parses to the post at its position |
| Schemas.FeedRoundTrip | src/schemas/storage.ts:76-78 | every stored feed reads back unchanged |
| FileExplorer.InitialState | src/components/FileExplorer.tsx:29-32 | only the src path starts open and no row starts selected |
| FileExplorer.ToggleFolder | src/components/FileExplorer.tsx:34-42 | the path's membership in the open set flips and no other path's membership changes |
| FileExplorer.ToggleTwice | src/components/FileExplorer.tsx:34-42 | toggling the same folder twice restores the state |
| FileExplorer.ToggleCommutes | src/components/FileExplorer.tsx:34-42 | toggles of two folders commute |
| FileExplorer.HandleFileClick | src/components/FileExplorer.tsx:44-47 | the clicked path becomes the selection and the open set is unchanged |
| FileExplorer.ChildPath | src/components/FileExplorer.tsx:102 | a child's path is the parent path, a slash and the child's name |
| FileExplorer.RenderItem | src/components/FileExplorer.tsx:49-110 | the item's row comes first at its level; rows below it exist exactly for an open folder with children, and then the rows one level deeper are its children in order; each lower row sits under "path/" and has an earlier open folder row one level up whose path and its own name give its path; every indent is 20 per level; a row is marked selected exactly when its path is the selection |
| FileExplorer.RenderChildren | src/components/FileExplorer.tsx:97-106 | the rows at the children's level are the children in order, each with the parent's path, a slash and its name; every deeper row has an earlier open folder row one level up that is its parent |
| FileExplorer.Render | src/components/FileExplorer.tsx:49-169 | the level-0 rows are the top-level items in order, each with its name as path; every deeper row has an earlier open folder row one level up that is its parent; the rows' paths are exactly the paths the tree shows, so every child of an open folder on an open branch appears; every row is indented 20 per level and marked selected exactly when its path is the selection |
| FileExplorer.ItemPaths | src/components/FileExplorer.tsx:49-110 | an item renders rows for exactly the paths it shows: its own, and recursively every child of an open folder |
| FileExplorer.ChildrenPaths | src/components/FileExplorer.tsx:97-106 | a list of children renders rows for exactly the paths the children show |
| FileExplorer.CollapsedHidesDescendants | src/components/FileExplorer.tsx:97 | a closed folder, or a file, renders as its own row alone |
| FileExplorer.ClickKeepsLayout | src/components/FileExplorer.tsx:44-51 | clicking a file keeps every row in place and moves only the selection marks |
| FileExplorer.SelectionOnlyMarks | src/components/FileExplorer.tsx:50-52 | with the same open set, the rendered rows differ at most in their selection marks |

## Left out

- React rendering, styling, routing and the view-only components are out of the
  model. These are the cards, the layout, the navigation bar, the dashboard
  shell and the star ratings. The mock reviews and the average rating of the
  book page are out too, since they are floating-point display data.
- The drag-and-drop library's sensors, the 8-pixel activation distance and
  collision detection are out. Only the drag callbacks are modelled. A drop
  target is one of the three status sections or none.
- Network access, URL building, the API key, `maxResults` and JSON decoding of
  responses are out. The HTTP response each request would get is a parameter.
  A transport failure or a malformed body is not modelled.
- Persistence to local storage is out. The storage schemas are modelled as
  standalone parsers, because the stores do not apply them when loading.
- Clocks and randomness are parameters: `Date.now`, `new Date`, `Math.random`
  and `crypto.randomUUID`.
- The click handlers' side effects on the host page are out: closing the
  dropdown and the file explorer's `onFileSelect` callback.
- The file explorer's `modified` field is out, because nothing renders it.
- BookDetails.FormatDate: takes the whole number of days as its input. The date
  parsing, the absolute value and the `Math.ceil` of a millisecond difference
  are not modelled.
- Dropdown.FormatTimeAgo: the current time is a parameter, and numbers are
  integer milliseconds.
- Progress.Percentage: uses exact rational rounding, `(200*read + total) /
  (2*total)`. The source computes `Math.round(read / total * 100)` in binary
  floating point, which can differ on exact halves, where the rounding error of
  the division decides.
- GoogleBooks.ToBook: `pageCount` is an integer, while the source has a
  JavaScript number.
- LoginPage.HandleSubmit: counts code points, while `trim().length` counts
  UTF-16 code units. A name outside the Basic Multilingual Plane differs: the
  source accepts "😀😀" (four units), the model rejects it as too short (two
  code points).
- Schemas.ParseUser: counts characters, while the schema library counts UTF-16
  code units.
- Schemas.ParseBook: numbers in stored JSON are integers, so `pageCount` is an
  integer, while the schema accepts any JavaScript number.
- Recommendations.Recommend: does not model the loading flag. It also does not
  model that, for an empty collection, the previous recommendations stay on
  screen. It shows the result of one fetch and does not cover overlapping
  fetches.
- Text.Trim: uses the fixed ECMAScript white-space and line-terminator set
  (including U+FEFF and the Unicode space separators). Other Unicode tables are
  not consulted.
