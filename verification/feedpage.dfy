/** The feed page: the like button toggles the current user's like, and the
    comment box posts a trimmed, non-empty comment. */
module FeedPage {
  import opened Wrappers
  import opened Types
  import Text
  import Seqs
  import FeedStore

  /** `posts.find(p => p.id === postId)`: the first post carrying the id. */
  function FindPost(posts: seq<FeedPost>, postId: string): (r: Option<FeedPost>)
    ensures r.None? <==> !FeedStore.HasPost(posts, postId)
    ensures r.Some? ==> r.value in posts && r.value.id == postId
    ensures r.Some? ==> exists k :: 0 <= k < |posts| && posts[k] == r.value
                                    && forall i :: 0 <= i < k ==> posts[i].id != postId
    decreases |posts|
  {
    if posts == [] then None
    else if posts[0].id == postId then Some(posts[0])
    else
      var r := FindPost(posts[1..], postId);
      assert FeedStore.HasPost(posts, postId) ==> FeedStore.HasPost(posts[1..], postId) by {
        if FeedStore.HasPost(posts, postId) {
          var i :| 0 <= i < |posts| && posts[i].id == postId;
          assert posts[1..][i - 1].id == postId;
        }
      }
      assert r.Some? ==> forall k :: 0 <= k < |posts| - 1 && posts[1..][k] == r.value ==> posts[k + 1] == r.value;
      r
  }

  /** `handleLike`: nothing without a user; otherwise unlike when the first
      post with the id already holds the user's like, like in every other
      case (an absent post included, where liking is itself a no-op). */
  function HandleLike(posts: seq<FeedPost>, user: Option<User>, postId: string): (r: seq<FeedPost>)
    ensures user.None? ==> r == posts
    ensures |r| == |posts|
    ensures forall i :: 0 <= i < |posts| ==> r[i].id == posts[i].id
    ensures forall i :: 0 <= i < |posts| && posts[i].id != postId ==> r[i] == posts[i]
    ensures user.Some? && FindPost(posts, postId).Some? ==>
      forall i :: 0 <= i < |posts| && posts[i].id == postId ==>
        (user.value.id in r[i].likes <==> user.value.id !in FindPost(posts, postId).value.likes)
    ensures user.Some? ==>
      forall i :: 0 <= i < |posts| && posts[i].id == postId ==>
        && r[i].(likes := posts[i].likes) == posts[i]
        && (forall u :: u != user.value.id ==> (u in r[i].likes <==> u in posts[i].likes))
  {
    match user
    case None => posts
    case Some(u) =>
      match FindPost(posts, postId)
      case Some(p) =>
        if u.id in p.likes then
          FeedStore.UnlikeKeepsOthers(posts, postId, u.id);
          FeedStore.UnlikePost(posts, postId, u.id)
        else FeedStore.LikePost(posts, postId, u.id)
      case None => FeedStore.LikePost(posts, postId, u.id)
  }

  /** Liking then unliking, with the like absent at first, restores the
      posts. */
  lemma LikeThenUnlike(posts: seq<FeedPost>, postId: string, uid: string)
    requires forall i :: 0 <= i < |posts| && posts[i].id == postId ==> uid !in posts[i].likes
    ensures FeedStore.UnlikePost(FeedStore.LikePost(posts, postId, uid), postId, uid) == posts
  {
    var once := FeedStore.LikePost(posts, postId, uid);
    var twice := FeedStore.UnlikePost(once, postId, uid);
    forall i | 0 <= i < |posts| ensures twice[i] == posts[i] {
      if posts[i].id == postId {
        assert once[i].likes == posts[i].likes + [uid];
        Seqs.RemoveAllAppend(posts[i].likes, uid);
      }
    }
  }

  /** Starting from a state where the user has not liked the post, two
      presses give back exactly the original posts. */
  lemma DoubleLikeRestores(posts: seq<FeedPost>, user: Option<User>, postId: string)
    requires user.Some?
    requires forall i :: 0 <= i < |posts| && posts[i].id == postId ==> user.value.id !in posts[i].likes
    ensures HandleLike(HandleLike(posts, user, postId), user, postId) == posts
  {
    var uid := user.value.id;
    var once := HandleLike(posts, user, postId);
    if FeedStore.HasPost(posts, postId) {
      assert once == FeedStore.LikePost(posts, postId, uid);
      var f := FindPost(once, postId);
      var k :| 0 <= k < |once| && once[k] == f.value;
      assert uid in f.value.likes;
      LikeThenUnlike(posts, postId, uid);
    } else {
      FeedStore.UnlikeAbsentNoop(posts, postId, uid);
      assert once == posts;
    }
  }

  datatype CommentBox = CommentBox(posts: seq<FeedPost>, drafts: map<string, string>)

  /** `handleAddComment`: without a user, or with a draft that is missing or
      blank, nothing happens. Otherwise one comment with the trimmed text and
      the user's id and name is added, and that post's draft is emptied. */
  function HandleAddComment(posts: seq<FeedPost>, drafts: map<string, string>, user: Option<User>,
                            postId: string, commentId: string, timestamp: string): (r: CommentBox)
    ensures (user.None? || postId !in drafts || Text.IsBlank(drafts[postId])) ==> r == CommentBox(posts, drafts)
    ensures !(user.None? || postId !in drafts || Text.IsBlank(drafts[postId])) ==>
      var text := Text.Trim(drafts[postId]);
      && text != []
      && r.posts == FeedStore.AddComment(posts, postId, CommentDraft(user.value.id, user.value.username, text), commentId, timestamp)
      && r.drafts == drafts[postId := ""]
    ensures forall k :: k in drafts && k != postId ==> k in r.drafts && r.drafts[k] == drafts[k]
  {
    if user.None? || postId !in drafts || Text.Trim(drafts[postId]) == [] then
      CommentBox(posts, drafts)
    else
      var u := user.value;
      CommentBox(
        FeedStore.AddComment(posts, postId, CommentDraft(u.id, u.username, Text.Trim(drafts[postId])), commentId, timestamp),
        drafts[postId := ""])
  }

  /** Every comment's text is non-empty and already trimmed. */
  predicate CommentsTrimmed(posts: seq<FeedPost>) {
    forall i, j :: 0 <= i < |posts| && 0 <= j < |posts[i].comments| ==>
      posts[i].comments[j].text != [] && Text.Trim(posts[i].comments[j].text) == posts[i].comments[j].text
  }

  /** Comments posted through the page keep every comment trimmed and
      non-empty; the guard lives here, not in the store. */
  lemma HandleAddCommentKeepsTrimmed(posts: seq<FeedPost>, drafts: map<string, string>, user: Option<User>,
                                     postId: string, commentId: string, timestamp: string)
    requires CommentsTrimmed(posts)
    ensures CommentsTrimmed(HandleAddComment(posts, drafts, user, postId, commentId, timestamp).posts)
  {
    if !(user.None? || postId !in drafts || Text.IsBlank(drafts[postId])) {
      var text := Text.Trim(drafts[postId]);
      Text.TrimIdempotent(drafts[postId]);
      var r := HandleAddComment(posts, drafts, user, postId, commentId, timestamp).posts;
      forall i, j | 0 <= i < |r| && 0 <= j < |r[i].comments|
        ensures r[i].comments[j].text != [] && Text.Trim(r[i].comments[j].text) == r[i].comments[j].text
      {
        if posts[i].id == postId && j < |posts[i].comments| {
          assert r[i].comments[j] == r[i].comments[..|posts[i].comments|][j];
        }
      }
    }
  }
}
