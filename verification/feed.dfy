/** The feed store: newest-first posts, each with a like list that behaves as
    a set and an append-only comment thread. */
module FeedStore {
  import opened Types
  import Seqs

  predicate HasPost(posts: seq<FeedPost>, postId: string) {
    exists i :: 0 <= i < |posts| && posts[i].id == postId
  }

  /** `addPost`: the new post, with no likes and no comments, goes in front. */
  function AddPost(posts: seq<FeedPost>, draft: PostDraft, id: string, timestamp: string): (r: seq<FeedPost>)
    ensures |r| == |posts| + 1 && r[1..] == posts
    ensures r[0].likes == [] && r[0].comments == []
    ensures r[0].id == id && r[0].timestamp == timestamp
    ensures r[0].userId == draft.userId && r[0].username == draft.username
    ensures r[0].book == draft.book && r[0].activityType == draft.activityType
  {
    [FeedPost(id, draft.userId, draft.username, draft.book, draft.activityType, timestamp, [], [])] + posts
  }

  /** `likePost`: every post with the id gains `userId` at the end of its
      likes, unless it is already there. */
  function LikePost(posts: seq<FeedPost>, postId: string, userId: string): (r: seq<FeedPost>)
    ensures |r| == |posts|
    ensures forall i :: 0 <= i < |posts| ==> r[i].id == posts[i].id
    ensures forall i :: 0 <= i < |posts| && posts[i].id != postId ==> r[i] == posts[i]
    ensures forall i :: 0 <= i < |posts| && posts[i].id == postId ==>
      && r[i].(likes := posts[i].likes) == posts[i]
      && posts[i].likes <= r[i].likes
      && |r[i].likes| <= |posts[i].likes| + 1
      && userId in r[i].likes
      && (forall u :: u in r[i].likes <==> u in posts[i].likes || u == userId)
      && (userId in posts[i].likes ==> r[i] == posts[i])
  {
    seq(|posts|, i requires 0 <= i < |posts| =>
      if posts[i].id == postId && userId !in posts[i].likes
      then posts[i].(likes := posts[i].likes + [userId])
      else posts[i])
  }

  /** `unlikePost`: every post with the id loses every occurrence of
      `userId`; the other likes keep their order. */
  function UnlikePost(posts: seq<FeedPost>, postId: string, userId: string): (r: seq<FeedPost>)
    ensures |r| == |posts|
    ensures forall i :: 0 <= i < |posts| ==> r[i].id == posts[i].id
    ensures forall i :: 0 <= i < |posts| && posts[i].id != postId ==> r[i] == posts[i]
    ensures forall i :: 0 <= i < |posts| && posts[i].id == postId ==>
      && r[i].(likes := posts[i].likes) == posts[i]
      && r[i].likes == Seqs.RemoveAll(posts[i].likes, userId)
      && userId !in r[i].likes
    ensures (forall i :: 0 <= i < |posts| ==> userId !in posts[i].likes) ==> r == posts
  {
    seq(|posts|, i requires 0 <= i < |posts| =>
      if posts[i].id == postId
      then posts[i].(likes := Seqs.RemoveAll(posts[i].likes, userId))
      else posts[i])
  }

  /** Unliking touches no other user's like. */
  lemma UnlikeKeepsOthers(posts: seq<FeedPost>, postId: string, userId: string)
    ensures forall i :: 0 <= i < |posts| && posts[i].id == postId ==>
      forall u :: u != userId ==> (u in UnlikePost(posts, postId, userId)[i].likes <==> u in posts[i].likes)
  {
    forall i | 0 <= i < |posts| && posts[i].id == postId {
      Seqs.RemoveAllMembers(posts[i].likes, userId);
    }
  }

  /** The comment `addComment` builds from a draft, an id and a timestamp. */
  function NewComment(draft: CommentDraft, id: string, timestamp: string): Comment {
    Comment(id, draft.userId, draft.username, draft.text, timestamp)
  }

  /** `addComment`: the new comment goes at the end of every post with the
      id; nothing checks the text. */
  function AddComment(posts: seq<FeedPost>, postId: string, draft: CommentDraft, id: string, timestamp: string): (r: seq<FeedPost>)
    ensures |r| == |posts|
    ensures forall i :: 0 <= i < |posts| ==> r[i].id == posts[i].id
    ensures forall i :: 0 <= i < |posts| && posts[i].id != postId ==> r[i] == posts[i]
    ensures forall i :: 0 <= i < |posts| && posts[i].id == postId ==>
      && r[i].(comments := posts[i].comments) == posts[i]
      && |r[i].comments| == |posts[i].comments| + 1
      && r[i].comments[..|posts[i].comments|] == posts[i].comments
      && r[i].comments[|posts[i].comments|] == NewComment(draft, id, timestamp)
    ensures !HasPost(posts, postId) ==> r == posts
  {
    seq(|posts|, i requires 0 <= i < |posts| =>
      if posts[i].id == postId
      then posts[i].(comments := posts[i].comments + [NewComment(draft, id, timestamp)])
      else posts[i])
  }

  function NotPost(postId: string): FeedPost -> bool {
    (p: FeedPost) => p.id != postId
  }

  /** `removePost`: the posts with the id go, with their comments; the others
      stay in order. */
  function RemovePost(posts: seq<FeedPost>, postId: string): (r: seq<FeedPost>)
    ensures !HasPost(r, postId)
    ensures forall p :: p in r <==> p in posts && p.id != postId
    ensures r == Seqs.Filter(posts, NotPost(postId))
  {
    var r := Seqs.Filter(posts, NotPost(postId));
    forall p ensures p in r <==> p in posts && p.id != postId {
      Seqs.FilterMembership(posts, NotPost(postId), p);
    }
    r
  }

  // ---------------------------------------------------------------------
  // Likes behave as a set.

  predicate LikesDistinct(posts: seq<FeedPost>) {
    forall i :: 0 <= i < |posts| ==> Seqs.NoDuplicates(posts[i].likes)
  }

  lemma AddPostKeepsLikesDistinct(posts: seq<FeedPost>, draft: PostDraft, id: string, timestamp: string)
    requires LikesDistinct(posts)
    ensures LikesDistinct(AddPost(posts, draft, id, timestamp))
  {
    var r := AddPost(posts, draft, id, timestamp);
    forall i | 0 <= i < |r| ensures Seqs.NoDuplicates(r[i].likes) {
      if i > 0 {
        assert r[i] == posts[i - 1];
      }
    }
  }

  lemma LikeKeepsLikesDistinct(posts: seq<FeedPost>, postId: string, userId: string)
    requires LikesDistinct(posts)
    ensures LikesDistinct(LikePost(posts, postId, userId))
  {
    var r := LikePost(posts, postId, userId);
    forall i | 0 <= i < |posts| ensures Seqs.NoDuplicates(r[i].likes) {
      if posts[i].id == postId && userId !in posts[i].likes {
        Seqs.AppendFreshNoDuplicates(posts[i].likes, userId);
      }
    }
  }

  lemma UnlikeKeepsLikesDistinct(posts: seq<FeedPost>, postId: string, userId: string)
    requires LikesDistinct(posts)
    ensures LikesDistinct(UnlikePost(posts, postId, userId))
  {
    var r := UnlikePost(posts, postId, userId);
    forall i | 0 <= i < |posts| ensures Seqs.NoDuplicates(r[i].likes) {
      if posts[i].id == postId {
        Seqs.RemoveAllNoDuplicates(posts[i].likes, userId);
      }
    }
  }

  lemma AddCommentKeepsLikesDistinct(posts: seq<FeedPost>, postId: string, draft: CommentDraft, id: string, timestamp: string)
    requires LikesDistinct(posts)
    ensures LikesDistinct(AddComment(posts, postId, draft, id, timestamp))
  {
  }

  lemma RemovePostKeepsLikesDistinct(posts: seq<FeedPost>, postId: string)
    requires LikesDistinct(posts)
    ensures LikesDistinct(RemovePost(posts, postId))
  {
    var r := RemovePost(posts, postId);
    forall i | 0 <= i < |r| ensures Seqs.NoDuplicates(r[i].likes) {
      assert r[i] in posts;
    }
  }

  /** A second identical like changes nothing. */
  lemma LikeIdempotent(posts: seq<FeedPost>, postId: string, userId: string)
    ensures LikePost(LikePost(posts, postId, userId), postId, userId) == LikePost(posts, postId, userId)
  {
  }

  /** Unliking a post whose likes do not hold the user is a no-op. */
  lemma UnlikeAbsentNoop(posts: seq<FeedPost>, postId: string, userId: string)
    requires forall i :: 0 <= i < |posts| && posts[i].id == postId ==> userId !in posts[i].likes
    ensures UnlikePost(posts, postId, userId) == posts
  {
    var r := UnlikePost(posts, postId, userId);
    forall i | 0 <= i < |posts| ensures r[i] == posts[i] {
      if posts[i].id == postId {
        assert r[i].likes == posts[i].likes;
      }
    }
  }

  /** After `removePost`, commenting on that id is a no-op: no orphaned
      thread can grow back. */
  lemma CommentAfterRemoveNoop(posts: seq<FeedPost>, postId: string, draft: CommentDraft, id: string, timestamp: string)
    ensures AddComment(RemovePost(posts, postId), postId, draft, id, timestamp) == RemovePost(posts, postId)
  {
  }
}
