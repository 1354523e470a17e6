/**
 * Two places where the row checks of the posts models let a store reach a state the models
 * themselves call invalid, each next to the corrected check that rules it out; and two
 * consequences of how the tag-count receiver counts, which the source accepts as they are.
 */
module PostsFindings {
  import opened Common
  import opened Identity
  import opened PostsModels
  import opened PostsStore
  import StoreInvariant
  import PostSignals

  /**
   * As written, `Comment.clean` only looks at the new parent. A top-level comment `a` that
   * already has a reply `b` can be made a reply of another top-level comment `t`; the reply
   * `b` then replies to a reply. The corrected check refuses exactly this change.
   */
  lemma ReparentingCreatesNestedReply(s: Store, a: Id, b: Id, t: Id)
    requires Valid(s)
    requires a in s.comments && b in s.comments && t in s.comments && a != t
    requires s.comments[b].replyTo == Some(a) && s.comments[t].replyTo.None?
    requires Published(s, s.comments[a].post) && s.comments[a].owner.Some?
    ensures var c := s.comments[a].(replyTo := Some(t));
      && CommentFullCleanAsWritten(s, Some(a), c).Ok?
      && !RepliesFlat(s.comments[a := c])
      && CommentFullClean(s, Some(a), c) == Invalid(ReplyWithRepliesMessage)
  {
    var c := s.comments[a].(replyTo := Some(t));
    assert CommentFieldsCheck(s.comments[a], true).Ok?;
    assert !IsReply(s.comments, t);
    assert HasReplies(s.comments, a);
    var after := s.comments[a := c];
    assert after[b].replyTo == Some(a) && IsReply(after, a);
  }

  /** Saving a stored post again, unchanged, is accepted and changes nothing. */
  lemma ResavingStoredPost(s: Store, id: Id)
    requires Valid(s) && id in s.posts
    ensures SavePost(s, Some(id), s.posts[id]) == Success(s)
  {
    var p := s.posts[id];
    assert p.(tags := p.tags) == p;
    assert s.posts[id := p] == s.posts;
    assert PostRowOk(p);
  }

  /**
   * As written, the owner foreign keys are nullable and set to null when the user is deleted,
   * but not `blank=True`, so `full_clean()` refuses the row from then on: the post can no
   * longer be saved, not even unchanged. With a blank owner allowed, it can.
   */
  lemma OrphanedPostRejected(s: Store, u: UserId, id: Id)
    requires Valid(s) && id in s.posts && s.posts[id].owner == Some(u)
    ensures var t := DeleteUser(s, u);
      && PostFullClean(t.users, t.posts[id], OwnerBlankAsWritten) == Invalid(Blank)
      && SavePost(t, Some(id), t.posts[id]) == Success(t)
  {
    var t := DeleteUser(s, u);
    assert PostRowOk(s.posts[id]);
    StoreInvariant.DeleteUserKeeps(s, u);
    ResavingStoredPost(t, id);
  }

  /** The same holds for a comment whose owner was deleted. */
  lemma OrphanedCommentRejected(s: Store, u: UserId, id: Id)
    requires Valid(s) && id in s.comments && s.comments[id].owner == Some(u)
    ensures var t := DeleteUser(s, u);
      && CommentFullCleanAsWritten(t, Some(id), t.comments[id]) == Invalid(Blank)
      && CommentFieldsCheck(t.comments[id], true).Ok?
  {
    assert CommentFieldsCheck(s.comments[id], true).Ok?;
  }

  /**
   * `set` removes before it adds, so replacing the only tag of a published post by another
   * tag is refused, although the post would end with one tag.
   */
  lemma ReplacingOnlyTagRejected(s: Store, post: Id, a: Id, b: Id)
    requires post in s.posts && IsPublished(s, post)
    requires s.posts[post].tags == {a} && b in s.tags && a != b
    ensures SetTags(s, post, {b}).Failure?
    ensures RemoveTags(s, post, {a}) == Failure(PostSignals.TooFewTagsMessage)
  {
    assert s.posts[post].tags - {b} == {a};
    assert s.posts[post].tags * {b} == {};
  }

  /**
   * `pre_remove` counts every requested id, present or not: asking a published post with
   * tags `x` and `y` to drop `y` and an absent `z` is refused, though `x` would remain.
   */
  lemma AbsentIdsCountAgainstRemoval(s: Store, post: Id, x: Id, y: Id, z: Id)
    requires post in s.posts && IsPublished(s, post)
    requires s.posts[post].tags == {x, y} && x != y && z != x && z != y
    ensures RemoveTags(s, post, {y, z}).Failure?
    ensures s.posts[post].tags - {y, z} == {x}
  {
    assert |{y, z}| == 2;
    assert |{x, y}| == 2;
  }
}
