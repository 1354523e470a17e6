/**
 * Every write of `PostsStore` keeps the store invariant `PostsModels.Valid`: a row that
 * reaches the tables has passed its checks, references stored rows, replies are one level
 * deep, reactions are unique per owner and target, and no post has more than five tags.
 */
module StoreInvariant {
  import opened Common
  import opened Identity
  import opened PostsModels
  import opened PostsStore

  /* ------------------------------------------- more rows to point at */

  lemma PostsOkMore(users: set<UserId>, tags: set<Id>, moreTags: set<Id>, posts: map<Id, Post>)
    requires PostsOk(users, tags, posts) && tags <= moreTags
    ensures PostsOk(users, moreTags, posts)
  {
  }

  lemma CommentsOkMore(users: set<UserId>, posts: set<Id>, morePosts: set<Id>, comments: map<Id, Comment>)
    requires CommentsOk(users, posts, comments) && posts <= morePosts
    ensures CommentsOk(users, morePosts, comments)
  {
  }

  lemma ReactionsOkMore(users: set<UserId>, posts: set<Id>, morePosts: set<Id>, comments: set<Id>, moreComments: set<Id>,
                        reactions: map<Id, Reaction>)
    requires ReactionsOk(users, posts, comments, reactions) && posts <= morePosts && comments <= moreComments
    ensures ReactionsOk(users, morePosts, moreComments, reactions)
  {
  }

  /* --------------------------------------------------------------- tags */

  /** Writing a tag whose title no other tag has keeps the tags table valid. */
  lemma TagsOkWrite(tags: map<Id, Tag>, k: Id, title: string)
    requires TagsOk(tags) && TagShapeOk(title)
    requires forall id :: id in tags && id != k ==> tags[id].title != title
    ensures TagsOk(tags[k := Tag(title)])
  {
    var t := tags[k := Tag(title)];
    forall a, b | a in t && b in t && a != b
      ensures t[a].title != t[b].title
    {
      if a != k && b != k {
        assert tags[a].title != tags[b].title;
      }
    }
  }

  /** A valid store whose tags table is replaced by a valid one with at least the same keys. */
  lemma ValidAfterTagsChange(s: Store, tags: map<Id, Tag>, next: Id)
    requires Valid(s) && s.nextId <= next && KeysBelow(tags.Keys, next)
    requires TagsOk(tags) && s.tags.Keys <= tags.Keys
    ensures Valid(s.(tags := tags, nextId := next))
  {
    PostsOkMore(s.users, s.tags.Keys, tags.Keys, s.posts);
  }

  lemma CreateTagKeeps(s: Store, title: string)
    requires Valid(s)
    ensures Keeps(CreateTag(s, title))
  {
    var r := CreateTag(s, title);
    if r.Success? {
      TagsOkWrite(s.tags, s.nextId, title);
      ValidAfterTagsChange(s, s.tags[s.nextId := Tag(title)], s.nextId + 1);
    }
  }

  lemma RenameTagKeeps(s: Store, id: Id, title: string)
    requires Valid(s)
    ensures Keeps(RenameTag(s, id, title))
  {
    var r := RenameTag(s, id, title);
    if r.Success? {
      TagsOkWrite(s.tags, id, title);
      ValidAfterTagsChange(s, s.tags[id := Tag(title)], s.nextId);
      assert r.value == s.(tags := s.tags[id := Tag(title)], nextId := s.nextId);
    }
  }

  lemma SubsetSize(a: set<Id>, b: set<Id>)
    requires a <= b
    ensures |a| <= |b|
  {
    assert b == a + (b - a);
  }

  /** Dropping tags from a post row keeps it a valid row. */
  lemma FewerTagsRowOk(p: Post, tags: set<Id>)
    requires PostRowOk(p) && tags <= p.tags
    ensures PostRowOk(p.(tags := tags))
  {
    SubsetSize(tags, p.tags);
  }

  lemma DeleteTagKeeps(s: Store, id: Id)
    requires Valid(s)
    ensures Keeps(DeleteTag(s, id))
  {
    var r := DeleteTag(s, id);
    if r.Success? {
      var t := r.value;
      forall k | k in t.posts
        ensures PostRowOk(t.posts[k]) && (t.posts[k].owner.Some? ==> t.posts[k].owner.value in t.users)
          && t.posts[k].tags <= t.tags.Keys
      {
        FewerTagsRowOk(s.posts[k], s.posts[k].tags - {id});
      }
      assert PostsOk(t.users, t.tags.Keys, t.posts);
      assert t.posts.Keys == s.posts.Keys;
    }
  }

  /* -------------------------------------------------------------- posts */

  /** Writing one valid post row into a valid posts table. */
  lemma PostsOkWrite(users: set<UserId>, tags: set<Id>, posts: map<Id, Post>, k: Id, row: Post)
    requires PostsOk(users, tags, posts)
    requires PostRowOk(row) && (row.owner.Some? ==> row.owner.value in users) && row.tags <= tags
    ensures PostsOk(users, tags, posts[k := row])
  {
  }

  /** The row `SavePost` writes passes the row checks. */
  lemma SavedPostRowOk(s: Store, self: Option<Id>, p: Post)
    requires Valid(s) && (self.Some? ==> self.value in s.posts)
    requires PostFullClean(s.users, p, true).Ok?
    ensures var row := p.(tags := if self.Some? then s.posts[self.value].tags else {});
      PostRowOk(row) && (row.owner.Some? ==> row.owner.value in s.users) && row.tags <= s.tags.Keys
  {
    var row := p.(tags := if self.Some? then s.posts[self.value].tags else {});
    assert PostFieldsCheck(row, true) == PostFieldsCheck(p, true);
    assert PostClean(row) == PostClean(p);
  }

  /** A valid store whose posts table gains a valid row under a key below the next id. */
  lemma ValidAfterPostWrite(s: Store, k: Id, row: Post, next: Id)
    requires Valid(s) && s.nextId <= next && k < next
    requires PostsOk(s.users, s.tags.Keys, s.posts[k := row])
    ensures Valid(s.(posts := s.posts[k := row], nextId := next))
  {
    CommentsOkMore(s.users, s.posts.Keys, s.posts[k := row].Keys, s.comments);
    ReactionsOkMore(s.users, s.posts.Keys, s.posts[k := row].Keys, s.comments.Keys, s.comments.Keys, s.reactions);
  }

  lemma SavePostKeeps(s: Store, self: Option<Id>, p: Post)
    requires Valid(s)
    ensures Keeps(SavePost(s, self, p))
  {
    var r := SavePost(s, self, p);
    if r.Success? {
      SavedPostRowOk(s, self, p);
      var row := p.(tags := if self.Some? then s.posts[self.value].tags else {});
      var k := if self.Some? then self.value else s.nextId;
      var next := if self.Some? then s.nextId else s.nextId + 1;
      if self.Some? {
        assert self.value in s.posts;
      }
      PostsOkWrite(s.users, s.tags.Keys, s.posts, k, row);
      ValidAfterPostWrite(s, k, row, next);
      assert r.value == s.(posts := s.posts[k := row], nextId := next);
    }
  }

  /** A tag-set change leaves every part of the invariant but the changed post's tags alone. */
  lemma WithTagsKeeps(s: Store, post: Id, tags: set<Id>)
    requires Valid(s) && post in s.posts
    requires tags <= s.tags.Keys && |tags| <= 5
    ensures Valid(WithTags(s, post, tags))
  {
    var t := WithTags(s, post, tags);
    assert PostRowOk(t.posts[post]);
  }

  lemma AddTagsKeeps(s: Store, post: Id, ids: set<Id>)
    requires Valid(s)
    ensures Keeps(AddTags(s, post, ids))
  {
    if AddTags(s, post, ids).Success? {
      if ids == {} {
        assert s.posts[post].tags + ids == s.posts[post].tags;
      }
      WithTagsKeeps(s, post, s.posts[post].tags + ids);
    }
  }

  lemma RemoveTagsKeeps(s: Store, post: Id, ids: set<Id>)
    requires Valid(s)
    ensures Keeps(RemoveTags(s, post, ids))
  {
    if RemoveTags(s, post, ids).Success? {
      SubsetSize(s.posts[post].tags - ids, s.posts[post].tags);
      WithTagsKeeps(s, post, s.posts[post].tags - ids);
    }
  }

  lemma ClearTagsKeeps(s: Store, post: Id)
    requires Valid(s)
    ensures Keeps(ClearTags(s, post))
  {
    if post in s.posts {
      WithTagsKeeps(s, post, {});
    }
  }

  lemma SetTagsKeeps(s: Store, post: Id, ids: set<Id>)
    requires Valid(s)
    ensures Keeps(SetTags(s, post, ids))
  {
    if SetTags(s, post, ids).Success? {
      if ids - s.posts[post].tags == {} {
        forall x | x in ids
          ensures x in s.posts[post].tags
        {
          assert x !in ids - s.posts[post].tags;
        }
        SubsetSize(ids, s.posts[post].tags);
      }
      WithTagsKeeps(s, post, ids);
    }
  }

  /* ----------------------------------------------------------- comments */

  /** Writing one comment row that the corrected checks accepted keeps the comments table valid. */
  lemma CommentsOkWrite(users: set<UserId>, posts: set<Id>, comments: map<Id, Comment>, k: Id, c: Comment)
    requires CommentsOk(users, posts, comments)
    requires CommentFieldsCheck(c, true).Ok? && CommentRefsOk(users, posts, comments.Keys, c)
    requires c.replyTo.Some? ==> c.replyTo != Some(k) && !IsReply(comments, c.replyTo.value) && !HasReplies(comments, k)
    ensures CommentsOk(users, posts, comments[k := c])
  {
    var t := comments[k := c];
    forall id | id in t && t[id].replyTo.Some?
      ensures !IsReply(t, t[id].replyTo.value)
    {
      var y := t[id].replyTo.value;
    }
  }

  /** A fresh key has no replies and is no comment's parent. */
  lemma FreshKeyHasNoReplies(s: Store)
    requires Valid(s)
    ensures !HasReplies(s.comments, s.nextId)
  {
  }

  /** What the corrected checks establish about a comment accepted for key `k`. */
  lemma CommentAccepted(s: Store, self: Option<Id>, k: Id, c: Comment)
    requires CommentFullClean(s, self, c).Ok?
    requires self.Some? ==> k == self.value
    requires self.None? ==> k !in s.comments && !HasReplies(s.comments, k)
    ensures CommentFieldsCheck(c, true).Ok? && CommentRefsOk(s.users, s.posts.Keys, s.comments.Keys, c)
    ensures c.replyTo.Some? ==> c.replyTo != Some(k) && !IsReply(s.comments, c.replyTo.value) && !HasReplies(s.comments, k)
  {
  }

  /** A valid store whose comments table gains a valid row under a key below the next id. */
  lemma ValidAfterCommentWrite(s: Store, k: Id, c: Comment, next: Id)
    requires Valid(s) && s.nextId <= next && k < next
    requires CommentsOk(s.users, s.posts.Keys, s.comments[k := c])
    ensures Valid(s.(comments := s.comments[k := c], nextId := next))
  {
    ReactionsOkMore(s.users, s.posts.Keys, s.posts.Keys, s.comments.Keys, s.comments[k := c].Keys, s.reactions);
  }

  lemma SaveCommentKeeps(s: Store, self: Option<Id>, c: Comment)
    requires Valid(s)
    ensures Keeps(SaveComment(s, self, c))
  {
    var r := SaveComment(s, self, c);
    if r.Success? {
      var k := if self.Some? then self.value else s.nextId;
      var next := if self.Some? then s.nextId else s.nextId + 1;
      if self.None? {
        assert s.nextId !in s.comments;
        FreshKeyHasNoReplies(s);
      } else {
        assert self.value in s.comments;
      }
      CommentAccepted(s, self, k, c);
      CommentsOkWrite(s.users, s.posts.Keys, s.comments, k, c);
      ValidAfterCommentWrite(s, k, c, next);
      assert r.value == s.(comments := s.comments[k := c], nextId := next);
    }
  }

  /* ---------------------------------------------------------- reactions */

  /** Writing one reaction row that `ReactionFullClean` accepted keeps the reactions table valid. */
  lemma ReactionsOkWrite(users: set<UserId>, posts: set<Id>, comments: set<Id>, reactions: map<Id, Reaction>,
                         self: Option<Id>, k: Id, x: Reaction)
    requires ReactionsOk(users, posts, comments, reactions)
    requires self.Some? ==> k == self.value
    requires self.None? ==> k !in reactions
    requires IsReactionType(x.kind) && ExactlyOneTarget(x) && ReactionRefsOk(users, posts, comments, x)
    requires !SamePostTaken(reactions, self, x) && !SameCommentTaken(reactions, self, x)
    ensures ReactionsOk(users, posts, comments, reactions[k := x])
  {
    var t := reactions[k := x];
    forall a, b | a in t && b in t && a != b && t[a].owner == t[b].owner
      ensures (t[a].post.Some? ==> t[a].post != t[b].post) && (t[a].comment.Some? ==> t[a].comment != t[b].comment)
    {
      if a == k {
        assert b in reactions && Some(b) != self;
      } else if b == k {
        assert a in reactions && Some(a) != self;
      }
    }
  }

  /** A valid store whose reactions table is replaced by a valid one with keys below the next id. */
  lemma ValidAfterReactionsChange(s: Store, reactions: map<Id, Reaction>, next: Id)
    requires Valid(s) && s.nextId <= next && KeysBelow(reactions.Keys, next)
    requires ReactionsOk(s.users, s.posts.Keys, s.comments.Keys, reactions)
    ensures Valid(s.(reactions := reactions, nextId := next))
  {
  }

  /** What `ReactionFullClean` establishes about an accepted reaction. */
  lemma ReactionAccepted(s: Store, self: Option<Id>, x: Reaction)
    requires ReactionFullClean(s, self, x).Ok?
    ensures IsReactionType(x.kind) && ExactlyOneTarget(x) && ReactionRefsOk(s.users, s.posts.Keys, s.comments.Keys, x)
    ensures !SamePostTaken(s.reactions, self, x) && !SameCommentTaken(s.reactions, self, x)
  {
  }

  /** Writing an accepted reaction under its key keeps the store valid. */
  lemma ReactionWriteKeeps(s: Store, self: Option<Id>, k: Id, x: Reaction, next: Id)
    requires Valid(s)
    requires IsReactionType(x.kind) && ExactlyOneTarget(x) && ReactionRefsOk(s.users, s.posts.Keys, s.comments.Keys, x)
    requires !SamePostTaken(s.reactions, self, x) && !SameCommentTaken(s.reactions, self, x)
    requires self.Some? ==> k == self.value && k in s.reactions && next == s.nextId
    requires self.None? ==> k == s.nextId && next == s.nextId + 1
    ensures Valid(s.(reactions := s.reactions[k := x], nextId := next))
  {
    if self.None? {
      assert k !in s.reactions;
    }
    ReactionsOkWrite(s.users, s.posts.Keys, s.comments.Keys, s.reactions, self, k, x);
    ValidAfterReactionsChange(s, s.reactions[k := x], next);
  }

  lemma SaveReactionKeeps(s: Store, self: Option<Id>, x: Reaction)
    requires Valid(s)
    ensures Keeps(SaveReaction(s, self, x))
  {
    var r := SaveReaction(s, self, x);
    if r.Success? {
      var k := if self.Some? then self.value else s.nextId;
      var next := if self.Some? then s.nextId else s.nextId + 1;
      ReactionAccepted(s, self, x);
      ReactionWriteKeeps(s, self, k, x, next);
      assert r.value == s.(reactions := s.reactions[k := x], nextId := next);
    }
  }

  lemma DeleteReactionKeeps(s: Store, id: Id)
    requires Valid(s)
    ensures Keeps(DeleteReaction(s, id))
  {
    if id in s.reactions {
      var fewer := s.reactions - {id};
      ReactionsOkFewer(s.users, s.posts.Keys, s.comments.Keys, s.reactions, s.posts.Keys, s.comments.Keys, fewer);
      ValidAfterReactionsChange(s, fewer, s.nextId);
      assert DeleteReaction(s, id).value == s.(reactions := fewer, nextId := s.nextId);
    }
  }

  /* ----------------------------------------------------------- cascades */

  /** A subset of the reactions, all of whose targets remain, is a valid reactions table. */
  lemma ReactionsOkFewer(users: set<UserId>, posts: set<Id>, comments: set<Id>, reactions: map<Id, Reaction>,
                         fewerPosts: set<Id>, fewerComments: set<Id>, fewer: map<Id, Reaction>)
    requires ReactionsOk(users, posts, comments, reactions)
    requires forall k :: k in fewer ==> k in reactions && fewer[k] == reactions[k]
    requires forall k :: k in fewer && fewer[k].post.Some? ==> fewer[k].post.value in fewerPosts
    requires forall k :: k in fewer && fewer[k].comment.Some? ==> fewer[k].comment.value in fewerComments
    ensures ReactionsOk(users, fewerPosts, fewerComments, fewer)
  {
  }

  /** A subset of the comments, all of whose parents remain, is a valid comments table. */
  lemma CommentsOkFewer(users: set<UserId>, posts: set<Id>, comments: map<Id, Comment>,
                        fewerPosts: set<Id>, fewer: map<Id, Comment>)
    requires CommentsOk(users, posts, comments)
    requires forall c :: c in fewer ==> c in comments && fewer[c] == comments[c]
    requires forall c :: c in fewer ==> fewer[c].post in fewerPosts
    requires forall c :: c in fewer && fewer[c].replyTo.Some? ==> fewer[c].replyTo.value in fewer
    ensures CommentsOk(users, fewerPosts, fewer)
  {
    forall c | c in fewer && fewer[c].replyTo.Some?
      ensures !IsReply(fewer, fewer[c].replyTo.value)
    {
      assert !IsReply(comments, comments[c].replyTo.value);
    }
  }

  lemma DeleteCommentKeeps(s: Store, id: Id)
    requires Valid(s)
    ensures Keeps(DeleteComment(s, id))
  {
    var r := DeleteComment(s, id);
    if r.Success? {
      var t := r.value;
      forall c | c in t.comments && t.comments[c].replyTo.Some?
        ensures t.comments[c].replyTo.value in t.comments
      {
        var y := t.comments[c].replyTo.value;
        assert y in s.comments && !IsReply(s.comments, y);
        FlatCommentCascade(s, id, c);
        FlatCommentCascade(s, id, y);
      }
      CommentsOkFewer(s.users, s.posts.Keys, s.comments, s.posts.Keys, t.comments);
      ReactionsOkFewer(s.users, s.posts.Keys, s.comments.Keys, s.reactions, s.posts.Keys, t.comments.Keys, t.reactions);
    }
  }

  /** What stays after a post is deleted still points at rows that stay. */
  lemma DeletePostRefs(s: Store, id: Id, t: Store)
    requires Valid(s) && DeletePost(s, id) == Success(t)
    ensures forall c :: c in t.comments ==> t.comments[c].post in t.posts
    ensures forall c :: c in t.comments && t.comments[c].replyTo.Some? ==> t.comments[c].replyTo.value in t.comments
    ensures forall k :: k in t.reactions && t.reactions[k].post.Some? ==> t.reactions[k].post.value in t.posts
    ensures forall k :: k in t.reactions && t.reactions[k].comment.Some? ==> t.reactions[k].comment.value in t.comments
  {
    DeletePostCommentRefs(s, id, t);
    DeletePostReactionRefs(s, id, t);
  }

  /** The comments that stay after a post is deleted are on posts and reply to comments that stay. */
  lemma DeletePostCommentRefs(s: Store, id: Id, t: Store)
    requires CommentsOk(s.users, s.posts.Keys, s.comments) && DeletePost(s, id) == Success(t)
    ensures forall c :: c in t.comments ==> t.comments[c].post in t.posts
    ensures forall c :: c in t.comments && t.comments[c].replyTo.Some? ==> t.comments[c].replyTo.value in t.comments
  {
    forall c | c in t.comments && t.comments[c].replyTo.Some?
      ensures t.comments[c].replyTo.value in t.comments
    {
      var y := t.comments[c].replyTo.value;
      assert y in s.comments && !IsReply(s.comments, y);
      FlatPostCascade(s, id, c);
      FlatPostCascade(s, id, y);
    }
  }

  /** The reactions that stay after a post is deleted aim at a post or comment that stays. */
  lemma DeletePostReactionRefs(s: Store, id: Id, t: Store)
    requires ReactionsOk(s.users, s.posts.Keys, s.comments.Keys, s.reactions) && DeletePost(s, id) == Success(t)
    ensures forall k :: k in t.reactions && t.reactions[k].post.Some? ==> t.reactions[k].post.value in t.posts
    ensures forall k :: k in t.reactions && t.reactions[k].comment.Some? ==> t.reactions[k].comment.value in t.comments
  {
  }

  lemma DeletePostKeeps(s: Store, id: Id)
    requires Valid(s)
    ensures Keeps(DeletePost(s, id))
  {
    var r := DeletePost(s, id);
    if r.Success? {
      var t := r.value;
      DeletePostRefs(s, id, t);
      CommentsOkFewer(s.users, s.posts.Keys, s.comments, t.posts.Keys, t.comments);
      ReactionsOkFewer(s.users, s.posts.Keys, s.comments.Keys, s.reactions, t.posts.Keys, t.comments.Keys, t.reactions);
      assert PostsOk(t.users, t.tags.Keys, t.posts);
    }
  }

  /** Setting a post's owner to null keeps it a valid row. */
  lemma OrphanedRowOk(p: Post)
    requires PostRowOk(p)
    ensures PostRowOk(p.(owner := None))
  {
  }

  lemma DeleteUserPostsOk(s: Store, u: UserId)
    requires PostsOk(s.users, s.tags.Keys, s.posts)
    ensures var t := DeleteUser(s, u); PostsOk(t.users, t.tags.Keys, t.posts)
  {
    var t := DeleteUser(s, u);
    forall k | k in t.posts
      ensures PostRowOk(t.posts[k]) && (t.posts[k].owner.Some? ==> t.posts[k].owner.value in t.users)
        && t.posts[k].tags <= t.tags.Keys
    {
      if s.posts[k].owner == Some(u) {
        OrphanedRowOk(s.posts[k]);
      }
    }
  }

  /** A comment row with its owner set to null, where that owner was `u`. */
  lemma OrphanedCommentOk(users: set<UserId>, posts: set<Id>, comments: set<Id>, c: Comment, u: UserId)
    requires CommentFieldsCheck(c, true).Ok? && CommentRefsOk(users, posts, comments, c)
    ensures var d := if c.owner == Some(u) then c.(owner := None) else c;
      CommentFieldsCheck(d, true).Ok? && CommentRefsOk(users - {u}, posts, comments, d)
  {
  }

  lemma DeleteUserCommentsOk(s: Store, u: UserId)
    requires CommentsOk(s.users, s.posts.Keys, s.comments)
    ensures var t := DeleteUser(s, u); CommentsOk(t.users, t.posts.Keys, t.comments)
  {
    var t := DeleteUser(s, u);
    forall c | c in t.comments
      ensures CommentFieldsCheck(t.comments[c], true).Ok? && CommentRefsOk(t.users, t.posts.Keys, t.comments.Keys, t.comments[c])
    {
      OrphanedCommentOk(s.users, s.posts.Keys, s.comments.Keys, s.comments[c], u);
    }
    assert RepliesFlat(t.comments) by {
      forall c | c in t.comments && t.comments[c].replyTo.Some?
        ensures !IsReply(t.comments, t.comments[c].replyTo.value)
      {
        assert !IsReply(s.comments, s.comments[c].replyTo.value);
      }
    }
  }

  lemma DeleteUserReactionsOk(s: Store, u: UserId)
    requires ReactionsOk(s.users, s.posts.Keys, s.comments.Keys, s.reactions)
    ensures var t := DeleteUser(s, u); ReactionsOk(t.users, t.posts.Keys, t.comments.Keys, t.reactions)
  {
    var t := DeleteUser(s, u);
    ReactionsOkFewer(s.users, s.posts.Keys, s.comments.Keys, s.reactions, t.posts.Keys, t.comments.Keys, t.reactions);
    forall k | k in t.reactions
      ensures ReactionRefsOk(t.users, t.posts.Keys, t.comments.Keys, t.reactions[k])
    {
      assert ReactionRefsOk(s.users, t.posts.Keys, t.comments.Keys, t.reactions[k]);
    }
  }

  lemma DeleteUserKeeps(s: Store, u: UserId)
    requires Valid(s)
    ensures Valid(DeleteUser(s, u))
  {
    var t := DeleteUser(s, u);
    DeleteUserPostsOk(s, u);
    DeleteUserCommentsOk(s, u);
    DeleteUserReactionsOk(s, u);
    assert t.reactions.Keys <= s.reactions.Keys;
  }
}
