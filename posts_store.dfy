/**
 * Writes to the posts tables: saving a row (which runs `full_clean()` first), changing a
 * post's tag set through the many-to-many manager (which sends `m2m_changed`), and deleting
 * rows with their `on_delete` consequences. Every operation either refuses and leaves the
 * store as it was, or succeeds and keeps `Valid`.
 */
module PostsStore {
  import opened Common
  import opened Identity
  import opened PostsModels
  import PostSignals

  const NotFoundMessage := "Not found."
  const UnknownTagMessage := "Object does not exist."

  /** A result that leaves nothing invalid behind. */
  predicate Keeps(r: Result<Store>) {
    r.Success? ==> Valid(r.value)
  }

  /** The store before any row is written. */
  function EmptyStore(users: set<UserId>): (s: Store)
    ensures Valid(s)
    ensures s.users == users && s.posts == map[] && s.comments == map[]
  {
    Store(users, map[], map[], map[], map[], map[], 0)
  }

  /* --------------------------------------------------------------- tags */

  /** Creating a tag: the title checks against every existing title, then a fresh key. */
  function CreateTag(s: Store, title: string): (r: Result<Store>)
    ensures r.Success? <==> TagShapeOk(title) && forall id :: id in s.tags ==> s.tags[id].title != title
    ensures r.Failure? ==> r.msg == TagTitleCheck(title, OtherTitles(s, None)).msg
    ensures r.Success? ==> r.value == s.(tags := s.tags[s.nextId := Tag(title)], nextId := s.nextId + 1)
  {
    var o := TagTitleCheck(title, OtherTitles(s, None));
    if o.Invalid? then Failure(o.msg)
    else Success(s.(tags := s.tags[s.nextId := Tag(title)], nextId := s.nextId + 1))
  }

  /** Renaming a tag: its own current title does not count as taken. */
  function RenameTag(s: Store, id: Id, title: string): (r: Result<Store>)
    ensures r.Success? <==>
      id in s.tags && TagShapeOk(title) && forall k :: k in s.tags && k != id ==> s.tags[k].title != title
    ensures r.Success? ==> r.value == s.(tags := s.tags[id := Tag(title)])
  {
    if id !in s.tags then Failure(NotFoundMessage)
    else
      var o := TagTitleCheck(title, OtherTitles(s, Some(id)));
      if o.Invalid? then Failure(o.msg)
      else Success(s.(tags := s.tags[id := Tag(title)]))
  }

  /**
   * Deleting a tag deletes its rows of the post-tag link table; no `m2m_changed` is sent, so a
   * published post may be left with no tag.
   */
  function DeleteTag(s: Store, id: Id): (r: Result<Store>)
    ensures r.Success? <==> id in s.tags
    ensures r.Success? ==>
      && r.value.tags == s.tags - {id}
      && r.value.posts.Keys == s.posts.Keys
      && (forall k :: k in s.posts ==> r.value.posts[k] == s.posts[k].(tags := s.posts[k].tags - {id}))
      && r.value.comments == s.comments && r.value.reactions == s.reactions
      && r.value.users == s.users && r.value.profiles == s.profiles && r.value.nextId == s.nextId
  {
    if id !in s.tags then Failure(NotFoundMessage)
    else Success(s.(
      tags := s.tags - {id},
      posts := map k | k in s.posts :: s.posts[k].(tags := s.posts[k].tags - {id})))
  }

  /* -------------------------------------------------------------- posts */

  /**
   * `Post.save()` for a new row (`self` None) or the row under `self`. The row's tag set is
   * not part of a row write: a new post starts with none and an update keeps the stored ones.
   * The owner may be null (see `PostsModels.OwnerBlankAsWritten`).
   */
  function SavePost(s: Store, self: Option<Id>, p: Post): (r: Result<Store>)
    ensures self.Some? && self.value !in s.posts ==> r == Failure(NotFoundMessage)
    ensures r.Success? <==>
      && (self.Some? ==> self.value in s.posts)
      && PostFullClean(s.users, p, true).Ok?
    ensures r.Success? && self.Some? ==>
      r.value == s.(posts := s.posts[self.value := p.(tags := s.posts[self.value].tags)])
    ensures r.Success? && self.None? ==>
      r.value == s.(posts := s.posts[s.nextId := p.(tags := {})], nextId := s.nextId + 1)
  {
    if self.Some? && self.value !in s.posts then Failure(NotFoundMessage)
    else
      var row := p.(tags := if self.Some? then s.posts[self.value].tags else {});
      var o := PostFullClean(s.users, row, true);
      if o.Invalid? then Failure(o.msg)
      else if self.Some? then Success(s.(posts := s.posts[self.value := row]))
      else Success(s.(posts := s.posts[s.nextId := row], nextId := s.nextId + 1))
  }

  /** The tag set of a post replaced, nothing else changed. */
  function WithTags(s: Store, post: Id, tags: set<Id>): (t: Store)
    requires post in s.posts
    ensures t.posts.Keys == s.posts.Keys && t.posts[post].tags == tags
  {
    s.(posts := s.posts[post := s.posts[post].(tags := tags)])
  }

  predicate IsPublished(s: Store, post: Id)
    requires post in s.posts
  {
    s.posts[post].publishDate.Some?
  }

  lemma UnionSize(a: set<Id>, b: set<Id>)
    ensures |a + b| == |a| + |b - a|
  {
    assert a + b == a + (b - a);
    assert a * (b - a) == {};
  }

  /** The sizes `set` works with: what stays after the removal, and what the addition brings. */
  lemma TagChangeSizes(current: set<Id>, ids: set<Id>)
    ensures |current| - |current - ids| == |current * ids|
    ensures |current * ids| + |ids - current| == |ids|
    ensures |current * ids| == 0 <==> current * ids == {}
  {
    IntersectionSize(current, ids);
    assert current * ids + (ids - current) == ids;
    assert (ids - current) - current * ids == ids - current;
    UnionSize(current * ids, ids - current);
  }

  lemma IntersectionSize(a: set<Id>, b: set<Id>)
    ensures |a| - |a - b| == |a * b|
  {
    assert a == (a - b) + (a * b);
    assert (a - b) * (a * b) == {};
  }

  /**
   * `post.tags.add(*ids)`: with no ids nothing happens; otherwise `pre_add` is sent with the
   * ids not yet present, and the receiver may refuse.
   */
  function AddTags(s: Store, post: Id, ids: set<Id>): (r: Result<Store>)
    ensures r.Success? <==>
      post in s.posts && ids <= s.tags.Keys && (ids != {} ==> |s.posts[post].tags + ids| <= PostSignals.MaxTagCount)
    ensures r.Success? ==> r.value == WithTags(s, post, s.posts[post].tags + ids)
    ensures r.Failure? && post in s.posts && ids <= s.tags.Keys ==> r.msg == PostSignals.TooManyTagsMessage
  {
    if post !in s.posts then Failure(NotFoundMessage)
    else if !(ids <= s.tags.Keys) then Failure(UnknownTagMessage)
    else if ids == {} then Success(WithTags(s, post, s.posts[post].tags + ids))
    else
      var current := s.posts[post].tags;
      UnionSize(current, ids);
      var o := PostSignals.CleanPostOnTagsChange(PostSignals.PreAdd, |current|, |ids - current|, IsPublished(s, post));
      if o.Invalid? then Failure(o.msg)
      else Success(WithTags(s, post, current + ids))
  }

  /**
   * `post.tags.remove(*ids)`: `pre_remove` is sent with every requested id, present or not,
   * and a published post refuses to drop below one tag by that count.
   */
  function RemoveTags(s: Store, post: Id, ids: set<Id>): (r: Result<Store>)
    ensures r.Success? <==>
      post in s.posts && (ids != {} && IsPublished(s, post) ==> |s.posts[post].tags| - |ids| >= PostSignals.MinTagCount)
    ensures r.Success? ==> r.value == WithTags(s, post, s.posts[post].tags - ids)
  {
    if post !in s.posts then Failure(NotFoundMessage)
    else if ids == {} then Success(WithTags(s, post, s.posts[post].tags - ids))
    else
      var current := s.posts[post].tags;
      var o := PostSignals.CleanPostOnTagsChange(PostSignals.PreRemove, |current|, |ids|, IsPublished(s, post));
      if o.Invalid? then Failure(o.msg)
      else Success(WithTags(s, post, current - ids))
  }

  /**
   * `post.tags.clear()`: `pre_clear` is sent, and the receiver lets it through (see
   * `PostSignals.ClearUnbounded`), so a published post may be left with no tag.
   */
  function ClearTags(s: Store, post: Id): (r: Result<Store>)
    ensures r.Success? <==> post in s.posts
    ensures r.Success? ==> r.value == WithTags(s, post, {})
  {
    if post !in s.posts then Failure(NotFoundMessage)
    else Success(WithTags(s, post, {}))
  }

  /**
   * `post.tags.set(ids)`, as the serializers call it: in one transaction, remove the present
   * ids not wanted, then add the wanted ids not present; either step may be refused, and then
   * nothing changes.
   */
  function SetTags(s: Store, post: Id, ids: set<Id>): (r: Result<Store>)
    ensures r.Success? <==>
      && post in s.posts
      && ids <= s.tags.Keys
      && (s.posts[post].tags - ids != {} && IsPublished(s, post) ==> s.posts[post].tags * ids != {})
      && (ids - s.posts[post].tags != {} ==> |ids| <= PostSignals.MaxTagCount)
    ensures r.Success? ==> r.value == WithTags(s, post, ids)
  {
    if post !in s.posts then Failure(NotFoundMessage)
    else if !(ids <= s.tags.Keys) then Failure(UnknownTagMessage)
    else
      var current := s.posts[post].tags;
      var published := IsPublished(s, post);
      var removing := current - ids;
      var adding := ids - current;
      TagChangeSizes(current, ids);
      var first :=
        if removing == {} then Ok
        else PostSignals.CleanPostOnTagsChange(PostSignals.PreRemove, |current|, |removing|, published);
      if first.Invalid? then Failure(first.msg)
      else
        var second :=
          if adding == {} then Ok
          else PostSignals.CleanPostOnTagsChange(PostSignals.PreAdd, |current * ids|, |adding|, published);
        if second.Invalid? then Failure(second.msg)
        else Success(WithTags(s, post, ids))
  }

  /** `set` is `remove` of the unwanted ids followed by `add` of the missing ones. */
  lemma SetTagsIsRemoveThenAdd(s: Store, post: Id, ids: set<Id>)
    requires post in s.posts && ids <= s.tags.Keys
    ensures var current := s.posts[post].tags;
      var removed := RemoveTags(s, post, current - ids);
      && (removed.Failure? ==> SetTags(s, post, ids) == removed)
      && (removed.Success? ==> SetTags(s, post, ids) == AddTags(removed.value, post, ids - current))
  {
    var current := s.posts[post].tags;
    var removed := RemoveTags(s, post, current - ids);
    AfterRemovalSizes(current, ids);
    if removed.Success? {
      assert removed.value == WithTags(s, post, current * ids) by {
        assert current - (current - ids) == current * ids;
      }
      SetTagsAfterRemoval(s, post, ids);
    }
  }

  /** Once the removal step has passed, `set` and the `add` step agree. */
  lemma SetTagsAfterRemoval(s: Store, post: Id, ids: set<Id>)
    requires post in s.posts && ids <= s.tags.Keys
    requires s.posts[post].tags - ids != {} && IsPublished(s, post) ==> s.posts[post].tags * ids != {}
    ensures var current := s.posts[post].tags;
      SetTags(s, post, ids) == AddTags(WithTags(s, post, current * ids), post, ids - current)
  {
    if ids - s.posts[post].tags != {} && |ids| > PostSignals.MaxTagCount {
      AddAfterRemovalRefused(s, post, ids);
      SetTagsTooMany(s, post, ids);
    } else {
      AddAfterRemovalAccepted(s, post, ids);
    }
  }

  lemma AddAfterRemovalAccepted(s: Store, post: Id, ids: set<Id>)
    requires post in s.posts && ids <= s.tags.Keys
    requires ids - s.posts[post].tags != {} ==> |ids| <= PostSignals.MaxTagCount
    ensures var current := s.posts[post].tags;
      AddTags(WithTags(s, post, current * ids), post, ids - current) == Success(WithTags(s, post, ids))
  {
    var current := s.posts[post].tags;
    assert WithTags(s, post, current * ids).tags == s.tags;
    assert current * ids + (ids - current) == ids;
    WithTagsTwice(s, post, current * ids, ids);
  }

  lemma AddAfterRemovalRefused(s: Store, post: Id, ids: set<Id>)
    requires post in s.posts && ids <= s.tags.Keys
    requires ids - s.posts[post].tags != {} && |ids| > PostSignals.MaxTagCount
    ensures var current := s.posts[post].tags;
      AddTags(WithTags(s, post, current * ids), post, ids - current) == Failure(PostSignals.TooManyTagsMessage)
  {
    var current := s.posts[post].tags;
    assert WithTags(s, post, current * ids).tags == s.tags;
    assert current * ids + (ids - current) == ids;
  }

  lemma SetTagsTooMany(s: Store, post: Id, ids: set<Id>)
    requires post in s.posts && ids <= s.tags.Keys
    requires ids - s.posts[post].tags != {} && |ids| > PostSignals.MaxTagCount
    requires s.posts[post].tags - ids != {} && IsPublished(s, post) ==> s.posts[post].tags * ids != {}
    ensures SetTags(s, post, ids) == Failure(PostSignals.TooManyTagsMessage)
  {
    AfterRemovalSizes(s.posts[post].tags, ids);
  }

  /** The sizes the two steps of `set` compare. */
  lemma AfterRemovalSizes(current: set<Id>, ids: set<Id>)
    ensures |current * ids + (ids - current)| == |ids|
    ensures |current| - |current - ids| == |current * ids|
    ensures |current * ids| + |ids - current| == |ids|
  {
    assert current * ids + (ids - current) == ids;
    UnionSize(current * ids, ids - current);
    assert (ids - current) - current * ids == ids - current;
    IntersectionSize(current, ids);
  }

  /** Replacing a post's tags twice is replacing them once with the second set. */
  lemma WithTagsTwice(s: Store, post: Id, first: set<Id>, second: set<Id>)
    requires post in s.posts
    ensures WithTags(WithTags(s, post, first), post, second) == WithTags(s, post, second)
  {
    assert WithTags(WithTags(s, post, first), post, second).posts == WithTags(s, post, second).posts;
  }

  /* ----------------------------------------------------------- comments */

  /**
   * `Comment.save()` for a new row or the row under `self`, with `CommentFullClean` (the
   * corrected checks).
   */
  function SaveComment(s: Store, self: Option<Id>, c: Comment): (r: Result<Store>)
    ensures self.Some? && self.value !in s.comments ==> r == Failure(NotFoundMessage)
    ensures r.Success? <==> (self.Some? ==> self.value in s.comments) && CommentFullClean(s, self, c).Ok?
    ensures r.Success? && self.Some? ==> r.value == s.(comments := s.comments[self.value := c])
    ensures r.Success? && self.None? ==> r.value == s.(comments := s.comments[s.nextId := c], nextId := s.nextId + 1)
  {
    if self.Some? && self.value !in s.comments then Failure(NotFoundMessage)
    else
      var o := CommentFullClean(s, self, c);
      if o.Invalid? then Failure(o.msg)
      else if self.Some? then Success(s.(comments := s.comments[self.value := c]))
      else Success(s.(comments := s.comments[s.nextId := c], nextId := s.nextId + 1))
  }

  /* ---------------------------------------------------------- reactions */

  /** `Reaction.save()` for a new row or the row under `self`. */
  function SaveReaction(s: Store, self: Option<Id>, x: Reaction): (r: Result<Store>)
    ensures self.Some? && self.value !in s.reactions ==> r == Failure(NotFoundMessage)
    ensures r.Success? <==> (self.Some? ==> self.value in s.reactions) && ReactionFullClean(s, self, x).Ok?
    ensures r.Success? && self.Some? ==> r.value == s.(reactions := s.reactions[self.value := x])
    ensures r.Success? && self.None? ==> r.value == s.(reactions := s.reactions[s.nextId := x], nextId := s.nextId + 1)
  {
    if self.Some? && self.value !in s.reactions then Failure(NotFoundMessage)
    else
      var o := ReactionFullClean(s, self, x);
      if o.Invalid? then Failure(o.msg)
      else if self.Some? then Success(s.(reactions := s.reactions[self.value := x]))
      else Success(s.(reactions := s.reactions[s.nextId := x], nextId := s.nextId + 1))
  }

  function DeleteReaction(s: Store, id: Id): (r: Result<Store>)
    ensures r.Success? <==> id in s.reactions
    ensures r.Success? ==> r.value == s.(reactions := s.reactions - {id})
  {
    if id !in s.reactions then Failure(NotFoundMessage)
    else Success(s.(reactions := s.reactions - {id}))
  }

  /* ----------------------------------------------------------- cascades */

  /**
   * Following `reply_to` from `c` through stored comments, at most `fuel` times, reaches
   * `root`. The parent chain of a comment is unique, so a chain that reaches `root` does so
   * before it repeats a comment, and a fuel of the table's size finds every such chain.
   */
  predicate DescendsFrom(comments: map<Id, Comment>, c: Id, root: Id, fuel: nat)
    decreases fuel
  {
    && c in comments
    && (|| c == root
        || (fuel > 0 && comments[c].replyTo.Some? && DescendsFrom(comments, comments[c].replyTo.value, root, fuel - 1)))
  }

  /** Following `reply_to` from `c`, at most `fuel` times, reaches a stored comment on `post`. */
  predicate DescendsFromPost(comments: map<Id, Comment>, c: Id, post: Id, fuel: nat)
    decreases fuel
  {
    && c in comments
    && (|| comments[c].post == post
        || (fuel > 0 && comments[c].replyTo.Some? && DescendsFromPost(comments, comments[c].replyTo.value, post, fuel - 1)))
  }

  /**
   * The comment stored under `c` goes when comment `root` is deleted: `reply_to` is CASCADE,
   * so it is `root`, a reply to it, a reply to such a reply, and so on.
   */
  predicate InCommentCascade(s: Store, root: Id, c: Id)
    requires c in s.comments
  {
    DescendsFrom(s.comments, c, root, |s.comments|)
  }

  /**
   * The comment stored under `c` goes when post `post` is deleted: it is on `post`, or its
   * parent goes, transitively.
   */
  predicate InPostCascade(s: Store, post: Id, c: Id)
    requires c in s.comments
  {
    DescendsFromPost(s.comments, c, post, |s.comments|)
  }

  /** More fuel never loses a chain. */
  lemma {:induction false} DescendsFromMore(comments: map<Id, Comment>, c: Id, root: Id, fuel: nat)
    requires DescendsFrom(comments, c, root, fuel)
    ensures DescendsFrom(comments, c, root, fuel + 1)
    decreases fuel
  {
    if c != root {
      DescendsFromMore(comments, comments[c].replyTo.value, root, fuel - 1);
    }
  }

  /** A chain through fewer comments is a chain through more. */
  lemma {:induction false} DescendsFromWider(small: map<Id, Comment>, comments: map<Id, Comment>, c: Id, root: Id, fuel: nat)
    requires forall k :: k in small ==> k in comments && comments[k] == small[k]
    requires DescendsFrom(small, c, root, fuel)
    ensures DescendsFrom(comments, c, root, fuel)
    decreases fuel
  {
    if c != root {
      DescendsFromWider(small, comments, small[c].replyTo.value, root, fuel - 1);
    }
  }

  /** A chain from `c` either keeps clear of comment `y`, or passes `y`, which then reaches `root` too. */
  lemma {:induction false} DescendsFromAvoids(comments: map<Id, Comment>, c: Id, root: Id, fuel: nat, y: Id)
    requires DescendsFrom(comments, c, root, fuel) && y != root
    ensures DescendsFrom(comments - {y}, c, root, fuel) || DescendsFrom(comments, y, root, fuel)
    decreases fuel
  {
    if c != y && c != root {
      var p := comments[c].replyTo.value;
      DescendsFromAvoids(comments, p, root, fuel - 1, y);
      if DescendsFrom(comments, y, root, fuel - 1) {
        DescendsFromMore(comments, y, root, fuel - 1);
      } else {
        assert DescendsFrom(comments - {y}, p, root, fuel - 1);
        assert (comments - {y})[c] == comments[c];
      }
    }
  }

  /** Removing a stored key takes one from the count. */
  lemma MinusOne(comments: map<Id, Comment>, y: Id)
    requires y in comments
    ensures |comments - {y}| == |comments| - 1
  {
    assert (comments - {y}).Keys == comments.Keys - {y};
  }

  /**
   * A chain that reaches `root` at all reaches it in fewer steps than there are comments: the
   * shortest one visits each comment at most once.
   */
  lemma {:induction false} DescendsFromShort(comments: map<Id, Comment>, c: Id, root: Id, fuel: nat)
    requires DescendsFrom(comments, c, root, fuel)
    ensures |comments| >= 1 && DescendsFrom(comments, c, root, |comments| - 1)
    decreases fuel
  {
    StoredKeyCounts(comments, c);
    if c != root {
      var p := comments[c].replyTo.value;
      DescendsFromAvoids(comments, p, root, fuel - 1, c);
      if DescendsFrom(comments, c, root, fuel - 1) {
        DescendsFromShort(comments, c, root, fuel - 1);
      } else {
        var rest := comments - {c};
        DescendsFromShort(rest, p, root, fuel - 1);
        MinusOne(comments, c);
        DescendsFromWider(rest, comments, p, root, |rest| - 1);
        assert DescendsFrom(comments, p, root, |comments| - 2);
      }
    }
  }

  /** The comment cascade is closed under replies: a reply to a comment that goes, goes too. */
  lemma CommentCascadeClosed(s: Store, root: Id, c: Id, d: Id)
    requires c in s.comments && InCommentCascade(s, root, c)
    requires d in s.comments && s.comments[d].replyTo == Some(c)
    ensures InCommentCascade(s, root, d)
  {
    DescendsFromShort(s.comments, c, root, |s.comments|);
  }

  /** More fuel never loses a chain to a post. */
  lemma {:induction false} DescendsFromPostMore(comments: map<Id, Comment>, c: Id, post: Id, fuel: nat)
    requires DescendsFromPost(comments, c, post, fuel)
    ensures DescendsFromPost(comments, c, post, fuel + 1)
    decreases fuel
  {
    if comments[c].post != post {
      DescendsFromPostMore(comments, comments[c].replyTo.value, post, fuel - 1);
    }
  }

  /** A chain to a post through fewer comments is one through more. */
  lemma {:induction false} DescendsFromPostWider(small: map<Id, Comment>, comments: map<Id, Comment>, c: Id, post: Id, fuel: nat)
    requires forall k :: k in small ==> k in comments && comments[k] == small[k]
    requires DescendsFromPost(small, c, post, fuel)
    ensures DescendsFromPost(comments, c, post, fuel)
    decreases fuel
  {
    if small[c].post != post {
      DescendsFromPostWider(small, comments, small[c].replyTo.value, post, fuel - 1);
    }
  }

  /** A chain to a post from `c` either keeps clear of comment `y`, or passes `y`, which then reaches the post too. */
  lemma {:induction false} DescendsFromPostAvoids(comments: map<Id, Comment>, c: Id, post: Id, fuel: nat, y: Id)
    requires DescendsFromPost(comments, c, post, fuel)
    ensures DescendsFromPost(comments - {y}, c, post, fuel) || DescendsFromPost(comments, y, post, fuel)
    decreases fuel
  {
    if c != y && comments[c].post != post {
      var p := comments[c].replyTo.value;
      DescendsFromPostAvoids(comments, p, post, fuel - 1, y);
      if DescendsFromPost(comments, y, post, fuel - 1) {
        DescendsFromPostMore(comments, y, post, fuel - 1);
      } else {
        assert DescendsFromPost(comments - {y}, p, post, fuel - 1);
        assert (comments - {y})[c] == comments[c];
      }
    }
  }

  /** A chain that reaches a comment on `post` at all does so in fewer steps than there are comments. */
  lemma {:induction false} DescendsFromPostShort(comments: map<Id, Comment>, c: Id, post: Id, fuel: nat)
    requires DescendsFromPost(comments, c, post, fuel)
    ensures |comments| >= 1 && DescendsFromPost(comments, c, post, |comments| - 1)
    decreases fuel
  {
    StoredKeyCounts(comments, c);
    if comments[c].post != post {
      var p := comments[c].replyTo.value;
      DescendsFromPostAvoids(comments, p, post, fuel - 1, c);
      if DescendsFromPost(comments, c, post, fuel - 1) {
        DescendsFromPostShort(comments, c, post, fuel - 1);
      } else {
        var rest := comments - {c};
        DescendsFromPostShort(rest, p, post, fuel - 1);
        MinusOne(comments, c);
        DescendsFromPostWider(rest, comments, p, post, |rest| - 1);
        assert DescendsFromPost(comments, p, post, |comments| - 2);
      }
    }
  }

  /** The post cascade is closed under replies: a reply to a comment that goes, goes too. */
  lemma PostCascadeClosed(s: Store, post: Id, c: Id, d: Id)
    requires c in s.comments && InPostCascade(s, post, c)
    requires d in s.comments && s.comments[d].replyTo == Some(c)
    ensures InPostCascade(s, post, d)
  {
    DescendsFromPostShort(s.comments, c, post, |s.comments|);
  }

  /** A stored key makes a map non-empty. */
  lemma StoredKeyCounts(comments: map<Id, Comment>, c: Id)
    requires c in comments
    ensures |comments| >= 1
  {
    assert c in comments.Keys;
  }

  /** With flat replies the cascade of a comment is the comment and its direct replies. */
  lemma FlatCommentCascade(s: Store, root: Id, c: Id)
    requires RepliesFlat(s.comments) && root in s.comments && c in s.comments
    ensures InCommentCascade(s, root, c) <==> c == root || s.comments[c].replyTo == Some(root)
  {
    StoredKeyCounts(s.comments, c);
    var n := |s.comments|;
    if c != root && s.comments[c].replyTo.Some? {
      var p := s.comments[c].replyTo.value;
      assert InCommentCascade(s, root, c) == DescendsFrom(s.comments, p, root, n - 1);
      if p == root {
        assert DescendsFrom(s.comments, root, root, n - 1);
      } else {
        assert !IsReply(s.comments, p);
        assert !DescendsFrom(s.comments, p, root, n - 1);
      }
    }
  }

  /** With flat replies a post's cascade is its comments and the direct replies to them. */
  lemma FlatPostCascade(s: Store, post: Id, c: Id)
    requires RepliesFlat(s.comments) && c in s.comments
    ensures InPostCascade(s, post, c) <==>
      || s.comments[c].post == post
      || (s.comments[c].replyTo.Some? && s.comments[c].replyTo.value in s.comments
          && s.comments[s.comments[c].replyTo.value].post == post)
  {
    StoredKeyCounts(s.comments, c);
    var n := |s.comments|;
    if s.comments[c].post != post && s.comments[c].replyTo.Some? {
      var p := s.comments[c].replyTo.value;
      assert InPostCascade(s, post, c) == DescendsFromPost(s.comments, p, post, n - 1);
      if p in s.comments && s.comments[p].post == post {
        assert DescendsFromPost(s.comments, p, post, n - 1);
      } else {
        assert !IsReply(s.comments, p);
        assert !DescendsFromPost(s.comments, p, post, n - 1);
      }
    }
  }

  /**
   * A reply to a reply goes with the comment at the top of the chain: the cascade is not
   * limited to one level.
   */
  lemma NestedReplyCascades(s: Store, root: Id, p: Id, c: Id)
    requires root in s.comments && p in s.comments && c in s.comments
    requires p != root && c != p && c != root
    requires s.comments[p].replyTo == Some(root) && s.comments[c].replyTo == Some(p)
    ensures InCommentCascade(s, root, c) && InCommentCascade(s, root, p)
    ensures DeleteComment(s, root).Success?
    ensures p !in DeleteComment(s, root).value.comments && c !in DeleteComment(s, root).value.comments
  {
    assert {root, p, c} <= s.comments.Keys;
    assert |{root, p, c}| == 3;
    CardinalityOfSubset({root, p, c}, s.comments.Keys);
    assert DescendsFrom(s.comments, root, root, |s.comments| - 2);
  }

  /** A subset has no more elements than its superset. */
  lemma {:induction false} CardinalityOfSubset(a: set<Id>, b: set<Id>)
    requires a <= b
    ensures |a| <= |b|
    decreases |a|
  {
    if a != {} {
      var x :| x in a;
      CardinalityOfSubset(a - {x}, b - {x});
    }
  }

  /**
   * Deleting a comment: `reply_to` and `Reaction.comment` are CASCADE, so its replies, their
   * replies in turn, and the reactions on any of them go too.
   */
  function DeleteComment(s: Store, id: Id): (r: Result<Store>)
    ensures r.Success? <==> id in s.comments
    ensures r.Success? ==>
      && id !in r.value.comments
      && (forall c :: c in r.value.comments <==> c in s.comments && !InCommentCascade(s, id, c))
      && (forall c :: c in r.value.comments ==> r.value.comments[c] == s.comments[c])
      && (forall k :: k in r.value.reactions <==>
            k in s.reactions
            && !(s.reactions[k].comment.Some? && s.reactions[k].comment.value in s.comments
                 && InCommentCascade(s, id, s.reactions[k].comment.value)))
      && (forall k :: k in r.value.reactions ==> r.value.reactions[k] == s.reactions[k])
      && r.value.posts == s.posts && r.value.tags == s.tags && r.value.users == s.users
      && r.value.profiles == s.profiles && r.value.nextId == s.nextId
  {
    if id !in s.comments then Failure(NotFoundMessage)
    else
      var comments := map c | c in s.comments && !InCommentCascade(s, id, c) :: s.comments[c];
      var reactions := map k | k in s.reactions
        && !(s.reactions[k].comment.Some? && s.reactions[k].comment.value in s.comments
             && InCommentCascade(s, id, s.reactions[k].comment.value)) :: s.reactions[k];
      Success(s.(comments := comments, reactions := reactions))
  }

  /**
   * Deleting a post: its comments, the replies to them (which may sit on another post) and
   * theirs in turn, and the reactions on the post or on any of those comments.
   */
  function DeletePost(s: Store, id: Id): (r: Result<Store>)
    ensures r.Success? <==> id in s.posts
    ensures r.Success? ==>
      && r.value.posts == s.posts - {id}
      && (forall c :: c in r.value.comments <==> c in s.comments && !InPostCascade(s, id, c))
      && (forall c :: c in r.value.comments ==> r.value.comments[c] == s.comments[c])
      && (forall k :: k in r.value.reactions <==>
            k in s.reactions && s.reactions[k].post != Some(id)
            && !(s.reactions[k].comment.Some? && s.reactions[k].comment.value in s.comments
                 && InPostCascade(s, id, s.reactions[k].comment.value)))
      && (forall k :: k in r.value.reactions ==> r.value.reactions[k] == s.reactions[k])
      && r.value.tags == s.tags && r.value.users == s.users
      && r.value.profiles == s.profiles && r.value.nextId == s.nextId
  {
    if id !in s.posts then Failure(NotFoundMessage)
    else
      var comments := map c | c in s.comments && !InPostCascade(s, id, c) :: s.comments[c];
      var reactions := map k | k in s.reactions
        && s.reactions[k].post != Some(id)
        && !(s.reactions[k].comment.Some? && s.reactions[k].comment.value in s.comments
             && InPostCascade(s, id, s.reactions[k].comment.value)) :: s.reactions[k];
      Success(s.(posts := s.posts - {id}, comments := comments, reactions := reactions))
  }

  /**
   * Deleting a user: posts and comments keep their rows with a null owner (SET_NULL), and the
   * user's reactions and profile go (CASCADE).
   */
  function DeleteUser(s: Store, u: UserId): (r: Store)
    ensures r.users == s.users - {u}
    ensures r.posts.Keys == s.posts.Keys && r.comments.Keys == s.comments.Keys
    ensures forall k :: k in s.posts ==>
      r.posts[k] == (if s.posts[k].owner == Some(u) then s.posts[k].(owner := None) else s.posts[k])
    ensures forall k :: k in s.comments ==>
      r.comments[k] == (if s.comments[k].owner == Some(u) then s.comments[k].(owner := None) else s.comments[k])
    ensures forall k :: k in r.reactions <==> k in s.reactions && s.reactions[k].owner != u
    ensures forall k :: k in r.reactions ==> r.reactions[k] == s.reactions[k]
    ensures forall k :: k in r.profiles <==> k in s.profiles && s.profiles[k] != u
    ensures forall k :: k in r.profiles ==> r.profiles[k] == s.profiles[k]
    ensures r.tags == s.tags && r.nextId == s.nextId
  {
    s.(
      users := s.users - {u},
      posts := map k | k in s.posts :: if s.posts[k].owner == Some(u) then s.posts[k].(owner := None) else s.posts[k],
      comments := map k | k in s.comments ::
        if s.comments[k].owner == Some(u) then s.comments[k].(owner := None) else s.comments[k],
      reactions := map k | k in s.reactions && s.reactions[k].owner != u :: s.reactions[k],
      profiles := map k | k in s.profiles && s.profiles[k] != u :: s.profiles[k])
  }
}
