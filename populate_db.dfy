/**
 * The `populate_db` management command: 12 tags, 12 posts with 5 sampled tags each, 24
 * top-level comments and 12 replies, then 48 reactions spread round-robin over the posts and
 * then the comments. Each factory call is an appended record; what the factories fill in at
 * random (texts, owners, the posts comments are on, the sampled tags) is not modelled.
 */
module PopulateDb {
  import opened Common
  import opened PostsModels
  import PostsStore
  import PostSignals

  const NegativeCountMessage := "Count cannot be negative."
  const NegativeCountsMessage := "Counts cannot be negative."
  const RepliesWithoutNonrepliesMessage := "Cannot have replies without nonreplies."
  const SampleTooLargeMessage := "Sample larger than population or is negative"

  /** The number of tags `random.sample(tags, 5)` draws for each post. */
  const SampleSize := 5

  /* --------------------------------------------------- tags and posts */

  /** `_insert_tags`: a negative count is refused, otherwise that many tags are made. */
  function InsertTags(count: int): (r: Result<nat>)
    ensures r.Success? <==> count >= 0
    ensures r.Success? ==> r.value == count
    ensures r.Failure? ==> r.msg == NegativeCountMessage
  {
    if count < 0 then Failure(NegativeCountMessage) else Success(count)
  }

  /**
   * `_insert_posts`: a negative count is refused; every post samples 5 of the tags, which
   * fails once there are fewer than 5 of them.
   */
  function InsertPosts(tagCount: nat, count: int): (r: Result<nat>)
    ensures r.Success? <==> count >= 0 && (count > 0 ==> tagCount >= SampleSize)
    ensures r.Success? ==> r.value == count
    ensures count < 0 ==> r == Failure(NegativeCountMessage)
  {
    if count < 0 then Failure(NegativeCountMessage)
    else if count > 0 && tagCount < SampleSize then Failure(SampleTooLargeMessage)
    else Success(count)
  }

  /** The 5 sampled tags of a new post pass the `pre_add` bound, and a sixth would not. */
  lemma SampledTagsAccepted(s: Store, post: Id, ids: set<Id>, extra: Id)
    requires post in s.posts && s.posts[post].tags == {}
    requires ids <= s.tags.Keys && |ids| == SampleSize
    requires extra in s.tags && extra !in ids
    ensures PostsStore.AddTags(s, post, ids).Success?
    ensures PostsStore.AddTags(PostsStore.AddTags(s, post, ids).value, post, {extra}).Failure?
  {
    assert s.posts[post].tags + ids == ids;
    var t := PostsStore.AddTags(s, post, ids).value;
    assert t.posts[post].tags + {extra} == ids + {extra};
    assert |ids + {extra}| == SampleSize + 1;
  }

  /* ---------------------------------------------------------- comments */

  /** A seeded comment: the index, in the returned list, of the comment it replies to. */
  datatype SeedComment = SeedComment(replyTo: Option<nat>)

  /** Replies point at top-level comments of the same list: replies are one level deep. */
  predicate OneLevel(cs: seq<SeedComment>) {
    forall j :: 0 <= j < |cs| && cs[j].replyTo.Some? ==>
      cs[j].replyTo.value < |cs| && cs[cs[j].replyTo.value].replyTo.None?
  }

  /** No two comments of the list reply to the same comment. */
  predicate AtMostOneReplyEach(cs: seq<SeedComment>) {
    forall i, j :: 0 <= i < j < |cs| && cs[i].replyTo.Some? ==> cs[i].replyTo != cs[j].replyTo
  }

  /**
   * Replies handed out round-robin over the top-level comments give each at most one exactly
   * when there are no more replies than top-level comments.
   */
  lemma RoundRobinReplies(cs: seq<SeedComment>, nonreplyCount: nat, replyCount: nat)
    requires |cs| == nonreplyCount + replyCount && (nonreplyCount == 0 ==> replyCount == 0)
    requires forall j :: 0 <= j < nonreplyCount ==> cs[j].replyTo.None?
    requires forall i :: 0 <= i < replyCount ==> cs[nonreplyCount + i].replyTo == Some(i % nonreplyCount)
    ensures AtMostOneReplyEach(cs) <==> replyCount <= nonreplyCount
  {
    if replyCount <= nonreplyCount {
      forall i, j | 0 <= i < j < |cs| && cs[i].replyTo.Some?
        ensures cs[i].replyTo != cs[j].replyTo
      {
        SmallRemainder(i - nonreplyCount, nonreplyCount);
        SmallRemainder(j - nonreplyCount, nonreplyCount);
        assert cs[nonreplyCount + (i - nonreplyCount)].replyTo == Some(i - nonreplyCount);
        assert cs[nonreplyCount + (j - nonreplyCount)].replyTo == Some(j - nonreplyCount);
      }
    } else {
      // reply 0 and reply `nonreplyCount` both answer top-level comment 0
      SmallRemainder(0, nonreplyCount);
      assert cs[nonreplyCount + 0].replyTo == Some(0);
      assert cs[nonreplyCount + nonreplyCount].replyTo == Some(nonreplyCount % nonreplyCount);
    }
  }

  /** Replies handed out round-robin over the top-level comments answer top-level comments. */
  lemma RoundRobinOneLevel(cs: seq<SeedComment>, nonreplyCount: nat, replyCount: nat)
    requires |cs| == nonreplyCount + replyCount && (nonreplyCount == 0 ==> replyCount == 0)
    requires forall j :: 0 <= j < nonreplyCount ==> cs[j].replyTo.None?
    requires forall i :: 0 <= i < replyCount ==> cs[nonreplyCount + i].replyTo == Some(i % nonreplyCount)
    ensures OneLevel(cs)
  {
    forall j | 0 <= j < |cs| && cs[j].replyTo.Some?
      ensures cs[j].replyTo.value < |cs| && cs[cs[j].replyTo.value].replyTo.None?
    {
      assert cs[nonreplyCount + (j - nonreplyCount)].replyTo == Some((j - nonreplyCount) % nonreplyCount);
    }
  }

  /** A remainder of a number below the divisor is the number. */
  lemma SmallRemainder(a: nat, n: nat)
    requires a < n
    ensures a % n == a
  {
  }

  /**
   * `_insert_comments`: the top-level comments, then reply `i` to top-level comment
   * `i mod nonreplyCount`.
   */
  method InsertComments(nonreplyCount: int, replyCount: int) returns (r: Result<seq<SeedComment>>)
    ensures nonreplyCount < 0 || replyCount < 0 ==> r == Failure(NegativeCountsMessage)
    ensures nonreplyCount == 0 && replyCount > 0 ==> r == Failure(RepliesWithoutNonrepliesMessage)
    ensures r.Success? <==> nonreplyCount >= 0 && replyCount >= 0 && (nonreplyCount == 0 ==> replyCount == 0)
    ensures r.Success? ==> |r.value| == nonreplyCount + replyCount
    ensures r.Success? ==> forall j :: 0 <= j < nonreplyCount ==> r.value[j].replyTo.None?
    ensures r.Success? ==> forall i :: 0 <= i < replyCount ==> r.value[nonreplyCount + i].replyTo == Some(i % nonreplyCount)
    ensures r.Success? ==> OneLevel(r.value)
    ensures r.Success? ==> (AtMostOneReplyEach(r.value) <==> replyCount <= nonreplyCount)
  {
    if nonreplyCount < 0 || replyCount < 0 {
      return Failure(NegativeCountsMessage);
    }
    if nonreplyCount == 0 && replyCount > nonreplyCount {
      return Failure(RepliesWithoutNonrepliesMessage);
    }
    var nonreplies := seq(nonreplyCount, _ => SeedComment(None));
    var replies: seq<SeedComment> := [];
    for i := 0 to replyCount
      invariant |replies| == i
      invariant forall k :: 0 <= k < i ==> replies[k].replyTo == Some(k % nonreplyCount)
    {
      var nonreply := i % nonreplyCount;
      replies := replies + [SeedComment(Some(nonreply))];
    }
    var all := nonreplies + replies;
    assert forall i :: 0 <= i < replyCount ==> all[nonreplyCount + i] == replies[i];
    RoundRobinOneLevel(all, nonreplyCount, replyCount);
    RoundRobinReplies(all, nonreplyCount, replyCount);
    return Success(all);
  }

  /* --------------------------------------------------------- reactions */

  /** How many of `count` reactions go to posts when rounds give every post, then every comment, one. */
  function PostShare(postCount: nat, commentCount: nat, count: nat): nat
    requires count == 0 || postCount + commentCount > 0
    decreases count
  {
    if count <= postCount then count
    else if count <= postCount + commentCount then postCount
    else postCount + PostShare(postCount, commentCount, count - (postCount + commentCount))
  }

  /** How many of `count` reactions go to comments. */
  function CommentShare(postCount: nat, commentCount: nat, count: nat): nat
    requires count == 0 || postCount + commentCount > 0
    decreases count
  {
    if count <= postCount then 0
    else if count <= postCount + commentCount then count - postCount
    else commentCount + CommentShare(postCount, commentCount, count - (postCount + commentCount))
  }

  /** Every reaction goes to a post or to a comment. */
  lemma {:induction false} SharesAddUp(postCount: nat, commentCount: nat, count: nat)
    requires count == 0 || postCount + commentCount > 0
    ensures PostShare(postCount, commentCount, count) + CommentShare(postCount, commentCount, count) == count
    decreases count
  {
    if count > postCount + commentCount {
      SharesAddUp(postCount, commentCount, count - (postCount + commentCount));
    }
  }

  /** A complete round adds one reaction per post and one per comment. */
  lemma ShareOfOneMoreRound(postCount: nat, commentCount: nat, m: nat)
    requires postCount + commentCount > 0
    ensures PostShare(postCount, commentCount, m + postCount + commentCount) == postCount + PostShare(postCount, commentCount, m)
    ensures CommentShare(postCount, commentCount, m + postCount + commentCount) == commentCount + CommentShare(postCount, commentCount, m)
  {
  }

  /**
   * One pass of the outer loop with `m` reactions still to make: `a` go to posts and `b` to
   * comments, and the shares of what is left make up the rest.
   */
  lemma ShareOfOnePass(postCount: nat, commentCount: nat, m: nat)
    requires postCount + commentCount > 0 && m > 0
    ensures var a := if m < postCount then m else postCount;
      var b := if m - a < commentCount then m - a else commentCount;
      && PostShare(postCount, commentCount, m) == a + PostShare(postCount, commentCount, m - a - b)
      && CommentShare(postCount, commentCount, m) == b + CommentShare(postCount, commentCount, m - a - b)
  {
    if m > postCount + commentCount {
      ShareOfOneMoreRound(postCount, commentCount, m - postCount - commentCount);
    }
  }

  /**
   * `xs` lists indices below `n` round by round: the first round is 0, 1, ..., n - 1 and every
   * later entry repeats the one a round earlier.
   */
  predicate RoundRobin(xs: seq<nat>, n: nat) {
    && (xs != [] ==> n > 0)
    && (forall j :: 0 <= j < |xs| && j < n ==> xs[j] == j)
    && (forall j :: n <= j < |xs| ==> xs[j] == xs[j - n])
  }

  /** `xs` is empty or ends with a complete round 0, 1, ..., n - 1. */
  predicate EndsWithRound(xs: seq<nat>, n: nat) {
    xs == [] || (|xs| >= n && forall j :: |xs| - n <= j < |xs| ==> xs[j] == j - (|xs| - n))
  }

  /**
   * One inner loop of `_insert_reactions`: react to targets 0, 1, ... of the `n` targets in
   * order while fewer than `count` reactions exist. Both inner loops, over the posts and over
   * the comments, have this shape.
   */
  method ReactInOrder(xs: seq<nat>, n: nat, reactionIndex: nat, count: nat) returns (ys: seq<nat>, next: nat)
    requires reactionIndex <= count
    requires RoundRobin(xs, n) && EndsWithRound(xs, n)
    ensures next == reactionIndex + (if count - reactionIndex < n then count - reactionIndex else n)
    ensures |ys| == |xs| + (next - reactionIndex) && ys[..|xs|] == xs
    ensures RoundRobin(ys, n)
    ensures next - reactionIndex == n ==> EndsWithRound(ys, n)
  {
    ys := xs;
    next := reactionIndex;
    var index := 0;
    while index < n && next < count
      invariant 0 <= index <= n
      invariant next == reactionIndex + index <= count
      invariant |ys| == |xs| + index && ys[..|xs|] == xs
      invariant forall j :: |xs| <= j < |ys| ==> ys[j] == j - |xs|
      invariant RoundRobin(ys, n)
    {
      ys := ys + [index];
      index := index + 1;
      next := next + 1;
    }
  }

  /**
   * One pass of the outer loop of `_insert_reactions`: the posts in order, then the comments
   * in order, stopping once `count` reactions exist.
   */
  method ReactOnePass(posts: seq<nat>, postCount: nat, comments: seq<nat>, commentCount: nat, reactionIndex: nat, count: nat)
    returns (posts': seq<nat>, comments': seq<nat>, next: nat)
    requires reactionIndex < count && postCount + commentCount > 0
    requires RoundRobin(posts, postCount) && EndsWithRound(posts, postCount)
    requires RoundRobin(comments, commentCount) && EndsWithRound(comments, commentCount)
    ensures reactionIndex < next <= count
    ensures RoundRobin(posts', postCount) && RoundRobin(comments', commentCount)
    ensures next < count ==> EndsWithRound(posts', postCount) && EndsWithRound(comments', commentCount)
    ensures |posts'| + PostShare(postCount, commentCount, count - next)
      == |posts| + PostShare(postCount, commentCount, count - reactionIndex)
    ensures |comments'| + CommentShare(postCount, commentCount, count - next)
      == |comments| + CommentShare(postCount, commentCount, count - reactionIndex)
  {
    ShareOfOnePass(postCount, commentCount, count - reactionIndex);
    var middle;
    posts', middle := ReactInOrder(posts, postCount, reactionIndex, count);
    comments', next := ReactInOrder(comments, commentCount, middle, count);
  }

  /**
   * `_insert_reactions`: rounds over the posts in index order and then the comments in index
   * order, until `count` reactions exist. The result is the list of post indices reacted to
   * and the list of comment indices reacted to. With no posts, no comments and a positive
   * count the loop never ends, so that case is excluded.
   */
  method InsertReactions(postCount: nat, commentCount: nat, count: int) returns (r: Result<(seq<nat>, seq<nat>)>)
    requires count <= 0 || postCount + commentCount > 0
    ensures r.Failure? <==> count < 0
    ensures r.Failure? ==> r.msg == NegativeCountMessage
    ensures r.Success? ==> |r.value.0| == PostShare(postCount, commentCount, count)
    ensures r.Success? ==> |r.value.1| == CommentShare(postCount, commentCount, count)
    ensures r.Success? ==> RoundRobin(r.value.0, postCount) && RoundRobin(r.value.1, commentCount)
  {
    if count < 0 {
      return Failure(NegativeCountMessage);
    }
    var postReactions: seq<nat> := [];
    var commentReactions: seq<nat> := [];
    var reactionIndex := 0;
    while reactionIndex < count
      invariant 0 <= reactionIndex <= count
      invariant reactionIndex < count ==> postCount + commentCount > 0
      invariant RoundRobin(postReactions, postCount) && RoundRobin(commentReactions, commentCount)
      invariant reactionIndex < count ==> EndsWithRound(postReactions, postCount) && EndsWithRound(commentReactions, commentCount)
      invariant PostShare(postCount, commentCount, count) == |postReactions| + PostShare(postCount, commentCount, count - reactionIndex)
      invariant CommentShare(postCount, commentCount, count) == |commentReactions| + CommentShare(postCount, commentCount, count - reactionIndex)
      decreases count - reactionIndex
    {
      postReactions, commentReactions, reactionIndex :=
        ReactOnePass(postReactions, postCount, commentReactions, commentCount, reactionIndex, count);
    }
    return Success((postReactions, commentReactions));
  }

  /* ------------------------------------------------------------ handle */

  /**
   * `handle` after clearing the tables and making the users: 12 tags and 12 posts, then 24
   * top-level comments and 12 replies, then 48 reactions. Every step succeeds, the first 12
   * top-level comments get one reply each and the other 12 none, and every post and every
   * comment gets exactly one reaction.
   */
  method Handle() returns (comments: seq<SeedComment>, postReactions: seq<nat>, commentReactions: seq<nat>)
    ensures |comments| == 36 && OneLevel(comments) && AtMostOneReplyEach(comments)
    ensures forall i :: 0 <= i < 12 ==> comments[24 + i].replyTo == Some(i)
    ensures forall j :: 0 <= j < 24 ==> comments[j].replyTo.None?
    ensures |postReactions| == 12 && forall j :: 0 <= j < 12 ==> postReactions[j] == j
    ensures |commentReactions| == |comments| && forall j :: 0 <= j < |comments| ==> commentReactions[j] == j
  {
    var postCount := 12;
    var tags := InsertTags(postCount);
    var posts := InsertPosts(tags.value, postCount);
    var nonreplyCount := postCount * 2;
    var replyCount := postCount;
    var made := InsertComments(nonreplyCount, replyCount);
    comments := made.value;
    forall i | 0 <= i < 12
      ensures comments[24 + i].replyTo == Some(i)
    {
      assert comments[nonreplyCount + i].replyTo == Some(i % nonreplyCount);
    }
    var reactionCount := postCount + nonreplyCount + replyCount;
    var reactions := InsertReactions(posts.value, |comments|, reactionCount);
    assert PostShare(12, 36, 48) == 12 && CommentShare(12, 36, 48) == 36;
    postReactions, commentReactions := reactions.value.0, reactions.value.1;
  }
}
