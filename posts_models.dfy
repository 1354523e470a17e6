/**
 * The rows of the posts application (Tag, Post, Comment, Reaction, and the Profile rows the
 * profile views serve), the database they live in, and the checks a row must pass before it
 * is written: field validators, `clean()`, and the table constraints.
 *
 * A check answers with the first message it meets, in the order: the row's own fields (in
 * declaration order), its foreign keys, `clean()`, then the constraints.
 */
module PostsModels {
  import opened Common
  import opened Identity
  import ImageValidators

  type Id = nat

  datatype Tag = Tag(title: string)

  /** `publishDate` is a day number; `None` is a private (draft) post. */
  datatype Post = Post(
    title: string,
    thumbnail: string,
    owner: Option<UserId>,
    publishDate: Option<nat>,
    content: string,
    tags: set<Id>)

  datatype Comment = Comment(owner: Option<UserId>, post: Id, content: string, replyTo: Option<Id>)

  /** `kind` is the one-character `type` column ("L" or "D" once validated). */
  datatype Reaction = Reaction(owner: UserId, kind: string, post: Option<Id>, comment: Option<Id>)

  /** The tables. `profiles` maps a profile id to its owner; `nextId` allocates primary keys. */
  datatype Store = Store(
    users: set<UserId>,
    tags: map<Id, Tag>,
    posts: map<Id, Post>,
    comments: map<Id, Comment>,
    reactions: map<Id, Reaction>,
    profiles: map<Id, UserId>,
    nextId: Id)

  const Blank := "This field cannot be blank."

  /* ---------------------------------------------------------------- Tag */

  const TitleCharsMessage := "Tag title must only contain letters, numbers, and hyphens."

  /** A character the title pattern `^[-\dA-Za-z]*$` admits. */
  predicate TagChar(c: char) {
    'a' <= c <= 'z' || 'A' <= c <= 'Z' || '0' <= c <= '9' || c == '-'
  }

  /** The title shape: 1..20 characters from the pattern's alphabet, already lower case. */
  predicate TagShapeOk(title: string) {
    && 1 <= |title| <= 20
    && (forall i :: 0 <= i < |title| ==> TagChar(title[i]))
    && Lower(title) == title
  }

  /**
   * The checks a tag title goes through on a write: blank and max_length=20, the pattern,
   * `unique=True` against the other titles, and the `lowercase_title` check constraint.
   * `MinLengthValidator(1)` is already implied by the blank check.
   */
  function TagTitleCheck(title: string, taken: set<string>): (r: Outcome)
    ensures r.Ok? <==> TagShapeOk(title) && title !in taken
    ensures r.Ok? ==> forall i :: 0 <= i < |title| ==> 'a' <= title[i] <= 'z' || '0' <= title[i] <= '9' || title[i] == '-'
  {
    LowerFixedIff(title);
    if title == "" then Invalid(Blank)
    else if |title| > 20 then Invalid("Ensure this value has at most 20 characters.")
    else if !(forall i :: 0 <= i < |title| ==> TagChar(title[i])) then Invalid(TitleCharsMessage)
    else if title in taken then Invalid("Tag with this title already exists.")
    else if Lower(title) != title then Invalid("Constraint “lowercase_title” is violated.")
    else Ok
  }

  /** The titles of the stored tags other than the one under `self`. */
  function OtherTitles(s: Store, self: Option<Id>): (titles: set<string>)
    ensures forall id :: id in s.tags && Some(id) != self ==> s.tags[id].title in titles
    ensures forall t :: t in titles ==> exists id :: id in s.tags && Some(id) != self && s.tags[id].title == t
  {
    set id | id in s.tags && Some(id) != self :: s.tags[id].title
  }

  /* --------------------------------------------------------------- Post */

  const ThumbnailMessage := "A published post must have a thumbnail."
  const ContentMessage := "A published post must have content."

  /**
   * `blank=` of an owner foreign key. The source declares `null=True` but leaves `blank`
   * at its default, False; see `OwnerCheck`.
   */
  const OwnerBlankAsWritten := false

  /** An owner foreign key: a null value is refused unless the field is `blank=True`. */
  function OwnerCheck(owner: Option<UserId>, blank: bool): (r: Outcome)
    ensures r.Invalid? <==> owner.None? && !blank
  {
    if owner.None? && !blank then Invalid(Blank) else Ok
  }

  /**
   * The Post field validators: title 20..100 characters; thumbnail blank or at most 200
   * characters with an image extension; owner as `OwnerCheck`; content blank or 1850..18500
   * characters.
   */
  function PostFieldsCheck(p: Post, ownerBlank: bool): (r: Outcome)
    ensures r.Ok? <==>
      && 20 <= |p.title| <= 100
      && (p.thumbnail != "" ==> |p.thumbnail| <= 200 && ImageValidators.HasImageExtension(p.thumbnail))
      && (p.owner.None? ==> ownerBlank)
      && (p.content == "" || 1850 <= |p.content| <= 18500)
  {
    if p.title == "" then Invalid(Blank)
    else if |p.title| < 20 then Invalid("Ensure this value has at least 20 characters.")
    else if |p.title| > 100 then Invalid("Ensure this value has at most 100 characters.")
    else if p.thumbnail != "" && |p.thumbnail| > 200 then Invalid("Ensure this value has at most 200 characters.")
    else if p.thumbnail != "" && !ImageValidators.HasImageExtension(p.thumbnail) then
      Invalid("URL does not have a valid image file extension.")
    else if OwnerCheck(p.owner, ownerBlank).Invalid? then OwnerCheck(p.owner, ownerBlank)
    else if p.content != "" && |p.content| < 1850 then Invalid("Ensure this value has at least 1850 characters.")
    else if |p.content| > 18500 then Invalid("Ensure this value has at most 18500 characters.")
    else Ok
  }

  /** `Post.clean`: a published post needs a thumbnail, then content. */
  function PostClean(p: Post): (r: Outcome)
    ensures r.Ok? <==> p.publishDate.None? || (p.thumbnail != "" && p.content != "")
    ensures p.publishDate.Some? && p.thumbnail == "" ==> r == Invalid(ThumbnailMessage)
    ensures p.publishDate.Some? && p.thumbnail != "" && p.content == "" ==> r == Invalid(ContentMessage)
  {
    if p.publishDate.Some? then
      if p.thumbnail == "" then Invalid(ThumbnailMessage)
      else if p.content == "" then Invalid(ContentMessage)
      else Ok
    else Ok
  }

  /** `Post.full_clean()` against the users table. */
  function PostFullClean(users: set<UserId>, p: Post, ownerBlank: bool): (r: Outcome)
    ensures r.Ok? <==>
      && PostFieldsCheck(p, ownerBlank).Ok?
      && (p.owner.Some? ==> p.owner.value in users)
      && PostClean(p).Ok?
  {
    AndThen(PostFieldsCheck(p, ownerBlank),
      AndThen(if p.owner.Some? && p.owner.value !in users then Invalid("user instance does not exist.") else Ok,
        PostClean(p)))
  }

  /* ------------------------------------------------------------ Comment */

  const PrivatePostMessage := "A comment cannot be made on a private post."
  const SelfReplyMessage := "A comment cannot be a reply to itself."
  const NestedReplyMessage := "A comment cannot be a reply to a reply."
  const ReplyWithRepliesMessage := "A comment that has replies cannot be a reply."

  predicate Published(s: Store, post: Id) {
    post in s.posts && s.posts[post].publishDate.Some?
  }

  /** The comment stored under `parent` is itself a reply. */
  predicate IsReply(comments: map<Id, Comment>, parent: Id) {
    parent in comments && comments[parent].replyTo.Some?
  }

  /** Some stored comment replies to `id`. */
  predicate HasReplies(comments: map<Id, Comment>, id: Id) {
    exists k :: k in comments && comments[k].replyTo == Some(id)
  }

  /** The Comment field validators: owner as `OwnerCheck`, content 1..300 characters. */
  function CommentFieldsCheck(c: Comment, ownerBlank: bool): (r: Outcome)
    ensures r.Ok? <==> (c.owner.None? ==> ownerBlank) && 1 <= |c.content| <= 300
  {
    AndThen(OwnerCheck(c.owner, ownerBlank),
      if c.content == "" then Invalid(Blank)
      else if |c.content| > 300 then Invalid("Ensure this value has at most 300 characters.")
      else Ok)
  }

  /** The foreign keys of a comment name a stored user, post and comment. */
  predicate CommentRefsOk(users: set<UserId>, posts: set<Id>, comments: set<Id>, c: Comment) {
    && (c.owner.Some? ==> c.owner.value in users)
    && c.post in posts
    && (c.replyTo.Some? ==> c.replyTo.value in comments)
  }

  /** The foreign-key checks of a comment. */
  function CommentRefsCheck(s: Store, c: Comment): (r: Outcome)
    ensures r.Ok? <==> CommentRefsOk(s.users, s.posts.Keys, s.comments.Keys, c)
  {
    if c.owner.Some? && c.owner.value !in s.users then Invalid("user instance does not exist.")
    else if c.post !in s.posts then Invalid("post instance does not exist.")
    else if c.replyTo.Some? && c.replyTo.value !in s.comments then Invalid("comment instance does not exist.")
    else Ok
  }

  /**
   * `Comment.clean` as written, for the comment stored under `self` (None when it is new):
   * the post must be published, then a reply must not target the comment itself, then it must
   * not target a reply.
   */
  function CommentClean(s: Store, self: Option<Id>, c: Comment): (r: Outcome)
    ensures !Published(s, c.post) ==> r == Invalid(PrivatePostMessage)
    ensures Published(s, c.post) && c.replyTo.Some? && c.replyTo == self ==> r == Invalid(SelfReplyMessage)
    ensures r.Ok? <==>
      && Published(s, c.post)
      && (c.replyTo.Some? ==> c.replyTo != self && !IsReply(s.comments, c.replyTo.value))
  {
    if !Published(s, c.post) then Invalid(PrivatePostMessage)
    else if c.replyTo.Some? then
      if c.replyTo == self then Invalid(SelfReplyMessage)
      else if IsReply(s.comments, c.replyTo.value) then Invalid(NestedReplyMessage)
      else Ok
    else Ok
  }

  /**
   * `Comment.clean` with the check its messages call for: a comment that already has replies
   * may not itself become a reply, since its replies would then be replies to a reply.
   */
  function CommentCleanFixed(s: Store, self: Option<Id>, c: Comment): (r: Outcome)
    ensures CommentClean(s, self, c).Invalid? ==> r == CommentClean(s, self, c)
    ensures r.Ok? <==>
      && CommentClean(s, self, c).Ok?
      && (c.replyTo.Some? && self.Some? ==> !HasReplies(s.comments, self.value))
  {
    var asWritten := CommentClean(s, self, c);
    if asWritten.Invalid? then asWritten
    else if c.replyTo.Some? && self.Some? && HasReplies(s.comments, self.value) then Invalid(ReplyWithRepliesMessage)
    else Ok
  }

  /** `Comment.full_clean()` as written: the owner may not be null, and `CommentClean`. */
  function CommentFullCleanAsWritten(s: Store, self: Option<Id>, c: Comment): (r: Outcome)
    ensures r.Ok? <==>
      && CommentFieldsCheck(c, OwnerBlankAsWritten).Ok?
      && CommentRefsCheck(s, c).Ok?
      && CommentClean(s, self, c).Ok?
  {
    AndThen(CommentFieldsCheck(c, OwnerBlankAsWritten), AndThen(CommentRefsCheck(s, c), CommentClean(s, self, c)))
  }

  /**
   * `Comment.full_clean()` with both corrections: a null owner (left by a deleted user) is
   * accepted, and `CommentCleanFixed` replaces `CommentClean`.
   */
  function CommentFullClean(s: Store, self: Option<Id>, c: Comment): (r: Outcome)
    ensures r.Ok? <==>
      && CommentFieldsCheck(c, true).Ok?
      && CommentRefsCheck(s, c).Ok?
      && CommentCleanFixed(s, self, c).Ok?
    ensures r.Ok? && c.owner.Some? ==> CommentFullCleanAsWritten(s, self, c).Ok?
  {
    AndThen(CommentFieldsCheck(c, true), AndThen(CommentRefsCheck(s, c), CommentCleanFixed(s, self, c)))
  }

  /* ----------------------------------------------------------- Reaction */

  const PrivateTargetMessage := "A reaction cannot target a private post."
  const PrivateCommentTargetMessage := "A reaction cannot target a comment of a private post."
  const OneTargetMessage := "Constraint “exactly_one_reaction_target” is violated."
  const UniquePostMessage := "Constraint “unique_owner_post” is violated."
  const UniqueCommentMessage := "Constraint “unique_owner_comment” is violated."

  /** `ReactionType`: "L" (Like) or "D" (Dislike). */
  predicate IsReactionType(kind: string) {
    kind == "L" || kind == "D"
  }

  /** The `type` field: not blank, and one of the choices. */
  function ReactionFieldsCheck(r: Reaction): (o: Outcome)
    ensures o.Ok? <==> IsReactionType(r.kind)
  {
    if r.kind == "" then Invalid(Blank)
    else if !IsReactionType(r.kind) then Invalid("Value is not a valid choice.")
    else Ok
  }

  predicate ReactionRefsOk(users: set<UserId>, posts: set<Id>, comments: set<Id>, r: Reaction) {
    && r.owner in users
    && (r.post.Some? ==> r.post.value in posts)
    && (r.comment.Some? ==> r.comment.value in comments)
  }

  /** The foreign-key checks of a reaction. */
  function ReactionRefsCheck(s: Store, r: Reaction): (o: Outcome)
    ensures o.Ok? <==> ReactionRefsOk(s.users, s.posts.Keys, s.comments.Keys, r)
  {
    if r.owner !in s.users then Invalid("user instance does not exist.")
    else if r.post.Some? && r.post.value !in s.posts then Invalid("post instance does not exist.")
    else if r.comment.Some? && r.comment.value !in s.comments then Invalid("comment instance does not exist.")
    else Ok
  }

  /** The post a comment hangs from is published. */
  predicate CommentOnPublished(s: Store, comment: Id) {
    comment in s.comments && Published(s, s.comments[comment].post)
  }

  /** `Reaction.clean`: the target post, or the target comment's post, must be published. */
  function ReactionClean(s: Store, r: Reaction): (o: Outcome)
    ensures o.Ok? <==>
      && (r.post.Some? ==> Published(s, r.post.value))
      && (r.comment.Some? ==> CommentOnPublished(s, r.comment.value))
    ensures r.post.Some? && !Published(s, r.post.value) ==> o == Invalid(PrivateTargetMessage)
  {
    if r.post.Some? && !Published(s, r.post.value) then Invalid(PrivateTargetMessage)
    else if r.comment.Some? && !CommentOnPublished(s, r.comment.value) then Invalid(PrivateCommentTargetMessage)
    else Ok
  }

  /** `exactly_one_reaction_target` */
  predicate ExactlyOneTarget(r: Reaction) {
    r.post.Some? != r.comment.Some?
  }

  /** Another stored reaction (not the one under `self`) of the same owner on the same post. */
  predicate SamePostTaken(reactions: map<Id, Reaction>, self: Option<Id>, r: Reaction) {
    r.post.Some? &&
    exists k :: k in reactions && Some(k) != self && reactions[k].owner == r.owner && reactions[k].post == r.post
  }

  predicate SameCommentTaken(reactions: map<Id, Reaction>, self: Option<Id>, r: Reaction) {
    r.comment.Some? &&
    exists k :: k in reactions && Some(k) != self && reactions[k].owner == r.owner && reactions[k].comment == r.comment
  }

  /** The three constraints of `Reaction.Meta`, checked against the other stored reactions. */
  function ReactionConstraints(s: Store, self: Option<Id>, r: Reaction): (o: Outcome)
    ensures o.Ok? <==> ExactlyOneTarget(r) && !SamePostTaken(s.reactions, self, r) && !SameCommentTaken(s.reactions, self, r)
  {
    if !ExactlyOneTarget(r) then Invalid(OneTargetMessage)
    else if SamePostTaken(s.reactions, self, r) then Invalid(UniquePostMessage)
    else if SameCommentTaken(s.reactions, self, r) then Invalid(UniqueCommentMessage)
    else Ok
  }

  /** `Reaction.full_clean()`: fields, foreign keys, `clean()`, constraints. */
  function ReactionFullClean(s: Store, self: Option<Id>, r: Reaction): (o: Outcome)
    ensures o.Ok? <==>
      && IsReactionType(r.kind)
      && ReactionRefsCheck(s, r).Ok?
      && ReactionClean(s, r).Ok?
      && ExactlyOneTarget(r) && !SamePostTaken(s.reactions, self, r) && !SameCommentTaken(s.reactions, self, r)
  {
    AndThen(ReactionFieldsCheck(r),
      AndThen(ReactionRefsCheck(s, r),
        AndThen(ReactionClean(s, r), ReactionConstraints(s, self, r))))
  }

  /* ---------------------------------------------------- store invariant */

  /** Every key of `keys` is below `next`. */
  predicate KeysBelow(keys: set<Id>, next: Id) {
    forall id :: id in keys ==> id < next
  }

  /** Every title has the tag shape and no two tags share one. */
  predicate TagsOk(tags: map<Id, Tag>) {
    && (forall id :: id in tags ==> TagShapeOk(tags[id].title))
    && (forall a, b :: a in tags && b in tags && a != b ==> tags[a].title != tags[b].title)
  }

  /** A post row passes its field checks (null owner allowed) and `clean()`, with at most 5 tags. */
  predicate PostRowOk(p: Post) {
    PostFieldsCheck(p, true).Ok? && PostClean(p).Ok? && |p.tags| <= 5
  }

  predicate PostsOk(users: set<UserId>, tags: set<Id>, posts: map<Id, Post>) {
    forall id :: id in posts ==>
      PostRowOk(posts[id]) && (posts[id].owner.Some? ==> posts[id].owner.value in users) && posts[id].tags <= tags
  }

  /** Replies are one level deep: a comment replied to is not itself a reply. */
  predicate RepliesFlat(comments: map<Id, Comment>) {
    forall id :: id in comments && comments[id].replyTo.Some? ==> !IsReply(comments, comments[id].replyTo.value)
  }

  /** Comment rows pass their field checks (null owner allowed), reference stored rows, and replies are flat. */
  predicate CommentsOk(users: set<UserId>, posts: set<Id>, comments: map<Id, Comment>) {
    && (forall id :: id in comments ==>
          CommentFieldsCheck(comments[id], true).Ok? && CommentRefsOk(users, posts, comments.Keys, comments[id]))
    && RepliesFlat(comments)
  }

  /** Two reactions of one owner never share a target. */
  predicate ReactionsUnique(reactions: map<Id, Reaction>) {
    forall a, b :: a in reactions && b in reactions && a != b && reactions[a].owner == reactions[b].owner ==>
      && (reactions[a].post.Some? ==> reactions[a].post != reactions[b].post)
      && (reactions[a].comment.Some? ==> reactions[a].comment != reactions[b].comment)
  }

  predicate ReactionsOk(users: set<UserId>, posts: set<Id>, comments: set<Id>, reactions: map<Id, Reaction>) {
    && (forall id :: id in reactions ==>
          && IsReactionType(reactions[id].kind)
          && ExactlyOneTarget(reactions[id])
          && ReactionRefsOk(users, posts, comments, reactions[id]))
    && ReactionsUnique(reactions)
  }

  predicate ProfilesOk(users: set<UserId>, profiles: map<Id, UserId>) {
    forall id :: id in profiles ==> profiles[id] in users
  }

  /** The invariant every store operation keeps. */
  predicate Valid(s: Store) {
    && KeysBelow(s.tags.Keys, s.nextId) && KeysBelow(s.posts.Keys, s.nextId)
    && KeysBelow(s.comments.Keys, s.nextId) && KeysBelow(s.reactions.Keys, s.nextId)
    && TagsOk(s.tags)
    && PostsOk(s.users, s.tags.Keys, s.posts)
    && CommentsOk(s.users, s.posts.Keys, s.comments)
    && ReactionsOk(s.users, s.posts.Keys, s.comments.Keys, s.reactions)
    && ProfilesOk(s.users, s.profiles)
  }

  /** Flat replies already rule out a comment replying to itself. */
  lemma FlatRepliesExcludeSelfReply(comments: map<Id, Comment>, id: Id)
    requires RepliesFlat(comments) && id in comments
    ensures comments[id].replyTo != Some(id)
  {
    if comments[id].replyTo == Some(id) {
      assert IsReply(comments, id);
      assert false;
    }
  }
}
