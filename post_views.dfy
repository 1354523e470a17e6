/**
 * The four viewsets of the posts application: the permission classes each one installs per
 * action, the rows each one's query set lets a user see, and the owner `perform_create` puts
 * on a new row. A request's outcome is `RestFramework.Dispatch` over those.
 */
module PostViews {
  import opened Common
  import opened Identity
  import opened PostsModels
  import opened RestFramework
  import PostsStore

  /** The actions `update`, `partial_update` and `destroy`. */
  predicate IsWrite(a: Option<Action>) {
    a == Some(Update) || a == Some(PartialUpdate) || a == Some(Destroy)
  }

  /* --------------------------------------------------------------- tags */

  /** `TagViewSet.get_permissions` */
  function TagPermissions(a: Option<Action>): (ps: seq<Perm>)
    ensures 1 <= |ps| <= 2 && ps[0] == IsAuthenticatedOrReadOnly
    ensures IsAuthor in ps <==> a == Some(Create)
    ensures Perm.IsModerator in ps <==> IsWrite(a)
  {
    if a == Some(Create) then [IsAuthenticatedOrReadOnly, IsAuthor]
    else if IsWrite(a) then [IsAuthenticatedOrReadOnly, Perm.IsModerator]
    else [IsAuthenticatedOrReadOnly]
  }

  /** A tag request; every tag is in the query set. */
  function TagRequest(s: Store, u: User, m: Method, r: Route): (d: Decision)
    ensures u.Anonymous? && !IsSafe(m) ==> d == Unauthenticated
    ensures (m == GET || m == HEAD) && r.DetailRoute? ==> (d == Allow <==> r.pk in s.tags)
    ensures d == NotFound ==> r.DetailRoute? && r.pk !in s.tags
  {
    var found := if r.DetailRoute? && r.pk in s.tags then Found(None) else Missing;
    Dispatch(TagPermissions(ActionOf(m, r)), {}, u, m, r, found)
  }

  /** Reads are open; creating needs "author"; changing or deleting needs "moderator". */
  lemma TagDecisions(s: Store, u: User, m: Method, r: Route)
    ensures IsSafe(m) && (r.ListRoute? || r.pk in s.tags) ==> TagRequest(s, u, m, r) == Allow
    ensures u.Anonymous? && !IsSafe(m) ==> TagRequest(s, u, m, r) == Unauthenticated
    ensures u.Member? && r.ListRoute? && m == POST ==>
      TagRequest(s, u, m, r) == (if "author" in u.groups then Allow else Forbidden)
    ensures u.Member? && r.DetailRoute? && (m == PUT || m == PATCH || m == DELETE) ==>
      TagRequest(s, u, m, r) ==
        (if "moderator" !in u.groups then Forbidden else if r.pk in s.tags then Allow else NotFound)
  {
    AllPermitShort(IsAuthenticatedOrReadOnly, IsAuthor, u, m, None);
    AllPermitShort(IsAuthenticatedOrReadOnly, Perm.IsModerator, u, m, None);
  }

  /** `(role & IsOwner) | IsModerator`, the write permission of posts and comments. */
  lemma RoleOwnerOrModerator(role: Perm, u: User, m: Method, owner: Option<UserId>)
    requires role == IsAuthor || role == IsCommenter
    ensures HasPermission(Or(And(role, IsOwner), Perm.IsModerator), u, m) <==>
      HasPermission(role, u, m) || InGroup(u, "moderator")
    ensures HasObjectPermission(Or(And(role, IsOwner), Perm.IsModerator), u, m, owner) <==>
      (HasPermission(role, u, m) && Owns(u, owner)) || InGroup(u, "moderator")
  {
    assert HasPermission(And(role, IsOwner), u, m) == HasPermission(role, u, m);
    assert HasObjectPermission(And(role, IsOwner), u, m, owner) == Owns(u, owner);
  }

  /* -------------------------------------------------------------- posts */

  /** `PostViewSet.get_permissions` */
  function PostPermissions(a: Option<Action>): (ps: seq<Perm>)
    ensures 1 <= |ps| <= 2 && ps[0] == IsAuthenticatedOrReadOnly
    ensures IsAuthor in ps <==> a == Some(Create)
    ensures |ps| == 2 <==> a == Some(Create) || IsWrite(a)
  {
    if a == Some(Create) then [IsAuthenticatedOrReadOnly, IsAuthor]
    else if IsWrite(a) then [IsAuthenticatedOrReadOnly, Or(And(IsAuthor, IsOwner), Perm.IsModerator)]
    else [IsAuthenticatedOrReadOnly]
  }

  /** `PostViewSet.get_queryset`: published posts, and the requester's own. */
  predicate PostVisible(u: User, p: Post) {
    p.publishDate.Some? || (u.Member? && p.owner == Some(u.id))
  }

  /** `get_object()` over a query set: the row under `pk`, if the query set holds it. */
  function PostLookup(s: Store, u: User, r: Route): (l: Lookup)
    ensures l.Found? <==> r.DetailRoute? && r.pk in s.posts && PostVisible(u, s.posts[r.pk])
    ensures l.Found? ==> l.owner == s.posts[r.pk].owner
  {
    if r.DetailRoute? && r.pk in s.posts && PostVisible(u, s.posts[r.pk]) then Found(s.posts[r.pk].owner) else Missing
  }

  /** A post request: the permission classes of the action over the rows `get_queryset` returns. */
  function PostRequest(s: Store, u: User, m: Method, r: Route): (d: Decision)
    ensures u.Anonymous? && !IsSafe(m) ==> d == Unauthenticated
    ensures (m == GET || m == HEAD) && r.DetailRoute? ==>
      (d == Allow <==> r.pk in s.posts && PostVisible(u, s.posts[r.pk]))
    ensures d == NotFound ==> r.DetailRoute? && !(r.pk in s.posts && PostVisible(u, s.posts[r.pk]))
  {
    Dispatch(PostPermissions(ActionOf(m, r)), {}, u, m, r, PostLookup(s, u, r))
  }

  /** Reading one post: allowed when the query set holds it, 404 otherwise, for everyone. */
  lemma PostReadDecision(s: Store, u: User, pk: Id)
    ensures PostRequest(s, u, GET, DetailRoute(pk)) ==
      (if pk in s.posts && PostVisible(u, s.posts[pk]) then Allow else NotFound)
  {
  }

  /** Creating a post: 401 for the anonymous user, and otherwise only "author" may. */
  lemma PostCreateDecision(s: Store, u: User)
    ensures PostRequest(s, u, POST, ListRoute) ==
      (if u.Anonymous? then Unauthenticated else if "author" in u.groups then Allow else Forbidden)
  {
    AllPermitShort(IsAuthenticatedOrReadOnly, IsAuthor, u, POST, None);
  }

  /**
   * Changing or deleting a post: 401 for the anonymous user; 403 without "author" or
   * "moderator"; 404 when the query set does not hold it; then a moderator may, and an author
   * may when they own it.
   */
  lemma PostWriteDecision(s: Store, u: User, m: Method, pk: Id)
    requires m == PUT || m == PATCH || m == DELETE
    ensures PostRequest(s, u, m, DetailRoute(pk)) ==
      if u.Anonymous? then Unauthenticated
      else if "author" !in u.groups && "moderator" !in u.groups then Forbidden
      else if !(pk in s.posts && PostVisible(u, s.posts[pk])) then NotFound
      else if "moderator" in u.groups || s.posts[pk].owner == Some(u.id) then Allow
      else Forbidden
  {
    var owner := if pk in s.posts then s.posts[pk].owner else None;
    RoleOwnerOrModerator(IsAuthor, u, m, owner);
    AllPermitShort(IsAuthenticatedOrReadOnly, Or(And(IsAuthor, IsOwner), Perm.IsModerator), u, m, owner);
  }

  /** The owner of a post who has lost the "author" role may no longer change it. */
  lemma OwnerWithoutRoleForbidden(s: Store, id: UserId, groups: set<string>, m: Method, pk: Id)
    requires m == PUT || m == PATCH || m == DELETE
    requires pk in s.posts && s.posts[pk].owner == Some(id)
    requires "author" !in groups && "moderator" !in groups
    ensures PostRequest(s, Member(id, groups), m, DetailRoute(pk)) == Forbidden
  {
    PostWriteDecision(s, Member(id, groups), m, pk);
  }

  /* ----------------------------------------------------------- comments */

  /** `CommentViewSet.get_permissions` */
  function CommentPermissions(a: Option<Action>): (ps: seq<Perm>)
    ensures 1 <= |ps| <= 2 && ps[0] == IsAuthenticatedOrReadOnly
    ensures IsCommenter in ps <==> a == Some(Create)
    ensures |ps| == 2 <==> a == Some(Create) || IsWrite(a)
  {
    if a == Some(Create) then [IsAuthenticatedOrReadOnly, IsCommenter]
    else if IsWrite(a) then [IsAuthenticatedOrReadOnly, Or(And(IsCommenter, IsOwner), Perm.IsModerator)]
    else [IsAuthenticatedOrReadOnly]
  }

  /** The post under `post` is owned by the requester. */
  predicate OwnsPost(s: Store, u: User, post: Id) {
    u.Member? && post in s.posts && s.posts[post].owner == Some(u.id)
  }

  /**
   * `CommentViewSet.get_queryset`: comments on published posts; for a logged-in user also
   * their own comments and every comment on their own posts.
   */
  predicate CommentVisible(s: Store, u: User, c: Comment) {
    Published(s, c.post) || (u.Member? && (c.owner == Some(u.id) || OwnsPost(s, u, c.post)))
  }

  function CommentLookup(s: Store, u: User, r: Route): (l: Lookup)
    ensures l.Found? <==> r.DetailRoute? && r.pk in s.comments && CommentVisible(s, u, s.comments[r.pk])
    ensures l.Found? ==> l.owner == s.comments[r.pk].owner
  {
    if r.DetailRoute? && r.pk in s.comments && CommentVisible(s, u, s.comments[r.pk]) then
      Found(s.comments[r.pk].owner)
    else Missing
  }

  /** A comment request: the permission classes of the action over the rows `get_queryset` returns. */
  function CommentRequest(s: Store, u: User, m: Method, r: Route): (d: Decision)
    ensures u.Anonymous? && !IsSafe(m) ==> d == Unauthenticated
    ensures (m == GET || m == HEAD) && r.DetailRoute? ==>
      (d == Allow <==> r.pk in s.comments && CommentVisible(s, u, s.comments[r.pk]))
    ensures d == NotFound ==> r.DetailRoute? && !(r.pk in s.comments && CommentVisible(s, u, s.comments[r.pk]))
  {
    Dispatch(CommentPermissions(ActionOf(m, r)), {}, u, m, r, CommentLookup(s, u, r))
  }

  /** A comment on a private post is hidden (404) from everyone but its owner and the post's owner. */
  lemma CommentOnPrivatePostHidden(s: Store, u: User, pk: Id)
    requires pk in s.comments && !Published(s, s.comments[pk].post)
    ensures CommentRequest(s, u, GET, DetailRoute(pk)) ==
      (if u.Member? && (s.comments[pk].owner == Some(u.id) || OwnsPost(s, u, s.comments[pk].post)) then Allow
       else NotFound)
  {
  }

  /** Creating a comment needs "commenter"; changing one needs ("commenter" and owner) or "moderator". */
  lemma CommentDecisions(s: Store, u: User, m: Method, pk: Id)
    ensures CommentRequest(s, u, POST, ListRoute) ==
      (if u.Anonymous? then Unauthenticated else if "commenter" in u.groups then Allow else Forbidden)
    ensures m == PUT || m == PATCH || m == DELETE ==>
      CommentRequest(s, u, m, DetailRoute(pk)) ==
        if u.Anonymous? then Unauthenticated
        else if "commenter" !in u.groups && "moderator" !in u.groups then Forbidden
        else if !(pk in s.comments && CommentVisible(s, u, s.comments[pk])) then NotFound
        else if "moderator" in u.groups || s.comments[pk].owner == Some(u.id) then Allow
        else Forbidden
  {
    var owner := if pk in s.comments then s.comments[pk].owner else None;
    RoleOwnerOrModerator(IsCommenter, u, m, owner);
    AllPermitShort(IsAuthenticatedOrReadOnly, IsCommenter, u, POST, None);
    AllPermitShort(IsAuthenticatedOrReadOnly, Or(And(IsCommenter, IsOwner), Perm.IsModerator), u, m, owner);
  }

  /* ---------------------------------------------------------- reactions */

  /** `ReactionViewSet.get_permissions` */
  function ReactionPermissions(a: Option<Action>): (ps: seq<Perm>)
    ensures 1 <= |ps| <= 2 && ps[0] == IsAuthenticatedOrReadOnly
    ensures IsOwner in ps <==> IsWrite(a)
  {
    if IsWrite(a) then [IsAuthenticatedOrReadOnly, IsOwner] else [IsAuthenticatedOrReadOnly]
  }

  /** The reaction's target post (or the target comment's post) satisfies `P`. */
  predicate PostTargetVisible(s: Store, u: User, x: Reaction) {
    x.post.Some? && (Published(s, x.post.value) || OwnsPost(s, u, x.post.value))
  }

  predicate CommentTargetVisible(s: Store, u: User, x: Reaction) {
    x.comment.Some? && x.comment.value in s.comments &&
    (Published(s, s.comments[x.comment.value].post) || OwnsPost(s, u, s.comments[x.comment.value].post))
  }

  /**
   * `ReactionViewSet.get_queryset`: reactions on a published post or on a comment of one; for
   * a logged-in user also their own reactions, and those on (comments of) their own posts.
   */
  predicate ReactionVisible(s: Store, u: User, x: Reaction) {
    (u.Member? && x.owner == u.id) || PostTargetVisible(s, u, x) || CommentTargetVisible(s, u, x)
  }

  function ReactionLookup(s: Store, u: User, r: Route): (l: Lookup)
    ensures l.Found? <==> r.DetailRoute? && r.pk in s.reactions && ReactionVisible(s, u, s.reactions[r.pk])
    ensures l.Found? ==> l.owner == Some(s.reactions[r.pk].owner)
  {
    if r.DetailRoute? && r.pk in s.reactions && ReactionVisible(s, u, s.reactions[r.pk]) then
      Found(Some(s.reactions[r.pk].owner))
    else Missing
  }

  /** A reaction request: the permission classes of the action over the rows `get_queryset` returns. */
  function ReactionRequest(s: Store, u: User, m: Method, r: Route): (d: Decision)
    ensures u.Anonymous? && !IsSafe(m) ==> d == Unauthenticated
    ensures (m == GET || m == HEAD) && r.DetailRoute? ==>
      (d == Allow <==> r.pk in s.reactions && ReactionVisible(s, u, s.reactions[r.pk]))
    ensures d == NotFound ==> r.DetailRoute? && !(r.pk in s.reactions && ReactionVisible(s, u, s.reactions[r.pk]))
  {
    Dispatch(ReactionPermissions(ActionOf(m, r)), {}, u, m, r, ReactionLookup(s, u, r))
  }

  /** Anonymous visibility: the target post, or the target comment's post, is published. */
  lemma AnonymousReactionVisibility(s: Store, x: Reaction)
    ensures ReactionVisible(s, Anonymous, x) <==>
      (x.post.Some? && Published(s, x.post.value)) || (x.comment.Some? && CommentOnPublished(s, x.comment.value))
  {
  }

  /** Owning the comment a reaction targets grants no view of the reaction. */
  lemma CommentOwnerGainsNothing(s: Store, u: User, x: Reaction, cm: Id, owner: Option<UserId>)
    requires cm in s.comments
    ensures var t := s.(comments := s.comments[cm := s.comments[cm].(owner := owner)]);
      ReactionVisible(t, u, x) == ReactionVisible(s, u, x)
  {
  }

  /** Whatever the anonymous user sees, every logged-in user sees too. */
  lemma LoggingInHidesNothing(s: Store, id: UserId, groups: set<string>, p: Post, c: Comment, x: Reaction)
    ensures PostVisible(Anonymous, p) ==> PostVisible(Member(id, groups), p)
    ensures CommentVisible(s, Anonymous, c) ==> CommentVisible(s, Member(id, groups), c)
    ensures ReactionVisible(s, Anonymous, x) ==> ReactionVisible(s, Member(id, groups), x)
  {
  }

  /** Any logged-in user may react; only a reaction's owner may change or delete it. */
  lemma ReactionDecisions(s: Store, u: User, m: Method, pk: Id)
    ensures ReactionRequest(s, u, POST, ListRoute) == (if u.Anonymous? then Unauthenticated else Allow)
    ensures m == PUT || m == PATCH || m == DELETE ==>
      ReactionRequest(s, u, m, DetailRoute(pk)) ==
        if u.Anonymous? then Unauthenticated
        else if !(pk in s.reactions && ReactionVisible(s, u, s.reactions[pk])) then NotFound
        else if s.reactions[pk].owner == u.id then Allow
        else Forbidden
  {
    var owner := if pk in s.reactions then Some(s.reactions[pk].owner) else None;
    AllPermitShort(IsAuthenticatedOrReadOnly, IsOwner, u, POST, None);
    AllPermitShort(IsAuthenticatedOrReadOnly, IsOwner, u, m, owner);
  }

  /* ------------------------------------------------------ perform_create */

  /**
   * `PostViewSet.perform_create` and the serializer's `create`: the row is written with the
   * requester as owner and no publish date (both read-only in the serializer), then the
   * requested tags are set. The two writes are separate: when the tags are refused the row
   * stays, without tags.
   */
  function PerformCreatePost(s: Store, user: UserId, p: Post): (r: (Store, Outcome))
    ensures PostsStore.SavePost(s, None, p.(owner := Some(user), publishDate := None)).Failure? ==> r.0 == s && r.1.Invalid?
    ensures PostsStore.SavePost(s, None, p.(owner := Some(user), publishDate := None)).Success? ==>
      && s.nextId in r.0.posts
      && r.0.posts[s.nextId].owner == Some(user)
      && r.0.posts[s.nextId].publishDate.None?
      && r.0.posts[s.nextId].title == p.title
      && r.0.posts[s.nextId].thumbnail == p.thumbnail
      && r.0.posts[s.nextId].content == p.content
      && (r.1.Ok? <==> PostsStore.SetTags(PostsStore.SavePost(s, None, p.(owner := Some(user), publishDate := None)).value, s.nextId, p.tags).Success?)
      && r.0.posts[s.nextId].tags == (if r.1.Ok? then p.tags else {})
      && r.0 == s.(posts := s.posts[s.nextId := r.0.posts[s.nextId]], nextId := s.nextId + 1)
  {
    var saved := PostsStore.SavePost(s, None, p.(owner := Some(user), publishDate := None));
    if saved.Failure? then (s, Invalid(saved.msg))
    else
      var tagged := PostsStore.SetTags(saved.value, s.nextId, p.tags);
      if tagged.Failure? then (saved.value, Invalid(tagged.msg)) else (tagged.value, Ok)
  }

  /** A post created through the API is private: its owner sees it, the anonymous user does not. */
  lemma CreatedPostIsPrivate(s: Store, user: UserId, groups: set<string>, p: Post)
    requires PostsStore.SavePost(s, None, p.(owner := Some(user), publishDate := None)).Success?
    ensures var t := PerformCreatePost(s, user, p).0;
      && !PostVisible(Anonymous, t.posts[s.nextId])
      && PostVisible(Member(user, groups), t.posts[s.nextId])
  {
  }

  /** `CommentViewSet.perform_create`: the requester owns the new comment. */
  function PerformCreateComment(s: Store, user: UserId, c: Comment): (r: Result<Store>)
    ensures r.Success? ==> s.nextId in r.value.comments && r.value.comments[s.nextId].owner == Some(user)
    ensures r.Success? <==> CommentFullClean(s, None, c.(owner := Some(user))).Ok?
    ensures r.Success? ==> r.value == s.(comments := s.comments[s.nextId := r.value.comments[s.nextId]], nextId := s.nextId + 1)
    ensures r.Success? ==>
      && r.value.comments[s.nextId].content == c.content
      && r.value.comments[s.nextId].post == c.post
      && r.value.comments[s.nextId].replyTo == c.replyTo
  {
    PostsStore.SaveComment(s, None, c.(owner := Some(user)))
  }
}
