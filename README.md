# TechstackApi posts core, in Dafny

TechstackApi is a Django REST backend for a technical blog. Members post articles (`Post`), label
them with tags (`Tag`), comment on them (`Comment`, one level of replies) and like or dislike
posts and comments (`Reaction`). Authority comes from group membership: "author" members write
posts, "commenter" members write comments, and "moderator" members may edit or delete any tag, and any
post or comment visible to them. A post without a publish date is private. Only its owner sees it, and nobody
may comment on it or react to it.

This project models:

- **Rows and the store.** The rows are datatypes. The database is a `Store` value with one map
  per table (`PostsModels`).
- **Row checks.** Each model's `full_clean()` is a function that returns the first
  `ValidationError` message, or `Ok`. This covers the field validators, the foreign keys,
  `clean()` and the table constraints.
- **Tag-count receiver.** The `m2m_changed` receiver that bounds a post's tag count
  (`PostSignals`).
- **Write operations.** `save()`, `delete()` with its cascades, the `tags.add/remove/clear/set`
  many-to-many operations and user deletion, each as a function from store to store
  (`PostsStore`). `StoreInvariant` proves that every one of them keeps the store invariant
  `Valid`.
- **Request dispatch.** How Django REST framework decides a request: the permission classes, the
  action, the per-user query set (404) and the object permissions (`RestFramework`). On top of
  it sit the four view sets of the posts app (`PostViews`) and the profile view set
  (`ProfileViews`).
- **Serializers.** The reaction serializer's representation, the like and dislike counts, and
  the post update and create paths (`PostSerializers`). The two serializer mixins of the core
  app (`SerializerMixins`); `DynamicFieldsMixin` is a class whose constructor drops fields in a
  loop.
- **Image URL validator.** Its extension test (`ImageValidators`), including `posixpath.splitext`.
- **`populate_db`.** The management command's counting logic: how many tags, posts, comments and
  reactions it creates, and in which order (`PopulateDb`).

Modules, one per file: `Common`, `Identity`, `CorePermissions`, `PostPermissions`,
`RestFramework`, `ImageValidators`, `PostsModels`, `PostSignals`, `PostsStore`,
`StoreInvariant`, `PostsFindings`, `PostViews`, `ProfileViews`, `PostSerializers`,
`SerializerMixins`, `PopulateDb`.

Three behaviours of the code that the model keeps as written:

- `Comment.clean` does not require a reply to be on the same post as its parent.
- `Post.clean` does not require a tag when a post is published. The tag-count bounds come only
  from the `m2m_changed` receiver, and `tags.clear()` bypasses it.
- The `pre_remove` receiver counts every requested id, present or not
  (`PostsFindings.AbsentIdsCountAgainstRemoval`).

## Model

| member | source | states |
|---|---|---|
| Common.Lower | src/apps/core/validators.py:9 | `str.lower` on ASCII: same length, each character lower-cased on its own |
| Common.LowerFixedIff | src/apps/posts/models.py:12-16 | a title satisfies the `lowercase_title` constraint exactly when it has no upper-case letter |
| CorePermissions.IsOwnerOrReadOnly | src/apps/core/permissions.py:4-9 | safe methods are always allowed; otherwise only the object's owner is |
| CorePermissions.IsNotCreating | src/apps/core/permissions.py:12-17 | refuses exactly POST |
| CorePermissions.IsNotDeleting | src/apps/core/permissions.py:20-25 | refuses exactly DELETE |
| CorePermissions.IsOwnerObject | src/apps/posts/views.py:155 | `IsOwner` allows exactly the object's owner, which is the write branch of `IsOwnerOrReadOnly`, and never the anonymous user |
| CorePermissions.IsModerator | src/apps/posts/views.py:26 | allows exactly members of the "moderator" group, never the anonymous user |
| CorePermissions.ReadOnly | src/apps/profiles/views.py:16-19 | allows exactly the requests that neither create, update nor delete |
| PostPermissions.IsAuthor | src/apps/posts/permissions.py:4-6 | allows exactly members of the "author" group |
| PostPermissions.IsCommenter | src/apps/posts/permissions.py:9-11 | allows exactly members of the "commenter" group |
| PostPermissions.RolesIndependent | src/apps/posts/permissions.py:4-11 | joining "author" grants `IsAuthor` and not `IsCommenter`, and the other way round |
| RestFramework.ActionOf | src/apps/posts/views.py:23-25 | the view-set action of a method on a route: POST on the list creates; a detail action is exactly a non-POST, non-OPTIONS method on a detail route; write methods on the list and POST on a detail are not routed (405) |
| RestFramework.AllPermitShort | src/apps/profiles/views.py:16-19 | a view with one or two permission classes allows exactly when each class allows, for both checks |
| RestFramework.Denied | src/apps/posts/views.py:20-28 | a refused permission is 401 for the anonymous user and 403 for a member |
| RestFramework.Dispatch | src/apps/posts/views.py:20-28 | a request is allowed exactly when every permission class allows it, the method has an action the view does not refuse, and for a detail action the object is in the user's query set and passes every object check; 404 and 405 exactly in their cases; a failed permission check or object check answers 401 to the anonymous user and 403 to a member, and a refused action answers 403 |
| RestFramework.AnonymousWriteUnauthenticated | src/apps/posts/views.py:21 | with `IsAuthenticatedOrReadOnly` first, every anonymous write is answered 401, whatever the route |
| ImageValidators.RFind | src/apps/core/validators.py:9 | `rfind`: the index of the last occurrence of the character, or -1 |
| ImageValidators.Extension | src/apps/core/validators.py:9 | `splitext`: the extension is the path from its last '.', exactly when that dot comes after the last '/' and the name before it is not only dots, and otherwise empty; it holds no other '.' and no '/' |
| ImageValidators.HasImageExtension | src/apps/core/validators.py:8-12 | a URL passes the extension test only when it ends, after its last '/', in a dot and three or four more characters that lower-case to a listed image extension; a URL without an extension fails |
| ImageValidators.ValidateImageUrl | src/apps/core/validators.py:7-22 | a URL without an image extension is rejected with its message; a URL is accepted exactly when it has one and the HEAD answer's content type, looked up without regard to case, starts with "image/" |
| ImageValidators.HeaderDict | src/apps/core/validators.py:19 | the response's header dictionary holds a key exactly for each field name, lower-cased |
| ImageValidators.HeaderDictValue | src/apps/core/validators.py:19 | the value under a name is the values of every field of that name, in the order received, joined with ", " |
| ImageValidators.SingleContentTypeDecides | src/apps/core/validators.py:19-22 | with one Content-Type field, in any case, a URL with an image extension is accepted exactly when that field's value starts with "image/" |
| ImageValidators.MissingContentTypeExactly | src/apps/core/validators.py:19 | the `KeyError` happens exactly when the URL passes the extension test and no header field is named Content-Type in any case |
| ImageValidators.ExtensionCheckedBeforeRequest | src/apps/core/validators.py:11-14 | a URL that fails the extension test gets the same verdict whatever the request would answer |
| ImageValidators.FileNameSeparators | src/apps/core/validators.py:9 | in `prefix/name.ext`, the last '/' and the last '.' are the ones before `name` and `ext` |
| ImageValidators.ExtensionOfFileName | src/apps/core/validators.py:9 | the extension of `prefix/name.ext` is `.ext`, whatever the prefix |
| ImageValidators.UpperCaseExtensionAccepted | src/apps/core/validators.py:9-12 | "photo.PNG" passes the extension test |
| ImageValidators.QueryStringRejected | src/apps/core/validators.py:9-12 | a '?' after the dot becomes part of the extension, so such a URL fails the extension test |
| ImageValidators.NoExtensionRejected | src/apps/core/validators.py:9-12 | a last segment without a dot has no extension, and the URL fails the test |
| PostsModels.TagTitleCheck | src/apps/posts/models.py:10-29 | a tag title passes exactly when it has 1..20 characters, only letters, digits and '-', no upper case, and no other tag has it; an accepted title uses only lower-case letters, digits and '-' |
| PostsModels.OtherTitles | src/apps/posts/models.py:20 | the titles of every stored tag except the one being saved, and only those |
| PostsModels.OwnerCheck | src/apps/posts/models.py:38-43 | a null owner is refused exactly when the field is not `blank=True` |
| PostsModels.PostFieldsCheck | src/apps/posts/models.py:36-48 | a post's fields pass exactly when: the title has 20..100 characters; the thumbnail is blank, or has at most 200 characters and an image extension; the owner is set, or the field is blank-able; the content is blank or has 1850..18500 characters |
| PostsModels.PostClean | src/apps/posts/models.py:51-59 | a published post needs a thumbnail, then content, each refusal with its message; a private post always passes |
| PostsModels.PostFullClean | src/apps/posts/models.py:61-63 | `full_clean` passes exactly when the fields, the owner reference and `clean()` all pass |
| PostsModels.CommentFieldsCheck | src/apps/posts/models.py:67-79 | the owner is set, or the field is blank-able, and the content has 1..300 characters |
| PostsModels.CommentRefsCheck | src/apps/posts/models.py:67-82 | passes exactly when the owner, the post and the parent comment exist |
| PostsModels.CommentClean | src/apps/posts/models.py:84-95 | a comment on a private post is refused first; a reply is refused when it targets itself or a reply; otherwise it passes |
| PostsModels.CommentCleanFixed | src/apps/posts/models.py:84-95 | every refusal of `clean()` as written, plus: a comment that has replies may not become a reply |
| PostsModels.CommentFullCleanAsWritten | src/apps/posts/models.py:97-99 | `full_clean` as written: fields with a non-blank owner, references, then `clean()` |
| PostsModels.CommentFullClean | src/apps/posts/models.py:97-99 | the corrected `full_clean` passes exactly when fields (null owner allowed), references and the corrected `clean()` pass; for a row with an owner it is stricter than the one as written |
| PostsModels.ReactionFieldsCheck | src/apps/posts/models.py:124-134 | the type passes exactly when it is "L" or "D" |
| PostsModels.ReactionRefsCheck | src/apps/posts/models.py:128-147 | passes exactly when the owner, the post and the comment exist |
| PostsModels.ReactionClean | src/apps/posts/models.py:149-158 | a reaction passes exactly when its target post is published, or its target comment is on a published post; a private post target gets its own message |
| PostsModels.ReactionConstraints | src/apps/posts/models.py:103-122 | passes exactly when there is one target, and no other reaction of the same owner has the same post or the same comment |
| PostsModels.ReactionFullClean | src/apps/posts/models.py:160-162 | `full_clean` passes exactly when the type, the references, `clean()` and the three constraints all pass |
| PostsModels.FlatRepliesExcludeSelfReply | src/apps/posts/models.py:90-95 | in a store whose replies are one level deep, no comment replies to itself |
| PostSignals.CleanPostOnTagsChange | src/apps/posts/signals.py:13-35 | `pre_add` refuses when more than 5 tags would result; `pre_remove` refuses only on a published post left with fewer than 1 tag; every other action passes |
| PostSignals.UpperBoundIgnoresPublication | src/apps/posts/signals.py:15-21 | the upper bound applies to private and published posts alike |
| PostSignals.ClearUnbounded | src/apps/posts/signals.py:13-35 | `pre_clear` is never refused, so `clear()` may leave a published post without tags |
| PostsStore.EmptyStore | src/apps/commando/management/commands/populate_db.py:43-47 | the cleared database satisfies the store invariant |
| PostsStore.CreateTag | src/apps/posts/models.py:10-29 | creating a tag succeeds exactly when the title has the tag shape and is not taken; the refusal is the title check's message; a new row gets a fresh key |
| PostsStore.RenameTag | src/apps/posts/models.py:18-20 | renaming succeeds exactly when the tag exists and the new title has the shape and belongs to no other tag |
| PostsStore.DeleteTag | src/apps/posts/models.py:49 | deleting a tag removes it and its links from every post; comments, reactions, users, profiles and the id counter stay |
| PostsStore.SavePost | src/apps/posts/models.py:61-63 | a save succeeds exactly when the row exists (for an update) and `full_clean` passes with a null owner allowed; an update keeps the stored tags, a create starts with none |
| PostsStore.AddTags | src/apps/posts/signals.py:15-21 | `tags.add` succeeds exactly when the ids exist and the union has at most 5 tags; it refuses with the too-many message |
| PostsStore.RemoveTags | src/apps/posts/signals.py:23-35 | `tags.remove` succeeds unless the post is published and its count minus the number of requested ids falls below 1 |
| PostsStore.ClearTags | src/apps/posts/signals.py:13-35 | `tags.clear` always succeeds on a stored post and leaves it without tags |
| PostsStore.SetTags | src/apps/posts/signals.py:13-35 | `tags.set` succeeds exactly when the ids exist, a published post keeps one of its tags through the removal step, and adding does not exceed 5; it then holds exactly the requested ids |
| PostsStore.SetTagsIsRemoveThenAdd | src/apps/posts/signals.py:13-35 | `set` is the removal of the unwanted ids followed by the addition of the missing ones: the same refusal, or the same result |
| PostsStore.SaveComment | src/apps/posts/models.py:97-99 | a save succeeds exactly when the row exists (for an update) and the corrected `full_clean` passes; the row is written under its key |
| PostsStore.SaveReaction | src/apps/posts/models.py:160-162 | a save succeeds exactly when the row exists (for an update) and `full_clean` passes; the row is written under its key |
| PostsStore.DeleteReaction | src/apps/posts/models.py:102-162 | deleting a stored reaction removes only that row |
| PostsStore.DeleteComment | src/apps/posts/models.py:80-82 | deleting a comment removes it and every comment whose chain of parents leads to it, keeps every other comment unchanged, and keeps exactly the reactions not on a removed comment; posts, tags, users, profiles and the id counter stay |
| PostsStore.FlatCommentCascade | src/apps/posts/models.py:80-82 | with flat replies, a comment's cascade is the comment and its direct replies |
| PostsStore.FlatPostCascade | src/apps/posts/models.py:73-82 | with flat replies, a post's cascade is its comments and the direct replies to them |
| PostsStore.NestedReplyCascades | src/apps/posts/models.py:80-82 | a reply to a reply is deleted with the comment at the top of the chain |
| PostsStore.DescendsFromShort | src/apps/posts/models.py:80-82 | a `reply_to` chain that reaches a comment at all reaches it in fewer steps than there are comments, so the cascade's bound loses no chain |
| PostsStore.CommentCascadeClosed | src/apps/posts/models.py:80-82 | the comment cascade is closed under replies: a reply to a comment that is deleted is deleted too |
| PostsStore.PostCascadeClosed | src/apps/posts/models.py:73-82 | the post cascade is closed under replies: a reply to a comment that is deleted with the post is deleted too |
| PostsStore.DeletePost | src/apps/posts/models.py:73-77 | deleting a post removes it and every comment on it or whose chain of parents leads to one on it, and keeps exactly the reactions neither on it nor on a removed comment; tags, users, profiles and the id counter stay |
| PostsStore.DeleteUser | src/apps/posts/models.py:38-43 | deleting a user nulls the owner of their posts and comments, and removes exactly their reactions and their profile; every other row, the tags and the id counter stay |
| StoreInvariant.CreateTagKeeps | src/apps/posts/models.py:10-29 | creating a tag keeps the store valid |
| StoreInvariant.RenameTagKeeps | src/apps/posts/models.py:10-29 | renaming a tag keeps the store valid |
| StoreInvariant.DeleteTagKeeps | src/apps/posts/models.py:49 | deleting a tag keeps the store valid |
| StoreInvariant.SavePostKeeps | src/apps/posts/models.py:61-63 | saving a post keeps the store valid |
| StoreInvariant.WithTagsKeeps | src/apps/posts/signals.py:13-35 | any set of at most 5 stored tags keeps the store valid |
| StoreInvariant.AddTagsKeeps | src/apps/posts/signals.py:15-21 | `tags.add` keeps the store valid |
| StoreInvariant.RemoveTagsKeeps | src/apps/posts/signals.py:23-35 | `tags.remove` keeps the store valid |
| StoreInvariant.ClearTagsKeeps | src/apps/posts/signals.py:13-35 | `tags.clear` keeps the store valid |
| StoreInvariant.SetTagsKeeps | src/apps/posts/signals.py:13-35 | `tags.set` keeps the store valid |
| StoreInvariant.FreshKeyHasNoReplies | src/apps/posts/models.py:80-82 | in a valid store no comment replies to the next key, so a new comment starts without replies |
| StoreInvariant.SaveCommentKeeps | src/apps/posts/models.py:84-99 | saving a comment with the corrected checks keeps the store valid, including one-level replies |
| StoreInvariant.SaveReactionKeeps | src/apps/posts/models.py:103-122 | saving a reaction keeps the store valid, including one reaction per owner and target |
| StoreInvariant.DeleteReactionKeeps | src/apps/posts/models.py:102-162 | deleting a reaction keeps the store valid |
| StoreInvariant.DeleteCommentKeeps | src/apps/posts/models.py:80-82 | deleting a comment keeps the store valid: no reply or reaction is left dangling |
| StoreInvariant.DeletePostRefs | src/apps/posts/models.py:73-77 | after deleting a post, every remaining comment, reply and reaction refers to stored rows |
| StoreInvariant.DeletePostKeeps | src/apps/posts/models.py:73-77 | deleting a post keeps the store valid |
| StoreInvariant.DeleteUserKeeps | src/apps/posts/models.py:38-43 | deleting a user keeps the store valid, once null owners are accepted |
| PostsFindings.ReparentingCreatesNestedReply | src/apps/posts/models.py:84-95 | the checks as written let a comment with replies become a reply, which breaks one-level replies; the corrected check refuses it |
| PostsFindings.ResavingStoredPost | src/apps/posts/models.py:61-63 | in a valid store, saving a post unchanged succeeds and changes nothing |
| PostsFindings.OrphanedPostRejected | src/apps/posts/models.py:38-43 | after its owner is deleted, a post fails `full_clean` as written with "This field cannot be blank."; with a blank-able owner it saves unchanged |
| PostsFindings.OrphanedCommentRejected | src/apps/posts/models.py:67-72 | after its owner is deleted, a comment fails `full_clean` as written; with a blank-able owner its fields pass |
| PostsFindings.ReplacingOnlyTagRejected | src/apps/posts/signals.py:23-35 | a published post with one tag cannot have it replaced by another through `set`, because the removal comes first |
| PostsFindings.AbsentIdsCountAgainstRemoval | src/apps/posts/signals.py:28-35 | removing a present and an absent tag from a published two-tag post is refused, though one tag would remain |
| PostViews.TagPermissions | src/apps/posts/views.py:20-28 | every tag action starts with `IsAuthenticatedOrReadOnly`; `IsAuthor` is added exactly for create, `IsModerator` exactly for update, partial update and destroy |
| PostViews.TagRequest | src/apps/posts/views.py:13-28 | a tag request: anonymous writes get 401; reading one tag is allowed exactly when it is stored; 404 only for a tag not stored |
| PostViews.TagDecisions | src/apps/posts/views.py:20-28 | tags: reads are open; anonymous writes get 401; creating needs "author"; updating or deleting needs "moderator", then a stored tag |
| PostViews.RoleOwnerOrModerator | src/apps/posts/views.py:50-53 | `(role & IsOwner) \| IsModerator` passes the first check exactly for the role or a moderator, and the object check exactly for the owner with the role, or a moderator |
| PostViews.PostPermissions | src/apps/posts/views.py:45-55 | every post action starts with `IsAuthenticatedOrReadOnly`; `IsAuthor` alone is added exactly for create, and a second class exactly for create and the three write actions |
| PostViews.PostRequest | src/apps/posts/views.py:45-81 | a post request: anonymous writes get 401; reading one post is allowed exactly when the query set holds it; 404 only for a post the requester cannot see |
| PostViews.PostLookup | src/apps/posts/views.py:57-81 | a post is found exactly when it is stored and is published, or the requester owns it |
| PostViews.PostReadDecision | src/apps/posts/views.py:45-81 | reading one post is allowed exactly when it is visible to the requester, otherwise 404 |
| PostViews.PostCreateDecision | src/apps/posts/views.py:45-55 | creating a post: 401 anonymous, allowed for "author", otherwise 403 |
| PostViews.PostWriteDecision | src/apps/posts/views.py:45-81 | updating or deleting a post: 401, then 403 without the author or moderator role, then 404 if not visible, then allowed for a moderator or the owner, otherwise 403 |
| PostViews.OwnerWithoutRoleForbidden | src/apps/posts/views.py:50-53 | the owner of a post who is no longer an author (nor a moderator) may not change it |
| PostViews.CommentPermissions | src/apps/posts/views.py:99-109 | every comment action starts with `IsAuthenticatedOrReadOnly`; `IsCommenter` alone is added exactly for create, and a second class exactly for create and the three write actions |
| PostViews.CommentRequest | src/apps/posts/views.py:99-136 | a comment request: anonymous writes get 401; reading one comment is allowed exactly when the query set holds it; 404 only for a comment the requester cannot see |
| PostViews.CommentLookup | src/apps/posts/views.py:111-136 | a comment is found exactly when its post is published, or the requester owns the comment or its post |
| PostViews.CommentOnPrivatePostHidden | src/apps/posts/views.py:111-116 | a comment on a private post is shown only to the comment's owner and the post's owner, otherwise 404 |
| PostViews.CommentDecisions | src/apps/posts/views.py:99-136 | comments: creating needs "commenter"; updating or deleting follows the post rule with "commenter" in place of "author" |
| PostViews.ReactionPermissions | src/apps/posts/views.py:151-157 | every reaction action starts with `IsAuthenticatedOrReadOnly`; `IsOwner` is added exactly for update, partial update and destroy |
| PostViews.ReactionRequest | src/apps/posts/views.py:151-175 | a reaction request: anonymous writes get 401; reading one reaction is allowed exactly when the query set holds it; 404 only for a reaction the requester cannot see |
| PostViews.ReactionLookup | src/apps/posts/views.py:159-175 | a reaction is found exactly when it is visible to the requester: its target is a published post or a comment on one, or, for a member, the reaction is theirs or the target's post is theirs |
| PostViews.AnonymousReactionVisibility | src/apps/posts/views.py:159-175 | the anonymous user sees exactly the reactions on published posts and on comments of published posts |
| PostViews.CommentOwnerGainsNothing | src/apps/posts/views.py:163-168 | who owns a comment has no effect on the visibility of reactions |
| PostViews.LoggingInHidesNothing | src/apps/posts/views.py:57-175 | whatever the anonymous user sees, every member sees too: posts, comments and reactions |
| PostViews.ReactionDecisions | src/apps/posts/views.py:151-175 | reactions: any member may create; updating or deleting: 401, then 404 if not visible, then only the owner |
| PostViews.PerformCreatePost | src/apps/posts/views.py:83-85 | a refused row leaves the store as it was; a saved post is owned by the requester, private, with the title, thumbnail and content sent, and has the tags sent when they are accepted and none when they are refused; the rest of the store is unchanged apart from the id counter's step |
| PostViews.CreatedPostIsPrivate | src/apps/posts/views.py:57-85 | a post created through the API is visible to its owner and hidden from the anonymous user |
| PostViews.PerformCreateComment | src/apps/posts/views.py:138-140 | creation succeeds exactly when `full_clean` of the sent comment, owned by the requester, passes; the new comment is owned by the requester, with the content, post and parent sent, and nothing else changes apart from the id counter's step |
| ProfileViews.ProfileRequest | src/apps/profiles/views.py:10-25 | a profile request: anonymous writes get 401; create and destroy get 403 for every member; reading one profile is allowed exactly when it is stored |
| ProfileViews.OwnerOrReadOnly | src/apps/profiles/views.py:16-19 | profiles: the first check passes for reads or members, the object check for reads or the owner |
| ProfileViews.ProfileReadOpen | src/apps/profiles/views.py:16-19 | anyone may list profiles, and read a stored one |
| ProfileViews.ProfileAnonymousWrite | src/apps/profiles/views.py:16-19 | every anonymous write gets 401 |
| ProfileViews.ProfileUpdate | src/apps/profiles/views.py:16-19 | a member may update a stored profile exactly when it is theirs, otherwise 403; 404 for a missing one |
| ProfileViews.ProfileCreateDestroyDenied | src/apps/profiles/views.py:21-25 | creating and deleting a profile are refused with 403 for every member |
| PostSerializers.KindCount | src/apps/posts/serializers.py:37-45 | the number of reactions of one type on a target is at most the number of reactions on it |
| PostSerializers.LikeCount | src/apps/posts/serializers.py:37-40 | the like count of a post or comment is at most its number of reactions, and zero exactly when none of its reactions is a like |
| PostSerializers.DislikeCount | src/apps/posts/serializers.py:42-45 | the dislike count is at most the number of reactions, and zero exactly when none of them is a dislike |
| PostSerializers.NoneOfKind | src/apps/posts/serializers.py:66-74 | a count of one reaction type on a target is zero exactly when no reaction of that type aims at it |
| PostSerializers.CountsCoverAllReactions | src/apps/posts/serializers.py:66-74 | with valid types, likes plus dislikes on a target are all its reactions |
| PostSerializers.StoredCountsCoverAllReactions | src/apps/posts/serializers.py:37-45 | in a valid store, likes plus dislikes count every reaction on a post or comment |
| PostSerializers.NewReactionCounted | src/apps/posts/serializers.py:37-45 | a new reaction raises the count of its type on its target by one and leaves every other count alone |
| PostSerializers.TargetType | src/apps/posts/serializers.py:97-102 | "post" exactly when the post is set, "comment" exactly when only the comment is, none otherwise |
| PostSerializers.GetTarget | src/apps/posts/serializers.py:90-95 | the target returned is one the reaction aims at; none exactly when neither is set |
| PostSerializers.TargetTypeNamesTarget | src/apps/posts/serializers.py:90-102 | `target_type` names the kind of `target` |
| PostSerializers.TargetIsTheOnlyOne | src/apps/posts/serializers.py:90-95 | under the one-target constraint, `target` is the only thing the reaction aims at |
| PostSerializers.TypeDisplay | src/apps/posts/serializers.py:87-88 | "L" shows as "Like", "D" as "Dislike", and any other value as itself |
| PostSerializers.TypeDisplayDistinguishes | src/apps/posts/models.py:124-126 | the two types show differently |
| PostSerializers.ReactionFields | src/apps/posts/serializers.py:83-85 | the serializer's seven declared fields |
| PostSerializers.DropTargetFields | src/apps/posts/serializers.py:104-109 | popping "post" then "comment" succeeds exactly when both are present, and removes only them |
| PostSerializers.ToRepresentation | src/apps/posts/serializers.py:77-109 | a reaction shows as url, owner, type, target and target_type; the type is its display; under the constraint the target is the reaction's, and target_type names its kind |
| PostSerializers.UpdatePost | src/apps/posts/serializers.py:12-35 | a refused row leaves the store as it was; a saved row takes the title, thumbnail and content sent, and the tags sent when they are accepted, keeping the old tags when they are refused; the update succeeds only if the row is saved, and then exactly when the tag change (`tags.set`) on the saved row is accepted |
| PostSerializers.UpdatePostKeeps | src/apps/posts/serializers.py:12-35 | an update, accepted or refused, leaves a valid store valid |
| PostSerializers.UpdateTouchesOnlyItsPost | src/apps/posts/serializers.py:12-35 | an update writes only the post it names: every other post, every other table and the id counter stay as they were |
| PostSerializers.UpdateKeepsOtherPosts | src/apps/posts/serializers.py:12-35 | an update keeps the set of posts, and every post but the one it names |
| PostSerializers.UpdateKeepsOtherTables | src/apps/posts/serializers.py:12-35 | an update keeps the tags, comments, reactions, users, profiles and id counter |
| PostSerializers.UpdateKeepsOwnerAndPublication | src/apps/posts/serializers.py:13-14 | an update never changes the owner or the publish date |
| PostSerializers.CreateReactionAsWritten | src/apps/posts/serializers.py:79 | creating a reaction as written writes the requester as owner |
| PostSerializers.ReactionCreationAlwaysRefused | src/apps/posts/serializers.py:79 | creating a reaction as written is always refused with "This field cannot be blank." |
| PostSerializers.CreateReaction | src/apps/posts/views.py:177-179 | with a writable type, creation succeeds exactly when `full_clean` of the sent reaction, owned by the requester, passes; the row is written as sent under a fresh key and nothing else changes apart from the id counter's step |
| PostSerializers.FirstReactionOnPublishedPost | src/apps/posts/models.py:103-158 | a valid type from a stored user on a published post they have not reacted to passes every check |
| PostSerializers.CreateReactionOnPublishedPost | src/apps/posts/views.py:177-179 | such a reaction is created, keeps the store valid, and raises its type's count on the post by one |
| SerializerMixins.MarkReadOnlyStep | src/apps/core/serializers/mixins.py:16-19 | marking one more name is one step of the loop |
| SerializerMixins.GetExtraKwargs | src/apps/core/serializers/mixins.py:5-21 | without an instance or option the kwargs are unchanged; an option that is not a list is a TypeError with its message; otherwise each named field is marked read-only (`src/apps/core/serializer_mixins.py` holds an identical copy of this method) |
| SerializerMixins.NamedFieldsReadOnly | src/apps/core/serializers/mixins.py:16-19 | every named field ends up with `read_only` set |
| SerializerMixins.NamedFieldsKeepOtherArgs | src/apps/core/serializers/mixins.py:17 | the other arguments of a named field are kept |
| SerializerMixins.OtherFieldsUnchanged | src/apps/core/serializers/mixins.py:16-19 | unnamed fields keep their entries, and none is added |
| SerializerMixins.MarkReadOnlyIdempotent | src/apps/core/serializers/mixins.py:16-19 | marking the same fields twice changes nothing |
| SerializerMixins.DynamicFieldsSerializer.constructor | src/apps/core/serializers/mixins.py:24-37 | without `fields` every declared field stays; with it, exactly the declared fields it names stay, each unchanged |
| PopulateDb.InsertTags | src/apps/commando/management/commands/populate_db.py:63-68 | a negative count is refused with its message; otherwise that many tags |
| PopulateDb.InsertPosts | src/apps/commando/management/commands/populate_db.py:70-75 | a negative count is refused; sampling 5 tags fails when there are fewer than 5; otherwise that many posts |
| PopulateDb.SampledTagsAccepted | src/apps/commando/management/commands/populate_db.py:75 | 5 sampled tags are accepted by the tag-count receiver, and a sixth would be refused |
| PopulateDb.InsertComments | src/apps/commando/management/commands/populate_db.py:77-92 | the two refusals and their messages; otherwise the non-replies, then reply i to non-reply i mod the non-reply count, all one level deep, and no two comments answer the same one exactly when there are no more replies than non-replies |
| PopulateDb.RoundRobinReplies | src/apps/commando/management/commands/populate_db.py:87-91 | replies handed out round-robin give each top-level comment at most one exactly when there are no more replies than top-level comments |
| PopulateDb.RoundRobinOneLevel | src/apps/commando/management/commands/populate_db.py:87-91 | replies handed out round-robin answer top-level comments only |
| PopulateDb.ReactInOrder | src/apps/commando/management/commands/populate_db.py:109-121 | one inner loop: reacts to targets in order, up to the count, and keeps the round-robin shape |
| PopulateDb.InsertReactions | src/apps/commando/management/commands/populate_db.py:95-123 | a negative count is refused; otherwise posts, then comments, each in round-robin order, with the shares `PostShare` and `CommentShare` |
| PopulateDb.SharesAddUp | src/apps/commando/management/commands/populate_db.py:106-121 | the two shares add up to the count |
| PopulateDb.ShareOfOneMoreRound | src/apps/commando/management/commands/populate_db.py:106-121 | one more full round adds every post and every comment once |
| PopulateDb.Handle | src/apps/commando/management/commands/populate_db.py:20-41 | the command creates 36 comments (24 non-replies, and 12 replies to the first 12, no comment answered twice) and exactly one reaction per post and per comment |
| PopulateDb.ShareOfOnePass | src/apps/commando/management/commands/populate_db.py:106-121 | one pass over the posts and then the comments makes the next reactions of each share |
| PopulateDb.ReactOnePass | src/apps/commando/management/commands/populate_db.py:106-121 | one pass of the outer loop keeps both lists round-robin, advances the count, and accounts for its reactions in the two shares |

## Left out

- The HEAD request of `validate_image_url` is not modelled. Its outcome is an input (`HeadResult`), and the 5-second timeout and redirects are not modelled.
- `URLValidator`'s syntax check of thumbnails is not modelled. Only the length and the image-extension test are.
- Strings are sequences of characters. Lower-casing is ASCII only, with no Unicode case folding.
- Django's `full_clean` collects every error. The model reports only the first one it finds, checking all field values first, then the references to other rows, then `clean()`, then the unique and check constraints. Django checks each field, its reference included, in declaration order; the model checks references after every field, and checks a reaction's `type` before its `owner`.
- Error messages are simplified. The limits, counts, ids and values that Django and the receivers interpolate into them are left out.
- A `ValidationError` raised by a model's `full_clean` or `clean()` or by an `m2m_changed` receiver is Django's exception, not REST framework's. The HTTP response it leads to is not modelled. The model reports it as a refusal (`Invalid` or `Failure`) carrying its message.
- `IsOwner`, `IsModerator` and `ReadOnly` are imported from `src/apps/core/permissions.py` by the views, but that file (lines 4-25) defines only `IsOwnerOrReadOnly`, `IsNotCreating` and `IsNotDeleting`. Their meaning in `CorePermissions` is inferred from their names and their uses.
- `PostsModels.TagTitleCheck`: the tag title pattern's `\d` also matches non-ASCII digits, and its `$` also matches before a final newline. The model accepts only ASCII digits and no newline, so such titles are accepted by the source and refused by the model.
- `ImageValidators.HeaderDict`: the response's header fields are an input. The model keys them without regard to case and joins a repeated field's values with ", ", as `requests` does; any other processing of the raw response is not modelled.
- The user and group views (`src/apps/core/views.py`) are not part of this model.
- The signals that create a profile with each user and add new users to groups are not part of this model. Users and profiles are given in the store.
- Query-set ordering, filtering by query parameters (`filters.py`) and the `like_count`/`dislike_count` annotations of the post and comment query sets are not modelled. The serializer counts are modelled, and the annotations compute the same numbers.
- Pagination, URLs and hyperlinks are not modelled. A hyperlink is the row's key, and the owner's username is shown as the user id.
- Request atomicity, concurrent requests and races are not modelled. Each operation is applied to one store value.
- `populate_db`: factory contents, randomness and console output are left out. `random.sample` appears only as its size.
- `PopulateDb.InsertReactions`: requires a target when the count is positive. As written, `_insert_reactions` with no posts, no comments and a positive count never terminates.
- `TextField(max_length=...)` is not checked by `full_clean`. The REST serializer enforces it. The model checks it on every write.
- Cascades are applied in one step. The SQL order and the signals Django sends during a cascade are not modelled.
- `Tag.save()` does not run `full_clean`. The model checks tags as the API write path does: the serializer's validators and the database constraints.
- `perform_create` (src/apps/posts/views.py:84-85, 139-140, 178-179) calls `serializer.save(owner=...)` and then the base `perform_create`, which saves a second time. That second save is an update of the row just written, with the same fields and tags, so it leaves the store as it was; the model writes once.
- `PostViews.PerformCreatePost`: the post row and its tags are written in two steps, without a transaction. The model keeps the saved row when the tags are refused, as the code does.
- `PostSerializers.UpdatePost`: models a full update (PUT). In a partial update (PATCH) the fields not sent keep their values, which is not modelled.
- `SerializerMixins.DynamicFieldsSerializer.constructor`: the fields are a map. The field order of DRF's ordered dictionary is not modelled.
- `SerializerMixins.GetExtraKwargs`: an `immutable_fields` value that is a list or tuple is a sequence of names. Any other type is an `OtherValue` carrying its type name.
- The `post_*` actions of `m2m_changed` are modelled as always passing, because the receiver ignores them.
- `last_modified_date` and `create_date` are not modelled. They are set by the clock.

## Findings

| source | as written | input that shows it | evidently intended | confidence | as-written member | corrected member |
|---|---|---|---|---|---|---|
| src/apps/posts/models.py:84-95 | `Comment.clean` checks only that the new parent is not a reply, so a comment that already has replies can be re-parented under another comment | comment A with reply B, top-level comment T on a published post; PATCH A with `reply_to` = T; B becomes a reply to a reply | a comment with replies may not become a reply, so replies stay one level deep | not executed | PostsFindings.ReparentingCreatesNestedReply | PostsModels.CommentCleanFixed |
| src/apps/posts/models.py:38-43 | post and comment owners are `null=True, on_delete=SET_NULL` but not `blank=True`, so `full_clean` refuses the null owner that deleting a user leaves | delete the owner of a post, then save the post unchanged: "This field cannot be blank." | rows whose owner was deleted can still be saved | not executed | PostsFindings.OrphanedPostRejected | PostsStore.SavePost |
| src/apps/posts/serializers.py:79 | `type` is a `SerializerMethodField`, which is read-only, so the type a client sends is dropped and the row is saved with a blank type | any POST to the reaction list, e.g. type "L" on a published post | the client chooses the type, which is then checked against "L"/"D" | not executed | PostSerializers.ReactionCreationAlwaysRefused | PostSerializers.CreateReactionOnPublishedPost |
