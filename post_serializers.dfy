/**
 * The serializers of the posts app, as far as they compute something: the like and dislike
 * counts of posts and comments, the target of a reaction and its kind, the reaction output
 * with its "post" and "comment" keys removed, and the fields a client cannot write (the
 * owner, the publication date and, as the reaction serializer is written, the reaction type).
 */
module PostSerializers {
  import opened Common
  import opened Identity
  import opened PostsModels
  import PostsStore
  import StoreInvariant

  /* ------------------------------------------------------------ counts */

  /** What a reaction points at: a post or a comment. */
  datatype Target = OnPost(post: Id) | OnComment(comment: Id)

  /** The reaction `x` points at `t`. */
  predicate Aims(x: Reaction, t: Target) {
    match t
    case OnPost(p) => x.post == Some(p)
    case OnComment(c) => x.comment == Some(c)
  }

  /** The keys of the reactions that point at `t`. */
  function ReactionsOn(reactions: map<Id, Reaction>, t: Target): set<Id> {
    set k | k in reactions && Aims(reactions[k], t)
  }

  /** The keys of the reactions of type `kind` that point at `t`. */
  function OfKind(reactions: map<Id, Reaction>, kind: string, t: Target): set<Id> {
    set k | k in reactions && Aims(reactions[k], t) && reactions[k].kind == kind
  }

  /** The number of reactions of type `kind` that point at `t`. */
  function KindCount(reactions: map<Id, Reaction>, kind: string, t: Target): (n: nat)
    ensures n <= |ReactionsOn(reactions, t)|
  {
    StoreInvariant.SubsetSize(OfKind(reactions, kind, t), ReactionsOn(reactions, t));
    |OfKind(reactions, kind, t)|
  }

  /** `get_like_count` of both serializers: the likes of the post or comment `t`. */
  function LikeCount(reactions: map<Id, Reaction>, t: Target): (n: nat)
    ensures n <= |ReactionsOn(reactions, t)|
    ensures n == 0 <==> forall k :: k in reactions && Aims(reactions[k], t) ==> reactions[k].kind != "L"
  {
    NoneOfKind(reactions, "L", t);
    KindCount(reactions, "L", t)
  }

  /** `get_dislike_count` of both serializers. */
  function DislikeCount(reactions: map<Id, Reaction>, t: Target): (n: nat)
    ensures n <= |ReactionsOn(reactions, t)|
    ensures n == 0 <==> forall k :: k in reactions && Aims(reactions[k], t) ==> reactions[k].kind != "D"
  {
    NoneOfKind(reactions, "D", t);
    KindCount(reactions, "D", t)
  }

  /** A count is zero exactly when no reaction of that type points at `t`. */
  lemma NoneOfKind(reactions: map<Id, Reaction>, kind: string, t: Target)
    ensures KindCount(reactions, kind, t) == 0 <==>
      forall k :: k in reactions && Aims(reactions[k], t) ==> reactions[k].kind != kind
  {
    if KindCount(reactions, kind, t) == 0 {
      assert OfKind(reactions, kind, t) == {};
      forall k | k in reactions && Aims(reactions[k], t)
        ensures reactions[k].kind != kind
      {
        assert k !in OfKind(reactions, kind, t);
      }
    } else {
      var k :| k in OfKind(reactions, kind, t);
    }
  }

  /** When every reaction is a like or a dislike, the two counts add up to all reactions on `t`. */
  lemma CountsCoverAllReactions(reactions: map<Id, Reaction>, t: Target)
    requires forall k :: k in reactions ==> IsReactionType(reactions[k].kind)
    ensures LikeCount(reactions, t) + DislikeCount(reactions, t) == |ReactionsOn(reactions, t)|
  {
    var likes := OfKind(reactions, "L", t);
    var dislikes := OfKind(reactions, "D", t);
    assert ReactionsOn(reactions, t) == likes + dislikes;
    assert likes * dislikes == {};
  }

  /** The stored reactions of a valid store are all likes or dislikes. */
  lemma StoredCountsCoverAllReactions(s: Store, t: Target)
    requires Valid(s)
    ensures LikeCount(s.reactions, t) + DislikeCount(s.reactions, t) == |ReactionsOn(s.reactions, t)|
  {
    CountsCoverAllReactions(s.reactions, t);
  }

  /** The reactions of one type on one target after a reaction is stored under a fresh key. */
  lemma OfKindAfterInsert(reactions: map<Id, Reaction>, key: Id, x: Reaction, kind: string, t: Target)
    requires key !in reactions
    ensures OfKind(reactions[key := x], kind, t) == OfKind(reactions, kind, t) + (if x.kind == kind && Aims(x, t) then {key} else {})
  {
    var after := reactions[key := x];
    var before := OfKind(reactions, kind, t);
    var now := OfKind(after, kind, t);
    var added: set<Id> := if x.kind == kind && Aims(x, t) then {key} else {};
    forall k | k in now
      ensures k in before + added
    {
      if k != key {
        assert after[k] == reactions[k];
      }
    }
    forall k | k in before + added
      ensures k in now
    {
      if k != key {
        assert after[k] == reactions[k];
      }
    }
  }

  /**
   * A reaction stored under a fresh key adds one to the count of its own kind on its own
   * target and leaves every other count as it was.
   */
  lemma NewReactionCounted(reactions: map<Id, Reaction>, key: Id, x: Reaction, kind: string, t: Target)
    requires key !in reactions
    ensures KindCount(reactions[key := x], kind, t) == KindCount(reactions, kind, t) + (if x.kind == kind && Aims(x, t) then 1 else 0)
  {
    OfKindAfterInsert(reactions, key, x, kind, t);
    assert key !in OfKind(reactions, kind, t);
  }

  /* ------------------------------------------------------------ target */

  /** `get_target_type`: "post" when the post is set, else "comment" when the comment is set. */
  function TargetType(x: Reaction): (name: Option<string>)
    ensures name == Some("post") <==> x.post.Some?
    ensures name == Some("comment") <==> x.post.None? && x.comment.Some?
    ensures name.None? <==> x.post.None? && x.comment.None?
  {
    if x.post.Some? then Some("post")
    else if x.comment.Some? then Some("comment")
    else None
  }

  /** `get_target`: the post when set, else the comment when set. */
  function GetTarget(x: Reaction): (t: Option<Target>)
    ensures t.Some? ==> Aims(x, t.value)
    ensures t.None? <==> x.post.None? && x.comment.None?
  {
    if x.post.Some? then Some(OnPost(x.post.value))
    else if x.comment.Some? then Some(OnComment(x.comment.value))
    else None
  }

  /** `target` and `target_type` agree: the type names the field the target was taken from. */
  lemma TargetTypeNamesTarget(x: Reaction)
    ensures TargetType(x) == Some("post") <==> GetTarget(x).Some? && GetTarget(x).value.OnPost?
    ensures TargetType(x) == Some("comment") <==> GetTarget(x).Some? && GetTarget(x).value.OnComment?
  {
  }

  /** A stored reaction has one target, the one `get_target` reports, and counts towards it alone. */
  lemma TargetIsTheOnlyOne(x: Reaction, t: Target)
    requires ExactlyOneTarget(x)
    ensures GetTarget(x).Some?
    ensures Aims(x, t) <==> t == GetTarget(x).value
  {
  }

  /* -------------------------------------------------------------- type */

  /** `get_type_display`: the label of a choice, or the raw value when it is not one. */
  function TypeDisplay(kind: string): (shown: string)
    ensures kind == "L" ==> shown == "Like"
    ensures kind == "D" ==> shown == "Dislike"
    ensures !IsReactionType(kind) ==> shown == kind
  {
    if kind == "L" then "Like" else if kind == "D" then "Dislike" else kind
  }

  /** Different reaction types are shown differently. */
  lemma TypeDisplayDistinguishes(a: string, b: string)
    requires IsReactionType(a) && IsReactionType(b) && a != b
    ensures TypeDisplay(a) != TypeDisplay(b)
  {
  }

  /* ---------------------------------------------------- representation */

  /** A value of a serialized reaction. */
  datatype Value = Text(text: string) | Link(target: Target) | OwnerName(user: UserId) | Url(id: Id) | Null

  /** `super().to_representation(instance)` of `ReactionSerializer`: one entry per field of `Meta.fields`. */
  function ReactionFields(id: Id, x: Reaction): (rep: map<string, Value>)
    ensures rep.Keys == {"url", "owner", "type", "post", "comment", "target", "target_type"}
  {
    map[
      "url" := Url(id),
      "owner" := OwnerName(x.owner),
      "type" := Text(TypeDisplay(x.kind)),
      "post" := if x.post.Some? then Link(OnPost(x.post.value)) else Null,
      "comment" := if x.comment.Some? then Link(OnComment(x.comment.value)) else Null,
      "target" := if GetTarget(x).Some? then Link(GetTarget(x).value) else Null,
      "target_type" := if TargetType(x).Some? then Text(TargetType(x).value) else Null]
  }

  /** `rep.pop("post")` and then `rep.pop("comment")`; a missing key raises `KeyError`. */
  method DropTargetFields<V>(rep: map<string, V>) returns (r: Result<map<string, V>>)
    ensures r.Success? <==> "post" in rep && "comment" in rep
    ensures r.Success? ==> r.value.Keys == rep.Keys - {"post", "comment"}
    ensures r.Success? ==> forall k :: k in r.value ==> r.value[k] == rep[k]
  {
    var d := rep;
    if "post" !in d {
      return Failure("KeyError: 'post'");
    }
    d := d - {"post"};
    if "comment" !in d {
      return Failure("KeyError: 'comment'");
    }
    d := d - {"comment"};
    return Success(d);
  }

  /**
   * `ReactionSerializer.to_representation`: the reaction without its "post" and "comment"
   * entries. A stored reaction shows its type label and the one thing it points at.
   */
  method ToRepresentation(id: Id, x: Reaction) returns (rep: map<string, Value>)
    ensures rep.Keys == {"url", "owner", "type", "target", "target_type"}
    ensures rep["url"] == Url(id) && rep["owner"] == OwnerName(x.owner)
    ensures rep["type"] == Text(TypeDisplay(x.kind))
    ensures ExactlyOneTarget(x) ==>
      && rep["target"].Link? && Aims(x, rep["target"].target)
      && rep["target_type"] == Text(if rep["target"].target.OnPost? then "post" else "comment")
  {
    var all := ReactionFields(id, x);
    var r := DropTargetFields(all);
    rep := r.value;
  }

  /* ------------------------------------------------------ write paths */

  /**
   * `PostSerializer.update` for a full update: the writable fields come from the input, then
   * the row is saved, then its tags are set; `owner` and `publish_date` are read-only and keep
   * their stored values. As in `PostViews.PerformCreatePost`, a refused tag change leaves the
   * saved row behind.
   */
  function UpdatePost(s: Store, id: Id, input: Post): (r: (Store, Outcome))
    requires id in s.posts
    ensures PostsStore.SavePost(s, Some(id), Edited(s.posts[id], input)).Failure? ==> r.0 == s && r.1.Invalid?
    ensures PostsStore.SavePost(s, Some(id), Edited(s.posts[id], input)).Success? ==>
      && id in r.0.posts
      && r.0.posts[id].title == input.title
      && r.0.posts[id].thumbnail == input.thumbnail
      && r.0.posts[id].content == input.content
      && r.0.posts[id].tags == (if r.1.Ok? then input.tags else s.posts[id].tags)
    ensures r.1.Ok? ==> PostsStore.SavePost(s, Some(id), Edited(s.posts[id], input)).Success?
    ensures var saved := PostsStore.SavePost(s, Some(id), Edited(s.posts[id], input));
      saved.Success? ==> (r.1.Ok? <==> PostsStore.SetTags(saved.value, id, input.tags).Success?)
  {
    var saved := PostsStore.SavePost(s, Some(id), Edited(s.posts[id], input));
    if saved.Failure? then (s, Invalid(saved.msg))
    else
      var tagged := PostsStore.SetTags(saved.value, id, input.tags);
      if tagged.Failure? then (saved.value, Invalid(tagged.msg)) else (tagged.value, Ok)
  }

  /** An update, accepted or refused, leaves a valid store valid. */
  lemma UpdatePostKeeps(s: Store, id: Id, input: Post)
    requires Valid(s) && id in s.posts
    ensures Valid(UpdatePost(s, id, input).0)
  {
    var saved := PostsStore.SavePost(s, Some(id), Edited(s.posts[id], input));
    StoreInvariant.SavePostKeeps(s, Some(id), Edited(s.posts[id], input));
    if saved.Success? {
      StoreInvariant.SetTagsKeeps(saved.value, id, input.tags);
    }
  }

  /** An update writes only the post it names: every other row and table stays as it was. */
  lemma UpdateTouchesOnlyItsPost(s: Store, id: Id, input: Post)
    requires id in s.posts
    ensures var t := UpdatePost(s, id, input).0;
      && t.posts.Keys == s.posts.Keys
      && (forall k :: k in s.posts && k != id ==> t.posts[k] == s.posts[k])
      && t.tags == s.tags && t.comments == s.comments && t.reactions == s.reactions
      && t.users == s.users && t.profiles == s.profiles && t.nextId == s.nextId
  {
    UpdateKeepsOtherPosts(s, id, input);
    UpdateKeepsOtherTables(s, id, input);
  }

  /** The posts table of an update: the same keys, and every post but `id` as it was. */
  lemma UpdateKeepsOtherPosts(s: Store, id: Id, input: Post)
    requires id in s.posts
    ensures var t := UpdatePost(s, id, input).0;
      && t.posts.Keys == s.posts.Keys
      && (forall k :: k in s.posts && k != id ==> t.posts[k] == s.posts[k])
  {
    var saved := PostsStore.SavePost(s, Some(id), Edited(s.posts[id], input));
    if saved.Success? {
      var m := saved.value;
      assert m == s.(posts := s.posts[id := Edited(s.posts[id], input).(tags := s.posts[id].tags)]);
      var tagged := PostsStore.SetTags(m, id, input.tags);
      if tagged.Success? {
        assert tagged.value == m.(posts := m.posts[id := m.posts[id].(tags := input.tags)]);
      }
    }
  }

  /** The tables an update does not write. */
  lemma UpdateKeepsOtherTables(s: Store, id: Id, input: Post)
    requires id in s.posts
    ensures var t := UpdatePost(s, id, input).0;
      && t.tags == s.tags && t.comments == s.comments && t.reactions == s.reactions
      && t.users == s.users && t.profiles == s.profiles && t.nextId == s.nextId
  {
    var saved := PostsStore.SavePost(s, Some(id), Edited(s.posts[id], input));
    if saved.Success? {
      var m := saved.value;
      assert m == s.(posts := s.posts[id := Edited(s.posts[id], input).(tags := s.posts[id].tags)]);
      var tagged := PostsStore.SetTags(m, id, input.tags);
      if tagged.Success? {
        assert tagged.value == m.(posts := m.posts[id := m.posts[id].(tags := input.tags)]);
      }
    }
  }

  /** The stored row with the fields a client may write taken from `input`. */
  function Edited(stored: Post, input: Post): (p: Post)
    ensures p.title == input.title && p.thumbnail == input.thumbnail && p.content == input.content
    ensures p.owner == stored.owner && p.publishDate == stored.publishDate && p.tags == stored.tags
  {
    stored.(title := input.title, thumbnail := input.thumbnail, content := input.content)
  }

  /** Whatever a client sends, an update keeps the post's owner and its publication state. */
  lemma UpdateKeepsOwnerAndPublication(s: Store, id: Id, input: Post)
    requires id in s.posts
    ensures id in UpdatePost(s, id, input).0.posts
    ensures UpdatePost(s, id, input).0.posts[id].owner == s.posts[id].owner
    ensures UpdatePost(s, id, input).0.posts[id].publishDate == s.posts[id].publishDate
  {
  }

  /**
   * `ReactionSerializer.create` as written: `type` is a method field and so read-only, the
   * new row gets the field's empty default, the requester as owner (`perform_create`) and the
   * target the client chose.
   */
  function CreateReactionAsWritten(s: Store, user: UserId, input: Reaction): (r: Result<Store>)
    ensures r.Success? ==> s.nextId in r.value.reactions && r.value.reactions[s.nextId].owner == user
  {
    PostsStore.SaveReaction(s, None, Reaction(user, "", input.post, input.comment))
  }

  /** No reaction can be created through the API as written: the blank type is always refused. */
  lemma ReactionCreationAlwaysRefused(s: Store, user: UserId, input: Reaction)
    ensures CreateReactionAsWritten(s, user, input) == Failure(Blank)
  {
  }

  /** `ReactionSerializer.create` with a writable type: the client's type and target, the requester as owner. */
  function CreateReaction(s: Store, user: UserId, input: Reaction): (r: Result<Store>)
    ensures r.Success? <==> ReactionFullClean(s, None, input.(owner := user)).Ok?
    ensures r.Success? ==> r.value == s.(reactions := s.reactions[s.nextId := input.(owner := user)], nextId := s.nextId + 1)
  {
    PostsStore.SaveReaction(s, None, input.(owner := user))
  }

  /** The checks accept a like or dislike of a stored user on a published post the user has not reacted to. */
  lemma FirstReactionOnPublishedPost(s: Store, x: Reaction)
    requires x.owner in s.users && IsReactionType(x.kind) && x.comment.None?
    requires x.post.Some? && x.post.value in s.posts && s.posts[x.post.value].publishDate.Some?
    requires forall k :: k in s.reactions ==> !(s.reactions[k].owner == x.owner && s.reactions[k].post == x.post)
    ensures ReactionFullClean(s, None, x).Ok?
  {
  }

  /**
   * With a writable type, a like or dislike on a published post that the requester has not
   * reacted to yet is accepted, keeps the store valid, and is counted.
   */
  lemma CreateReactionOnPublishedPost(s: Store, user: UserId, kind: string, post: Id)
    requires Valid(s) && user in s.users && IsReactionType(kind)
    requires post in s.posts && s.posts[post].publishDate.Some?
    requires forall k :: k in s.reactions ==> !(s.reactions[k].owner == user && s.reactions[k].post == Some(post))
    ensures CreateReaction(s, user, Reaction(user, kind, Some(post), None)).Success?
    ensures PostsStore.Keeps(CreateReaction(s, user, Reaction(user, kind, Some(post), None)))
    ensures var after := CreateReaction(s, user, Reaction(user, kind, Some(post), None)).value.reactions;
      KindCount(after, kind, OnPost(post)) == KindCount(s.reactions, kind, OnPost(post)) + 1
  {
    var x := Reaction(user, kind, Some(post), None);
    assert x.(owner := user) == x;
    FirstReactionOnPublishedPost(s, x);
    StoreInvariant.SaveReactionKeeps(s, None, x);
    assert s.nextId !in s.reactions;
    NewReactionCounted(s.reactions, s.nextId, x, kind, OnPost(post));
  }
}
