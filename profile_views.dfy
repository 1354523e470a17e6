/**
 * `ProfileViewSet`: anyone may read profiles, only a profile's owner may change it, and the
 * viewset overrides `create` and `destroy` to refuse every request.
 */
module ProfileViews {
  import opened Common
  import opened Identity
  import opened PostsModels
  import opened RestFramework

  /** `permission_classes` of the viewset. */
  const ProfilePermissions: seq<Perm> := [IsAuthenticatedOrReadOnly, Or(IsOwner, ReadOnly)]

  /** The handlers that raise `PermissionDenied` whatever the request. */
  const RefusedActions: set<Action> := {Create, Destroy}

  /** A profile request; every profile is in the query set. */
  function ProfileRequest(s: Store, u: User, m: Method, r: Route): (d: Decision)
    ensures u.Anonymous? && !IsSafe(m) ==> d == Unauthenticated
    ensures u.Member? && (ActionOf(m, r) == Some(Create) || ActionOf(m, r) == Some(Destroy)) ==> d == Forbidden
    ensures (m == GET || m == HEAD) && r.DetailRoute? ==> (d == Allow <==> r.pk in s.profiles)
  {
    OwnerOrReadOnly(u, m, if r.DetailRoute? && r.pk in s.profiles then Some(s.profiles[r.pk]) else None);
    var found := if r.DetailRoute? && r.pk in s.profiles then Found(Some(s.profiles[r.pk])) else Missing;
    Dispatch(ProfilePermissions, RefusedActions, u, m, r, found)
  }

  /** `IsOwner | ReadOnly`: every class passes the first check; the object check wants the owner or a safe method. */
  lemma OwnerOrReadOnly(u: User, m: Method, owner: Option<UserId>)
    ensures AllPermit(ProfilePermissions, u, m) <==> IsSafe(m) || u.Member?
    ensures AllPermitObject(ProfilePermissions, u, m, owner) <==> Owns(u, owner) || IsSafe(m)
  {
    AllPermitShort(IsAuthenticatedOrReadOnly, Or(IsOwner, ReadOnly), u, m, owner);
  }

  /** Reading is open to everyone, including the anonymous user. */
  lemma ProfileReadOpen(s: Store, u: User, pk: Id)
    ensures ProfileRequest(s, u, GET, ListRoute) == Allow
    ensures ProfileRequest(s, u, GET, DetailRoute(pk)) == (if pk in s.profiles then Allow else NotFound)
  {
    OwnerOrReadOnly(u, GET, None);
    if pk in s.profiles {
      OwnerOrReadOnly(u, GET, Some(s.profiles[pk]));
    }
  }

  /** Every write by the anonymous user is 401, before the handler is looked at. */
  lemma ProfileAnonymousWrite(s: Store, m: Method, r: Route)
    requires !IsSafe(m)
    ensures ProfileRequest(s, Anonymous, m, r) == Unauthenticated
  {
    OwnerOrReadOnly(Anonymous, m, None);
  }

  /** A logged-in user may change a profile exactly when it is theirs. */
  lemma ProfileUpdate(s: Store, id: UserId, groups: set<string>, m: Method, pk: Id)
    requires m == PUT || m == PATCH
    ensures ProfileRequest(s, Member(id, groups), m, DetailRoute(pk)) ==
      (if pk !in s.profiles then NotFound else if s.profiles[pk] == id then Allow else Forbidden)
  {
    OwnerOrReadOnly(Member(id, groups), m, if pk in s.profiles then Some(s.profiles[pk]) else None);
  }

  /** Creating and deleting are refused for every logged-in user, the owner included, found or not. */
  lemma ProfileCreateDestroyDenied(s: Store, id: UserId, groups: set<string>, pk: Id)
    ensures ProfileRequest(s, Member(id, groups), POST, ListRoute) == Forbidden
    ensures ProfileRequest(s, Member(id, groups), DELETE, DetailRoute(pk)) == Forbidden
  {
    OwnerOrReadOnly(Member(id, groups), POST, None);
    OwnerOrReadOnly(Member(id, groups), DELETE, None);
  }
}
