/**
 * The permission classes of the core application: the three defined in its permissions
 * module, and the three the views import from it by name (`IsOwner`, `IsModerator`,
 * `ReadOnly`), given here the meaning their names and their uses call for.
 *
 * A DRF permission has two checks: `has_permission` (before any object is loaded) and
 * `has_object_permission` (once the object is loaded). A class that does not override one of
 * them inherits `BasePermission`'s, which allows.
 */
module CorePermissions {
  import opened Common
  import opened Identity

  /** `IsOwnerOrReadOnly.has_object_permission` */
  function IsOwnerOrReadOnly(u: User, m: Method, owner: Option<UserId>): (allowed: bool)
    ensures IsSafe(m) ==> allowed
    ensures !IsSafe(m) ==> (allowed <==> Owns(u, owner))
  {
    if IsSafe(m) then true else Owns(u, owner)
  }

  /** `IsNotCreating.has_permission`: its safe-method branch is subsumed by the final test. */
  function IsNotCreating(m: Method): (allowed: bool)
    ensures allowed <==> m != POST
  {
    if IsSafe(m) then true else m != POST
  }

  /** `IsNotDeleting.has_permission`: likewise, it only ever refuses DELETE. */
  function IsNotDeleting(m: Method): (allowed: bool)
    ensures allowed <==> m != DELETE
  {
    if IsSafe(m) then true else m != DELETE
  }

  /** `IsOwner.has_object_permission`: the object's owner is the requesting user. */
  function IsOwnerObject(u: User, owner: Option<UserId>): (allowed: bool)
    ensures allowed ==> IsAuthenticated(u)
    ensures allowed <==> IsOwnerOrReadOnly(u, DELETE, owner)
  {
    Owns(u, owner)
  }

  /** `IsModerator.has_permission`: membership of the "moderator" group. */
  function IsModerator(u: User): (allowed: bool)
    ensures allowed ==> IsAuthenticated(u)
    ensures u.Member? ==> (allowed <==> "moderator" in u.groups)
  {
    InGroup(u, "moderator")
  }

  /** `ReadOnly.has_permission`: the request does not change anything. */
  function ReadOnly(m: Method): (allowed: bool)
    ensures allowed <==> IsNotCreating(m) && m != PUT && m != PATCH && IsNotDeleting(m)
  {
    IsSafe(m)
  }
}
