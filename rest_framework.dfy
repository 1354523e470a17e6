/**
 * The part of the REST framework's request cycle that the viewsets' `get_permissions` and
 * `get_queryset` plug into: how a method and a route select an action, how composed permission
 * classes answer, and in what order the checks run and which status each failure yields.
 */
module RestFramework {
  import opened Common
  import opened Identity
  import CorePermissions
  import PostPermissions

  type Id = nat

  /** A list URL (`/posts/`) or a detail URL (`/posts/<pk>/`). */
  datatype Route = ListRoute | DetailRoute(pk: Id)

  datatype Action = List | Create | Retrieve | Update | PartialUpdate | Destroy | Metadata {
    /** The actions that load one object with `get_object()`. */
    predicate IsDetail() {
      this == Retrieve || this == Update || this == PartialUpdate || this == Destroy
    }
  }

  /** The response class of a request: 200/201/204, 401, 403, 404 or 405. */
  datatype Decision = Allow | Unauthenticated | Forbidden | NotFound | MethodNotAllowed

  /**
   * The router's method-to-action map: HEAD goes where GET goes, OPTIONS is always
   * `metadata`, and a method with no entry has no action (the viewset answers 405).
   */
  function ActionOf(m: Method, r: Route): (a: Option<Action>)
    ensures a.Some? && a.value.IsDetail() <==> r.DetailRoute? && m != POST && m != OPTIONS
    ensures a == Some(Create) <==> r.ListRoute? && m == POST
    ensures a.None? <==> (r.ListRoute? && (m == PUT || m == PATCH || m == DELETE)) || (r.DetailRoute? && m == POST)
  {
    match (r, m)
    case (_, OPTIONS) => Some(Metadata)
    case (ListRoute, GET) => Some(List)
    case (ListRoute, HEAD) => Some(List)
    case (ListRoute, POST) => Some(Create)
    case (ListRoute, _) => None
    case (DetailRoute(_), GET) => Some(Retrieve)
    case (DetailRoute(_), HEAD) => Some(Retrieve)
    case (DetailRoute(_), PUT) => Some(Update)
    case (DetailRoute(_), PATCH) => Some(PartialUpdate)
    case (DetailRoute(_), DELETE) => Some(Destroy)
    case (DetailRoute(_), POST) => None
  }

  /** Permission classes and their `&` / `|` compositions. */
  datatype Perm =
    | IsAuthenticatedOrReadOnly
    | IsAuthor
    | IsCommenter
    | IsModerator
    | IsOwner
    | ReadOnly
    | And(left: Perm, right: Perm)
    | Or(left: Perm, right: Perm)

  /** `has_permission`, before any object is loaded. */
  function HasPermission(p: Perm, u: User, m: Method): bool {
    match p
    case IsAuthenticatedOrReadOnly => IsSafe(m) || IsAuthenticated(u)
    case IsAuthor => PostPermissions.IsAuthor(u)
    case IsCommenter => PostPermissions.IsCommenter(u)
    case IsModerator => CorePermissions.IsModerator(u)
    case IsOwner => true
    case ReadOnly => CorePermissions.ReadOnly(m)
    case And(a, b) => HasPermission(a, u, m) && HasPermission(b, u, m)
    case Or(a, b) => HasPermission(a, u, m) || HasPermission(b, u, m)
  }

  /**
   * `has_object_permission` on an object whose owner is `owner`. A class that does not
   * override it allows; `a | b` asks each side for both of its checks.
   */
  function HasObjectPermission(p: Perm, u: User, m: Method, owner: Option<UserId>): bool {
    match p
    case IsOwner => CorePermissions.IsOwnerObject(u, owner)
    case And(a, b) => HasObjectPermission(a, u, m, owner) && HasObjectPermission(b, u, m, owner)
    case Or(a, b) =>
      (HasPermission(a, u, m) && HasObjectPermission(a, u, m, owner))
      || (HasPermission(b, u, m) && HasObjectPermission(b, u, m, owner))
    case _ => true
  }

  /** `check_permissions`: every class of the view must allow. */
  predicate AllPermit(perms: seq<Perm>, u: User, m: Method) {
    forall i :: 0 <= i < |perms| ==> HasPermission(perms[i], u, m)
  }

  /** `check_object_permissions` */
  predicate AllPermitObject(perms: seq<Perm>, u: User, m: Method, owner: Option<UserId>) {
    forall i :: 0 <= i < |perms| ==> HasObjectPermission(perms[i], u, m, owner)
  }

  /** The checks of a view with one permission class. */
  lemma AllPermitOne(p: Perm, u: User, m: Method, owner: Option<UserId>)
    ensures AllPermit([p], u, m) <==> HasPermission(p, u, m)
    ensures AllPermitObject([p], u, m, owner) <==> HasObjectPermission(p, u, m, owner)
  {
    assert [p][0] == p;
  }

  /** The checks of a view with two permission classes, class by class. */
  lemma AllPermitTwo(p: Perm, q: Perm, u: User, m: Method, owner: Option<UserId>)
    ensures AllPermit([p, q], u, m) <==> HasPermission(p, u, m) && HasPermission(q, u, m)
    ensures AllPermitObject([p, q], u, m, owner) <==> HasObjectPermission(p, u, m, owner) && HasObjectPermission(q, u, m, owner)
  {
    assert [p, q][0] == p && [p, q][1] == q;
  }

  /** The checks of a view with one or two permission classes, class by class. */
  lemma AllPermitShort(p: Perm, q: Perm, u: User, m: Method, owner: Option<UserId>)
    ensures AllPermit([p], u, m) <==> HasPermission(p, u, m)
    ensures AllPermitObject([p], u, m, owner) <==> HasObjectPermission(p, u, m, owner)
    ensures AllPermit([p, q], u, m) <==> HasPermission(p, u, m) && HasPermission(q, u, m)
    ensures AllPermitObject([p, q], u, m, owner) <==> HasObjectPermission(p, u, m, owner) && HasObjectPermission(q, u, m, owner)
  {
    AllPermitOne(p, u, m, owner);
    AllPermitTwo(p, q, u, m, owner);
  }

  /** `permission_denied`: 401 when nobody is logged in, 403 otherwise. */
  function Denied(u: User): (d: Decision)
    ensures d == Unauthenticated <==> u.Anonymous?
    ensures d == Forbidden <==> u.Member?
  {
    if u.Anonymous? then Unauthenticated else Forbidden
  }

  /** The result of `get_object()`: not in the view's query set, or found with its owner. */
  datatype Lookup = Missing | Found(owner: Option<UserId>)

  /**
   * The order of checks for one request: `check_permissions` (in `initial`), then the handler
   * for the action (405 if none; `refused` lists handlers the view overrides to raise
   * `PermissionDenied`), then, for a detail action, `get_object()` (404 when the row is not
   * in the query set) and `check_object_permissions`.
   */
  function Dispatch(perms: seq<Perm>, refused: set<Action>, u: User, m: Method, r: Route, found: Lookup): (d: Decision)
    ensures !AllPermit(perms, u, m) ==> d == Denied(u)
    ensures d == Allow <==>
      && AllPermit(perms, u, m)
      && ActionOf(m, r).Some?
      && ActionOf(m, r).value !in refused
      && (ActionOf(m, r).value.IsDetail() ==> found.Found? && AllPermitObject(perms, u, m, found.owner))
    ensures d == NotFound <==>
      && AllPermit(perms, u, m)
      && ActionOf(m, r).Some?
      && ActionOf(m, r).value !in refused
      && ActionOf(m, r).value.IsDetail()
      && found.Missing?
    ensures d == MethodNotAllowed <==> AllPermit(perms, u, m) && ActionOf(m, r).None?
    ensures AllPermit(perms, u, m) && ActionOf(m, r).Some? && ActionOf(m, r).value in refused ==> d == Forbidden
    ensures && AllPermit(perms, u, m)
            && ActionOf(m, r).Some?
            && ActionOf(m, r).value !in refused
            && ActionOf(m, r).value.IsDetail()
            && found.Found?
            && !AllPermitObject(perms, u, m, found.owner)
            ==> d == Denied(u)
  {
    if !AllPermit(perms, u, m) then Denied(u)
    else match ActionOf(m, r)
      case None => MethodNotAllowed
      case Some(a) =>
        if a in refused then Forbidden
        else if !a.IsDetail() then Allow
        else match found
          case Missing => NotFound
          case Found(owner) => if AllPermitObject(perms, u, m, owner) then Allow else Denied(u)
  }

  /**
   * Every composition the views build from `IsAuthenticatedOrReadOnly` refuses an unsafe
   * method from the anonymous user before anything else is looked at: the answer is 401.
   */
  lemma AnonymousWriteUnauthenticated(perms: seq<Perm>, refused: set<Action>, m: Method, r: Route, found: Lookup)
    requires |perms| > 0 && perms[0] == IsAuthenticatedOrReadOnly
    requires !IsSafe(m)
    ensures Dispatch(perms, refused, Anonymous, m, r, found) == Unauthenticated
  {
    assert !HasPermission(perms[0], Anonymous, m);
  }
}
