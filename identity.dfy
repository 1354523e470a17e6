/**
 * The requesting identity and the HTTP method of a request, as the permission classes and
 * the query-set filters see them.
 */
module Identity {
  import opened Common

  type UserId = nat

  /** `request.user`: the anonymous user, or an account with the names of its groups. */
  datatype User = Anonymous | Member(id: UserId, groups: set<string>)

  datatype Method = GET | HEAD | OPTIONS | POST | PUT | PATCH | DELETE

  /** `user.is_authenticated` */
  predicate IsAuthenticated(u: User) {
    u.Member?
  }

  /** `user.groups.filter(name=g).exists()`; the anonymous user belongs to no group. */
  predicate InGroup(u: User, g: string) {
    u.Member? && g in u.groups
  }

  /**
   * `obj.owner == request.user` for an owner foreign key that may be null: a null owner
   * equals nobody, and the anonymous user owns nothing.
   */
  predicate Owns(u: User, owner: Option<UserId>) {
    u.Member? && owner == Some(u.id)
  }

  /** `request.method in SAFE_METHODS` */
  predicate IsSafe(m: Method) {
    m == GET || m == HEAD || m == OPTIONS
  }
}
