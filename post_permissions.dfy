/**
 * The role permissions of the posts application. Both override only `has_permission`, so their
 * object-level check is the inherited one, which always allows (see `RestFramework`).
 */
module PostPermissions {
  import opened Identity

  /** `IsAuthor.has_permission`: membership of the "author" group. */
  function IsAuthor(u: User): (allowed: bool)
    ensures allowed <==> u.Member? && "author" in u.groups
    ensures u.Anonymous? ==> !allowed
  {
    InGroup(u, "author")
  }

  /** `IsCommenter.has_permission`: membership of the "commenter" group. */
  function IsCommenter(u: User): (allowed: bool)
    ensures allowed <==> u.Member? && "commenter" in u.groups
    ensures u.Anonymous? ==> !allowed
  {
    InGroup(u, "commenter")
  }

  /** The roles are independent: holding any other groups never grants "author". */
  lemma RolesIndependent(id: UserId, others: set<string>)
    requires "author" !in others && "commenter" !in others
    ensures !IsAuthor(Member(id, others)) && !IsCommenter(Member(id, others))
    ensures IsAuthor(Member(id, others + {"author"}))
    ensures IsCommenter(Member(id, others + {"commenter"}))
    ensures !IsCommenter(Member(id, others + {"author"}))
    ensures !IsAuthor(Member(id, others + {"commenter"}))
  {
  }
}
