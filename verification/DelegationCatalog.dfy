/**
 * The catalog the delegation proofs rest on: which roles may only look, what the others may do besides, and
 * that rank follows what a role may do.
 */
module DelegationCatalog {
  import opened Common
  import opened Delegation

  /** The actions that only look. */
  const LOOKING: set<Action> := {
    "user:read", "group:read", "org_unit:read", "audit:read", "connector:read", "sso_app:read", "business_role:read",
    "recert:read", "organization:read", "attribute:read", "jml:read"}

  lemma UnknownKeysMayNothing(role: RoleKey)
    ensures Rank(role).None? ==> Permissions(role) == {}
    ensures Rank(role).Some? <==> role in {"super_admin", "user_admin", "help_desk", "auditor", "read_only"}
  {
  }

  lemma RoleKeysDiffer()
    ensures "super_admin" != "user_admin" && "super_admin" != "help_desk" && "super_admin" != "auditor"
    ensures "super_admin" != "read_only" && "user_admin" != "help_desk" && "user_admin" != "auditor"
    ensures "user_admin" != "read_only" && "help_desk" != "auditor" && "help_desk" != "read_only"
    ensures "auditor" != "read_only"
  {
    assert "super_admin"[0] == 's' && "user_admin"[0] == 'u' && "help_desk"[0] == 'h' && "auditor"[0] == 'a';
    assert "read_only"[0] == 'r';
  }

  /** Auditors and readers only look; the help desk besides updates users; user admins besides manage users and
      groups; super admins may do everything. */
  lemma WhoDoesMoreThanLook()
    ensures Permissions("auditor") <= LOOKING && Permissions("read_only") <= LOOKING
    ensures Permissions("help_desk") <= LOOKING + {"user:update"} && "user:update" in Permissions("help_desk")
    ensures Permissions("user_admin") <= LOOKING + {"user:create", "user:update", "user:activate", "user:deactivate",
      "group:create", "group:update", "group:manage_members"}
    ensures {"user:create", "user:update", "user:activate", "user:deactivate", "group:create", "group:update",
      "group:manage_members"} <= Permissions("user_admin")
    ensures LOOKING <= Permissions("super_admin")
  {
    RoleKeysDiffer();
  }

  /** What everybody with a role may look at; what only auditors and super admins may. */
  lemma WhoLooksAtWhat()
    ensures {"user:read", "group:read", "org_unit:read"} <=
      Permissions("read_only") * Permissions("auditor") * Permissions("help_desk") * Permissions("user_admin")
    ensures {"business_role:read", "recert:read", "attribute:read", "jml:read"} <=
      Permissions("read_only") * Permissions("auditor") * Permissions("user_admin")
    ensures {"audit:read", "connector:read"} <= Permissions("auditor")
  {
    RoleKeysDiffer();
  }

  /** Rank follows what a role may do: whoever may do all that another may, and more, ranks above. */
  lemma RankFollowsPermissions()
    ensures Permissions("read_only") <= Permissions("auditor") <= Permissions("super_admin")
    ensures Permissions("help_desk") <= Permissions("user_admin") <= Permissions("super_admin")
    ensures Permissions("read_only") <= Permissions("user_admin")
    ensures Rank("read_only").value < Rank("auditor").value < Rank("help_desk").value < Rank("user_admin").value
    ensures Rank("user_admin").value < Rank("super_admin").value && Rank("read_only").value > NO_PRIVILEGE
  {
    RoleKeysDiffer();
  }
}
