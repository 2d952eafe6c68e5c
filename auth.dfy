/** The slice of the framework's authentication layer the CRM backend consults:
    user accounts, their group memberships, and `has_perm` driven by the group
    permissions the project's database loader installs. */
module Auth {

  /** A stored user account. The password is kept as given; hashing is not
      modelled. */
  datatype User = User(
    id: nat,
    username: string,
    password: string,
    isStaff: bool,
    isSuperuser: bool,
    isActive: bool,
    groups: set<string>)

  /** `request.user`: either nobody is logged in or a stored user is. */
  datatype Account = Anonymous | Member(user: User) {
    predicate IsAuthenticated() {
      Member?
    }
  }

  /** The four default permissions the framework creates per model. */
  const DefaultActions: set<string> := {"add", "change", "delete", "view"}

  /** The models of the `crm_api` application. */
  const CrmModels: set<string> :=
    {"salescontact", "staffcontact", "supportcontact", "client", "contract", "eventstatus", "event"}

  /** STAFF: every permission of the `crm_api` application (including the extra
      `change_contract_status`) and every permission on `auth.user`. */
  const StaffPermissions: set<string> :=
    (set a, m | a in DefaultActions && m in CrmModels :: "crm_api." + a + "_" + m)
    + {"crm_api.change_contract_status"}
    + (set a | a in DefaultActions :: "auth." + a + "_user")

  const SalesPermissions: set<string> := {
    "crm_api.add_client", "crm_api.change_client", "crm_api.view_client",
    "crm_api.add_contract", "crm_api.view_contract", "crm_api.change_contract_status",
    "crm_api.add_event", "crm_api.view_event"}

  const SupportPermissions: set<string> :=
    {"crm_api.view_client", "crm_api.change_event", "crm_api.view_event"}

  /** The permissions attached to each group by the database loader. */
  const GroupPermissions: map<string, set<string>> :=
    map["STAFF" := StaffPermissions, "SALES" := SalesPermissions, "SUPPORT" := SupportPermissions]

  /** `user.has_perm(perm)`: an active superuser holds every permission; another
      active user holds those of its groups; an inactive or anonymous user
      holds none. */
  predicate HasPerm(a: Account, perm: string) {
    match a
    case Anonymous => false
    case Member(u) =>
      u.isActive && (u.isSuperuser || exists g :: g in u.groups && g in GroupPermissions && perm in GroupPermissions[g])
  }

  /** Holding a permission implies being logged in with an active account. */
  lemma GrantedImpliesAuthenticated(a: Account, perm: string)
    requires HasPerm(a, perm)
    ensures a.IsAuthenticated() && a.user.isActive
  {
  }

  /** Membership in a group grants its permissions to an active user, and no
      group grants anything to an inactive one. */
  lemma GroupGrants(u: User, g: string, perm: string)
    requires g in u.groups && g in GroupPermissions && perm in GroupPermissions[g]
    ensures HasPerm(Member(u), perm) == u.isActive
  {
  }

  /** The SALES group may change a contract's status but not the contract
      itself; SUPPORT holds only its three permissions. */
  lemma SeededGroupContents()
    ensures "crm_api.change_contract" !in SalesPermissions
    ensures "crm_api.change_contract_status" in SalesPermissions
    ensures "crm_api.change_contract" in StaffPermissions
    ensures "crm_api.change_contract_status" !in SupportPermissions
    ensures |SupportPermissions| == 3
  {
    assert "crm_api." + "change" + "_" + "contract" == "crm_api.change_contract";
    assert "change" in DefaultActions && "contract" in CrmModels;
  }
}
