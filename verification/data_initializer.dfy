/** DataInitializer: the start-up provisioning of the roles USER and ADMIN
    and of the accounts "admin" and "user". */
module Bootstrap {
  import opened Common
  import opened Accounts

  /** findByRoleName(name).orElseGet(save(new Role(name))). */
  function EnsureRole(roles: map<string, Role>, name: string): map<string, Role>
  {
    if name in roles then roles else roles[name := Role(name)]
  }

  /** `if (!existsByUsername(username)) save(new account)`. */
  function EnsureAccount(users: map<string, User>, username: string, password: string, role: Role): map<string, User>
  {
    if username in users then users else users[username := User(username, password, {role})]
  }

  function ProvisionedRoles(roles: map<string, Role>): (r: map<string, Role>)
    ensures "USER" in r && "ADMIN" in r
  {
    EnsureRole(EnsureRole(roles, "USER"), "ADMIN")
  }

  /** The accounts after provisioning, given the provisioned role table. */
  function ProvisionedUsers(users: map<string, User>, roles: map<string, Role>, encode: string -> string): map<string, User>
    requires "USER" in roles && "ADMIN" in roles
  {
    var withAdmin := EnsureAccount(users, "admin", encode("admin123"), roles["ADMIN"]);
    EnsureAccount(withAdmin, "user", encode("user123"), roles["USER"])
  }

  /** What provisioning guarantees: both roles exist and existing roles are
      reused; each default account is created only when its username is
      free, with its encoded default password and its single role; existing
      accounts are untouched; nothing else is added. */
  lemma ProvisioningFacts(users: map<string, User>, roles: map<string, Role>, encode: string -> string)
    ensures var rs := ProvisionedRoles(roles);
      && rs.Keys == roles.Keys + {"USER", "ADMIN"}
      && (forall n :: n in roles ==> rs[n] == roles[n])
      && ("USER" !in roles ==> rs["USER"] == Role("USER"))
      && ("ADMIN" !in roles ==> rs["ADMIN"] == Role("ADMIN"))
    ensures var rs := ProvisionedRoles(roles); var us := ProvisionedUsers(users, rs, encode);
      && us.Keys == users.Keys + {"admin", "user"}
      && (forall u :: u in users ==> us[u] == users[u])
      && ("admin" !in users ==> us["admin"] == User("admin", encode("admin123"), {rs["ADMIN"]}))
      && ("user" !in users ==> us["user"] == User("user", encode("user123"), {rs["USER"]}))
  {
  }

  /** Running the initializer a second time changes nothing. */
  lemma RunIsIdempotent(users: map<string, User>, roles: map<string, Role>, encode: string -> string)
    ensures var rs := ProvisionedRoles(roles); var us := ProvisionedUsers(users, rs, encode);
      && ProvisionedRoles(rs) == rs
      && ProvisionedUsers(us, ProvisionedRoles(rs), encode) == us
  {
  }

  /** run. */
  method Run(repo: Repositories, encode: string -> string)
    requires repo.Valid()
    modifies repo
    ensures repo.Valid()
    ensures repo.roles == ProvisionedRoles(old(repo.roles))
    ensures repo.users == ProvisionedUsers(old(repo.users), repo.roles, encode)
  {
    var userRole: Role;
    if "USER" in repo.roles {
      userRole := repo.roles["USER"];
    } else {
      userRole := Role("USER");
      repo.roles := repo.roles["USER" := userRole];
    }
    var adminRole: Role;
    if "ADMIN" in repo.roles {
      adminRole := repo.roles["ADMIN"];
    } else {
      adminRole := Role("ADMIN");
      repo.roles := repo.roles["ADMIN" := adminRole];
    }
    assert repo.roles["USER"] == userRole && repo.roles["ADMIN"] == adminRole;
    assert old(repo.roles).Values <= repo.roles.Values by {
      forall v | v in old(repo.roles).Values ensures v in repo.roles.Values {
        var n :| n in old(repo.roles) && old(repo.roles)[n] == v;
        assert repo.roles[n] == v;
      }
    }
    assert userRole in repo.roles.Values && adminRole in repo.roles.Values;
    if "admin" !in repo.users {
      var admin := User("admin", encode("admin123"), {adminRole});
      repo.users := repo.users["admin" := admin];
    }
    if "user" !in repo.users {
      var user := User("user", encode("user123"), {userRole});
      repo.users := repo.users["user" := user];
    }
  }
}
