/** UserDetailsServiceImpl: loads an account by username and presents its
    roles as "ROLE_"-prefixed authorities. */
module UserDetailsLookup {
  import opened Common
  import opened Accounts

  /** Spring's UserDetails as built by loadUserByUsername. */
  datatype UserDetails = UserDetails(username: string, password: string, authorities: set<string>)

  const ROLE_PREFIX := "ROLE_"

  /** The granted authorities of a role set. */
  function Authorities(roles: set<Role>): set<string>
  {
    set r | r in roles :: ROLE_PREFIX + r.roleName
  }

  /** Prefixing is injective: the prefixed name determines the name. */
  lemma PrefixCancels(a: string, b: string)
    requires ROLE_PREFIX + a == ROLE_PREFIX + b
    ensures a == b
  {
    assert a == (ROLE_PREFIX + a)[|ROLE_PREFIX|..];
    assert b == (ROLE_PREFIX + b)[|ROLE_PREFIX|..];
  }

  /** An authority "ROLE_" + name is granted exactly when the account holds
      the role named name. */
  lemma AuthorityIffRole(roles: set<Role>, name: string)
    ensures ROLE_PREFIX + name in Authorities(roles) <==> Role(name) in roles
  {
    if ROLE_PREFIX + name in Authorities(roles) {
      var r :| r in roles && ROLE_PREFIX + r.roleName == ROLE_PREFIX + name;
      PrefixCancels(r.roleName, name);
    }
  }

  /** Distinct roles give distinct authorities: one authority per role. */
  lemma {:induction false} AuthoritiesCount(roles: set<Role>)
    ensures |Authorities(roles)| == |roles|
    decreases |roles|
  {
    if roles != {} {
      var r :| r in roles;
      var rest := roles - {r};
      AuthoritiesCount(rest);
      assert Authorities(roles) == Authorities(rest) + {ROLE_PREFIX + r.roleName};
      if ROLE_PREFIX + r.roleName in Authorities(rest) {
        AuthorityIffRole(rest, r.roleName);
        assert false;
      }
    }
  }

  /** loadUserByUsername: NOT_FOUND for an unknown username; otherwise the
      stored username and (encoded) password unchanged, and one
      "ROLE_"-prefixed authority per held role and nothing else. */
  function LoadUserByUsername(users: map<string, User>, username: string): (r: Result<UserDetails, Raised>)
    ensures r.Success? <==> username in users
    ensures r.Failure? ==> r.error == Raised(UserValidation, "User not found with username: " + username, Some(NOT_FOUND))
    ensures r.Success? ==> r.value.username == users[username].username && r.value.password == users[username].password
    ensures r.Success? ==> |r.value.authorities| == |users[username].roles|
    ensures r.Success? ==> forall a :: a in r.value.authorities ==>
      exists name :: a == ROLE_PREFIX + name && Role(name) in users[username].roles
  {
    if username !in users then
      Failure(Raised(UserValidation, "User not found with username: " + username, Some(NOT_FOUND)))
    else
      var user := users[username];
      AuthoritiesCount(user.roles);
      Success(UserDetails(user.username, user.password, Authorities(user.roles)))
  }
}
