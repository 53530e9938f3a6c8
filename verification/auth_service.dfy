/** AuthService: login (lookup, then authentication, then token issue) and
    registration (duplicate check, role resolution, insert). */
module Auth {
  import opened Common
  import opened Responses
  import opened Accounts
  import opened UserDetailsLookup
  import opened Jwt
  import opened LoginRequests
  import opened RegisterRequests

  /** String.toUpperCase on the ASCII letters; every other character is kept. */
  function ToUpperCase(s: string): (u: string)
    ensures |u| == |s|
    ensures forall i :: 0 <= i < |s| ==>
      u[i] == if 'a' <= s[i] <= 'z' then (s[i] as int - 32) as char else s[i]
  {
    seq(|s|, i requires 0 <= i < |s| => if 'a' <= s[i] <= 'z' then (s[i] as int - 32) as char else s[i])
  }

  /** The RuntimeException thrown for an unknown role; it names the role as
      requested, before upper-casing. */
  function RoleNotFound(roleName: string): Raised
  {
    Raised(Runtime, "Role not found: " + roleName, None)
  }

  /** The roles that the requested names resolve to after upper-casing. */
  function ResolvedRoles(roleTable: map<string, Role>, roleNames: set<string>): set<Role>
  {
    set n | n in roleNames && ToUpperCase(n) in roleTable :: roleTable[ToUpperCase(n)]
  }

  /** The stream in register: each requested name, upper-cased, is looked up
      in the role repository, in the Set's iteration order; the first unknown
      name throws, and no role is ever created. Resolved roles are collected
      into a set. */
  method ResolveRoles(roleTable: map<string, Role>, roleNames: set<string>) returns (r: Result<set<Role>, Raised>)
    ensures r.Success? <==> forall n :: n in roleNames ==> ToUpperCase(n) in roleTable
    ensures r.Success? ==> r.value == ResolvedRoles(roleTable, roleNames)
    ensures r.Success? ==> r.value <= roleTable.Values && |r.value| <= |roleNames|
    ensures r.Failure? ==> exists n :: n in roleNames && ToUpperCase(n) !in roleTable && r.error == RoleNotFound(n)
  {
    var names := Enumerate(roleNames);
    var resolved: set<Role> := {};
    var k := 0;
    while k < |names|
      invariant 0 <= k <= |names|
      invariant forall i :: 0 <= i < k ==> ToUpperCase(names[i]) in roleTable
      invariant resolved == ResolvedRoles(roleTable, set i | 0 <= i < k :: names[i])
    {
      var upper := ToUpperCase(names[k]);
      if upper !in roleTable {
        assert names[k] in names;
        return Failure(RoleNotFound(names[k]));
      }
      ghost var before := set i | 0 <= i < k :: names[i];
      assert (set i | 0 <= i < k + 1 :: names[i]) == before + {names[k]};
      resolved := resolved + {roleTable[upper]};
      k := k + 1;
    }
    assert (set i | 0 <= i < |names| :: names[i]) == roleNames by {
      forall n | n in roleNames ensures n in (set i | 0 <= i < |names| :: names[i]) {
        var i :| 0 <= i < |names| && names[i] == n;
      }
    }
    ResolvedRolesBounds(roleTable, roleNames);
    return Success(resolved);
  }

  /** Resolution yields stored roles, and at most one per requested name
      (names differing only in case collapse to one role). */
  lemma {:induction false} ResolvedRolesBounds(roleTable: map<string, Role>, roleNames: set<string>)
    ensures ResolvedRoles(roleTable, roleNames) <= roleTable.Values
    ensures |ResolvedRoles(roleTable, roleNames)| <= |roleNames|
    decreases |roleNames|
  {
    if roleNames != {} {
      var n :| n in roleNames;
      var rest := roleNames - {n};
      ResolvedRolesBounds(roleTable, rest);
      if ToUpperCase(n) in roleTable {
        assert ResolvedRoles(roleTable, roleNames) == ResolvedRoles(roleTable, rest) + {roleTable[ToUpperCase(n)]};
      } else {
        assert ResolvedRoles(roleTable, roleNames) == ResolvedRoles(roleTable, rest);
      }
    }
  }

  /** "user" and "USER" resolve to the same single role. */
  lemma CaseVariantsCollapse(roleTable: map<string, Role>)
    requires "USER" in roleTable
    ensures ResolvedRoles(roleTable, {"user", "USER"}) == {roleTable["USER"]}
  {
    assert ToUpperCase("user") == "USER";
    assert ToUpperCase("USER") == "USER";
  }

  function BadCredentialsError(): Raised
  {
    Raised(BadCredentials, "Bad credentials", None)
  }

  /** login. The account is loaded first, so an unknown username fails with
      NOT_FOUND before any password check; authentication compares the
      presented password with the stored encoded one through `matches`; a
      token is generated only after authentication succeeded. */
  method Login(users: map<string, User>, secretKey: string, matches: (string, string) -> bool,
               loginRequest: LoginRequest, issueClock: int, expiryClock: int)
    returns (r: Result<GenericResponse<Token>, Raised>, ghost order: seq<string>)
    ensures loginRequest.username !in users ==>
      r == Failure(Raised(UserValidation, "User not found with username: " + loginRequest.username, Some(NOT_FOUND)))
    ensures loginRequest.username in users && !matches(loginRequest.password, users[loginRequest.username].password) ==>
      r == Failure(BadCredentialsError())
    ensures r.Success? <==>
      loginRequest.username in users && matches(loginRequest.password, users[loginRequest.username].password)
    ensures r.Success? ==>
      var user := users[loginRequest.username];
      && r.value.status == OK && r.value.success && r.value.message == "Login successful"
      && r.value.WellFormed() && r.value.data.Some?
      && IsEnumeration(order, Authorities(user.roles)) && StrictlyAscending(order)
      && r.value.data.value == Token(Claims(user.username, StripAll(order), issueClock, expiryClock + EXPIRATION_TIME), secretKey)
  {
    order := [];
    var loaded := LoadUserByUsername(users, loginRequest.username);
    if loaded.Failure? {
      return Failure(loaded.error), order;
    }
    var userDetails := loaded.value;
    if !matches(loginRequest.password, userDetails.password) {
      return Failure(BadCredentialsError()), order;
    }
    var jwtToken;
    jwtToken, order := GenerateToken(userDetails, secretKey, issueClock, expiryClock);
    WellFormedWhen(GenericResponse(OK, true, "Login successful", Some(jwtToken)));
    r := Success(GenericResponse(OK, true, "Login successful", Some(jwtToken)));
  }

  /** register. An existing username is answered with a failure envelope,
      not an exception, and nothing is saved; an unknown role throws and
      nothing is saved; otherwise exactly one account is added, with the
      encoded password and the resolved role set. The role table never
      changes. */
  method Register(repo: Repositories, encode: string -> string, registerRequest: RegisterRequest)
    returns (r: Result<GenericResponse<()>, Raised>)
    requires repo.Valid()
    modifies repo
    ensures repo.Valid()
    ensures repo.roles == old(repo.roles)
    ensures registerRequest.username in old(repo.users) ==>
      r == Success(GenericResponse(BAD_REQUEST, false, "Username already exists", None)) && repo.users == old(repo.users)
    ensures r.Failure? <==>
      registerRequest.username !in old(repo.users) && exists n :: n in registerRequest.roles && ToUpperCase(n) !in old(repo.roles)
    ensures r.Failure? ==>
      repo.users == old(repo.users)
      && exists n :: n in registerRequest.roles && ToUpperCase(n) !in old(repo.roles) && r.error == RoleNotFound(n)
    ensures r.Success? && registerRequest.username !in old(repo.users) ==>
      && r.value == GenericResponse(CREATED, true, "User registered successfully", None)
      && repo.users == old(repo.users)[registerRequest.username :=
           User(registerRequest.username, encode(registerRequest.password), ResolvedRoles(old(repo.roles), registerRequest.roles))]
    ensures r.Success? ==> r.value.WellFormed()
  {
    if registerRequest.username in repo.users {
      WellFormedWhen<()>(GenericResponse(BAD_REQUEST, false, "Username already exists", None));
      return Success(GenericResponse(BAD_REQUEST, false, "Username already exists", None));
    }
    var roles := ResolveRoles(repo.roles, registerRequest.roles);
    if roles.Failure? {
      return Failure(roles.error);
    }
    var user := User(registerRequest.username, encode(registerRequest.password), roles.value);
    repo.users := repo.users[registerRequest.username := user];
    WellFormedWhen<()>(GenericResponse(CREATED, true, "User registered successfully", None));
    r := Success(GenericResponse(CREATED, true, "User registered successfully", None));
  }
}
