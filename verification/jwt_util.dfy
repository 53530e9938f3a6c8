/** JwtUtil: the claims a login token carries and the checks made on a token
    presented later. The registered claims are those of RFC 7519 (section
    4.1.2 "sub", section 4.1.4 "exp", section 4.1.6 "iat"); the HS256
    signature (RFC 7518 section 3.2) is idealised: a token records the secret
    it was signed with, and it verifies under exactly that secret. */
module Jwt {
  import opened Common
  import opened Accounts
  import opened UserDetailsLookup

  /** One day in milliseconds. */
  const EXPIRATION_TIME: int := 86400000

  /** Timestamps are milliseconds since the epoch. */
  datatype Claims = Claims(subject: string, roles: seq<string>, issuedAt: int, expiration: int)

  /** A signed, compacted token. */
  datatype Token = Token(claims: Claims, signingSecret: string)

  /** t occurs in s at position i. */
  predicate OccursAt(s: string, t: string, i: nat)
  {
    i + |t| <= |s| && s[i..i + |t|] == t
  }

  predicate Contains(s: string, t: string)
  {
    exists i: nat | i <= |s| :: OccursAt(s, t, i)
  }

  /** String.replace(target, replacement) for a non-empty target: every
      occurrence found scanning left to right, without overlap, is replaced. */
  function Replace(s: string, target: string, replacement: string): string
    requires |target| > 0
    decreases |s|
  {
    if |s| < |target| then s
    else if s[..|target|] == target then replacement + Replace(s[|target|..], target, replacement)
    else [s[0]] + Replace(s[1..], target, replacement)
  }

  /** A string without the target is left as it is. */
  lemma {:induction false} ReplaceAbsent(s: string, target: string, replacement: string)
    requires |target| > 0 && !Contains(s, target)
    ensures Replace(s, target, replacement) == s
    decreases |s|
  {
    if |s| >= |target| {
      assert !OccursAt(s, target, 0);
      assert s[..|target|] != target;
      forall i: nat | i <= |s[1..]| && OccursAt(s[1..], target, i)
        ensures OccursAt(s, target, i + 1)
      {
        assert s[1..][i..i + |target|] == s[i + 1..i + 1 + |target|];
      }
      ReplaceAbsent(s[1..], target, replacement);
    }
  }

  /** The roles-claim mapping of one authority: every "ROLE_" removed. */
  function StripRolePrefix(authority: string): string
  {
    Replace(authority, ROLE_PREFIX, "")
  }

  function StripAll(authorities: seq<string>): (roles: seq<string>)
    ensures |roles| == |authorities|
    ensures forall i :: 0 <= i < |roles| ==> roles[i] == StripRolePrefix(authorities[i])
  {
    seq(|authorities|, i requires 0 <= i < |authorities| => StripRolePrefix(authorities[i]))
  }

  /** Stripping undoes the prefixing of UserDetailsServiceImpl when the role
      name does not itself contain "ROLE_". */
  lemma StripUndoesPrefix(name: string)
    requires !Contains(name, ROLE_PREFIX)
    ensures StripRolePrefix(ROLE_PREFIX + name) == name
  {
    var a := ROLE_PREFIX + name;
    assert a[..|ROLE_PREFIX|] == ROLE_PREFIX;
    assert a[|ROLE_PREFIX|..] == name;
    ReplaceAbsent(name, ROLE_PREFIX, "");
  }

  /** Without that condition the claim loses information: roles named "A"
      and "ROLE_A" both appear as "A". */
  lemma StripConflatesNestedPrefix()
    ensures StripRolePrefix(ROLE_PREFIX + "A") == "A"
    ensures StripRolePrefix(ROLE_PREFIX + "ROLE_A") == "A"
  {
    var once := ROLE_PREFIX + "A";
    assert once[..5] == ROLE_PREFIX && once[5..] == "A";
    assert Replace("A", ROLE_PREFIX, "") == "A";
    var twice := ROLE_PREFIX + "ROLE_A";
    assert twice[..5] == ROLE_PREFIX && twice[5..] == once;
  }

  /** generateToken. The clock is read twice (the two parameters). The
      authorities of a Spring User are held in a set sorted by
      String.compareTo, so the roles claim maps them in ascending order
      through StripRolePrefix. */
  method GenerateToken(userDetails: UserDetails, secretKey: string, issueClock: int, expiryClock: int)
    returns (token: Token, ghost order: seq<string>)
    ensures IsEnumeration(order, userDetails.authorities) && StrictlyAscending(order)
    ensures token.signingSecret == secretKey
    ensures token.claims.subject == userDetails.username
    ensures token.claims.roles == StripAll(order)
    ensures token.claims.issuedAt == issueClock
    ensures token.claims.expiration == expiryClock + EXPIRATION_TIME
    ensures issueClock <= expiryClock ==> token.claims.expiration - token.claims.issuedAt >= EXPIRATION_TIME
  {
    var authorities := EnumerateAscending(userDetails.authorities);
    order := authorities;
    var roles := StripAll(authorities);
    token := Token(Claims(userDetails.username, roles, issueClock, expiryClock + EXPIRATION_TIME), secretKey);
  }

  /** The order of the roles claim is fixed: an account holding ADMIN and
      USER always gets ["ADMIN", "USER"]. */
  lemma {:induction false} AdminAndUserClaimOrder(order: seq<string>)
    requires IsEnumeration(order, {"ROLE_ADMIN", "ROLE_USER"}) && StrictlyAscending(order)
    ensures StripAll(order) == ["ADMIN", "USER"]
  {
    var sorted := ["ROLE_ADMIN", "ROLE_USER"];
    assert StringLess("ROLE_ADMIN", "ROLE_USER");
    assert IsEnumeration(sorted, {"ROLE_ADMIN", "ROLE_USER"});
    AscendingEnumerationUnique(order, sorted, {"ROLE_ADMIN", "ROLE_USER"});
    StripUndoesPrefix("ADMIN");
    StripUndoesPrefix("USER");
    assert "ROLE_ADMIN" == ROLE_PREFIX + "ADMIN" && "ROLE_USER" == ROLE_PREFIX + "USER";
  }

  const SIGNATURE_MESSAGE :=
    "JWT signature does not match locally computed signature. JWT validity cannot be asserted and should not be trusted."

  /** parseClaims: fails for a token not signed with this secret. */
  function ParseClaims(token: Token, secretKey: string): (r: Result<Claims, Raised>)
    ensures r.Success? <==> token.signingSecret == secretKey
    ensures r.Success? ==> r.value == token.claims
    ensures r.Failure? ==> r.error.kind == InvalidSignature
  {
    if token.signingSecret == secretKey then Success(token.claims)
    else Failure(Raised(InvalidSignature, SIGNATURE_MESSAGE, None))
  }

  /** isTokenExpired: Date.before, so expired only strictly after the
      expiration instant. */
  function IsTokenExpired(token: Token, secretKey: string, now: int): (r: Result<bool, Raised>)
    ensures r.Success? <==> token.signingSecret == secretKey
    ensures r.Success? ==> (r.value <==> token.claims.expiration < now)
  {
    match ParseClaims(token, secretKey)
    case Failure(e) => Failure(e)
    case Success(claims) => Success(claims.expiration < now)
  }

  /** isTokenValid: the subject must equal the user's username and the token
      must not be expired; a token that fails verification is never valid. */
  function IsTokenValid(token: Token, secretKey: string, userDetails: UserDetails, now: int): (r: Result<bool, Raised>)
    ensures r.Success? <==> token.signingSecret == secretKey
    ensures r.Success? ==> (r.value <==> token.claims.subject == userDetails.username && now <= token.claims.expiration)
  {
    match ParseClaims(token, secretKey)
    case Failure(e) => Failure(e)
    case Success(claims) =>
      if claims.subject != userDetails.username then Success(false)
      else match IsTokenExpired(token, secretKey, now)
        case Failure(e) => Failure(e)
        case Success(expired) => Success(!expired)
  }

  /** A token issued for a user is valid for that user under the same secret
      up to and including its expiration instant, and not one millisecond
      later. */
  lemma IssuedTokenValidUntilExpiry(userDetails: UserDetails, secretKey: string, roles: seq<string>,
                                    issueClock: int, expiryClock: int, now: int)
    ensures var token := Token(Claims(userDetails.username, roles, issueClock, expiryClock + EXPIRATION_TIME), secretKey);
      IsTokenValid(token, secretKey, userDetails, now) == Success(now <= expiryClock + EXPIRATION_TIME)
  {
  }

  /** The roles claim of a login token lists the account's role names, one
      per role, when no role name contains "ROLE_". */
  lemma {:induction false} RolesClaimRecoversRoleNames(roles: set<Role>, order: seq<string>)
    requires IsEnumeration(order, Authorities(roles))
    requires forall r :: r in roles ==> !Contains(r.roleName, ROLE_PREFIX)
    ensures |StripAll(order)| == |roles|
    ensures forall name :: name in StripAll(order) <==> Role(name) in roles
  {
    AuthoritiesCount(roles);
    var claim := StripAll(order);
    forall name | name in claim
      ensures Role(name) in roles
    {
      var i :| 0 <= i < |claim| && claim[i] == name;
      assert order[i] in order;
      var r :| r in roles && order[i] == ROLE_PREFIX + r.roleName;
      StripUndoesPrefix(r.roleName);
    }
    forall name | Role(name) in roles
      ensures name in claim
    {
      AuthorityIffRole(roles, name);
      var a := ROLE_PREFIX + name;
      var i :| 0 <= i < |order| && order[i] == a;
      StripUndoesPrefix(name);
      assert claim[i] == name;
    }
  }
}
