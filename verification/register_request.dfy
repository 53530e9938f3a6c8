/** RegisterRequest: the registration record and its compact-constructor guards. */
module RegisterRequests {
  import opened Common

  datatype RegisterRequest = RegisterRequest(username: string, password: string, roles: set<string>)

  const USERNAME_MESSAGE := "Username cannot be null or empty"
  const PASSWORD_MESSAGE := "password cannot be null or empty"
  const ROLES_MESSAGE := "Roles cannot be null or empty"

  /** `new RegisterRequest(username, password, roles)`: username, then
      password (UserValidationException), then the role set
      (RoleValidationException), all with BAD_REQUEST. The individual role
      names are not examined. */
  function NewRegisterRequest(username: Option<string>, password: Option<string>, roles: Option<set<string>>)
    : (r: Result<RegisterRequest, Raised>)
    ensures r.Success? <==> Present(username) && Present(password) && roles.Some? && roles.value != {}
    ensures r.Success? ==> r.value == RegisterRequest(username.value, password.value, roles.value)
    ensures !Present(username) ==> r == Failure(Raised(UserValidation, USERNAME_MESSAGE, Some(BAD_REQUEST)))
    ensures Present(username) && !Present(password) ==> r == Failure(Raised(UserValidation, PASSWORD_MESSAGE, Some(BAD_REQUEST)))
    ensures Present(username) && Present(password) && (roles.None? || roles.value == {})
      ==> r == Failure(Raised(RoleValidation, ROLES_MESSAGE, Some(BAD_REQUEST)))
  {
    if !Present(username) then Failure(Raised(UserValidation, USERNAME_MESSAGE, Some(BAD_REQUEST)))
    else if !Present(password) then Failure(Raised(UserValidation, PASSWORD_MESSAGE, Some(BAD_REQUEST)))
    else if roles.None? || roles.value == {} then Failure(Raised(RoleValidation, ROLES_MESSAGE, Some(BAD_REQUEST)))
    else Success(RegisterRequest(username.value, password.value, roles.value))
  }
}
