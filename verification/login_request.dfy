/** LoginRequest: the credentials record and its compact-constructor guards. */
module LoginRequests {
  import opened Common

  datatype LoginRequest = LoginRequest(username: string, password: string)

  const USERNAME_MESSAGE := "Username cannot be null or empty"
  const PASSWORD_MESSAGE := "password cannot be null or empty"

  /** `new LoginRequest(username, password)`: the username is checked first,
      then the password; both failures are UserValidationException with
      BAD_REQUEST; accepted values are kept exactly as given (no trimming). */
  function NewLoginRequest(username: Option<string>, password: Option<string>): (r: Result<LoginRequest, Raised>)
    ensures r.Success? <==> Present(username) && Present(password)
    ensures r.Success? ==> r.value == LoginRequest(username.value, password.value)
    ensures !Present(username) ==> r == Failure(Raised(UserValidation, USERNAME_MESSAGE, Some(BAD_REQUEST)))
    ensures Present(username) && !Present(password) ==> r == Failure(Raised(UserValidation, PASSWORD_MESSAGE, Some(BAD_REQUEST)))
  {
    if !Present(username) then Failure(Raised(UserValidation, USERNAME_MESSAGE, Some(BAD_REQUEST)))
    else if !Present(password) then Failure(Raised(UserValidation, PASSWORD_MESSAGE, Some(BAD_REQUEST)))
    else Success(LoginRequest(username.value, password.value))
  }
}
