/** The signup screen (RegistrationService.java): an ordered chain of checks on the
    request's strings that runs before the request is handed to the user service. */
module Registration {
  import opened Wrappers

  /** The user role is only passed through to signup; its values are not modelled. */
  datatype UserRole = UserRole(name: string)

  datatype RegistrationRequest = RegistrationRequest(
    nickname: string,
    username: string,
    password: string,
    role: UserRole)

  const Quote: char := '"'
  const MinPasswordLength: int := 8

  const InvalidUsername: string := "Invalid username"
  const InvalidNickname: string := "Nickname cannot contain \" symbol"
  const PasswordTooShort: string := "Password is too short"
  const InvalidPassword: string := "Invalid character: \""

  /** The signup of the user service, which is not part of this model: it maps
      nickname, username, password and role to a status string. */
  type Signup = (string, string, string, UserRole) -> string

  /** The message of the first check the request fails, in the order RegistrationService.register runs
      them; None when all four pass. */
  function Rejection(request: RegistrationRequest): Option<string> {
    if Quote in request.username then Some(InvalidUsername)
    else if Quote in request.nickname then Some(InvalidNickname)
    else if |request.password| < MinPasswordLength then Some(PasswordTooShort)
    else if Quote in request.password then Some(InvalidPassword)
    else None
  }

  /** register: the first failed check's message, or whatever signup answers. */
  function Register(request: RegistrationRequest, signup: Signup): string {
    match Rejection(request)
    case Some(reason) => reason
    case None => signup(request.nickname, request.username, request.password, request.role)
  }

  /** A username with a quote is refused as an invalid username, whatever the other
      fields hold. */
  lemma UsernameCheckedFirst(request: RegistrationRequest, signup: Signup)
    requires Quote in request.username
    ensures Register(request, signup) == InvalidUsername
  {
  }

  /** A nickname with a quote is refused with its own message exactly when the
      username is clean. */
  lemma NicknameCheckedSecond(request: RegistrationRequest, signup: Signup)
    requires Quote in request.nickname
    ensures Register(request, signup) == InvalidNickname <==> Quote !in request.username
  {
  }

  /** A short password is refused as too short, ahead of the password's own quote
      check, once username and nickname are clean. */
  lemma ShortPasswordBeforeQuote(request: RegistrationRequest, signup: Signup)
    requires Quote !in request.username && Quote !in request.nickname
    requires |request.password| < MinPasswordLength
    ensures Register(request, signup) == PasswordTooShort
  {
  }

  /** Signup is reached exactly when all four checks pass. A refused request gets one
      of the four messages, and its answer does not depend on the user service, so
      the service is not consulted. */
  lemma SignupOnlyWhenClean(request: RegistrationRequest, signup: Signup, other: Signup)
    ensures Rejection(request).None? <==>
      && Quote !in request.username
      && Quote !in request.nickname
      && |request.password| >= MinPasswordLength
      && Quote !in request.password
    ensures Rejection(request).None? ==>
      Register(request, signup) == signup(request.nickname, request.username, request.password, request.role)
    ensures Rejection(request).Some? ==>
      && Register(request, signup) == Register(request, other)
      && Register(request, signup) in {InvalidUsername, InvalidNickname, PasswordTooShort, InvalidPassword}
  {
  }
}
