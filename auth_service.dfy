/** The credential check of the authentication service (`AuthService`).
    Its collaborators (the user lookup, the password encoder's matcher, the
    token generator and the token validator) are passed in as functions;
    each result also records the calls made to each collaborator, in the
    way the tests verify them on mocks. */
module AuthService {
  import opened Wrappers

  /** A stored user; `password` is the stored (encoded) password. */
  datatype User = User(email: string, password: string, role: string)

  datatype LoginRequest = LoginRequest(email: string, password: string)

  /** One `matches(rawPassword, encodedPassword)` call. */
  datatype PasswordCheck = PasswordCheck(raw: string, encoded: string)

  /** One `generateToken(email, role)` call. */
  datatype TokenRequest = TokenRequest(email: string, role: string)

  /** The outcome of `authenticate`, with the email looked up, the password
      checks made and the tokens requested. */
  datatype Authentication = Authentication(
    token: Option<string>,
    lookups: seq<string>,
    checks: seq<PasswordCheck>,
    issued: seq<TokenRequest>)

  /** `authenticate`: look the user up by the request's email, keep it only
      if the request's password matches its stored password, and turn the
      user that is left into a token for its email and role. A token is
      returned exactly when the user exists and the password matches, and it
      is the generator's token for that user. */
  function Authenticate(
    req: LoginRequest,
    findByEmail: string -> Option<User>,
    matches: (string, string) -> bool,
    generateToken: (string, string) -> string): (a: Authentication)
    ensures a.lookups == [req.email]
    ensures a.token.Some? <==>
      findByEmail(req.email).Some? && matches(req.password, findByEmail(req.email).value.password)
    ensures a.token.Some? ==>
      a.token.value == generateToken(findByEmail(req.email).value.email, findByEmail(req.email).value.role)
    ensures |a.checks| <= 1 && |a.issued| <= 1
    ensures a.issued != [] <==> a.token.Some?
  {
    var found := findByEmail(req.email);
    var checks := if found.Some? then [PasswordCheck(req.password, found.value.password)] else [];
    var accepted := if found.Some? && matches(req.password, found.value.password) then found else None;
    match accepted
    case None => Authentication(None, [req.email], checks, [])
    case Some(u) => Authentication(Some(generateToken(u.email, u.role)), [req.email], checks, [TokenRequest(u.email, u.role)])
  }

  /** A known user with a matching password: the result is the generated
      token, and the lookup, the password check on (raw password, stored
      password) and the token request each happen exactly once. */
  lemma AuthenticateWithValidCredentials(
    req: LoginRequest,
    findByEmail: string -> Option<User>,
    matches: (string, string) -> bool,
    generateToken: (string, string) -> string)
    requires findByEmail(req.email).Some?
    requires matches(req.password, findByEmail(req.email).value.password)
    ensures var u := findByEmail(req.email).value;
      var a := Authenticate(req, findByEmail, matches, generateToken);
      && a.token == Some(generateToken(u.email, u.role))
      && a.lookups == [req.email]
      && a.checks == [PasswordCheck(req.password, u.password)]
      && a.issued == [TokenRequest(u.email, u.role)]
  {
  }

  /** An unknown user: no token, and neither the matcher nor the generator
      is consulted, so the outcome is the same whatever they are. */
  lemma AuthenticateUnknownUser(
    req: LoginRequest,
    findByEmail: string -> Option<User>,
    matches: (string, string) -> bool,
    generateToken: (string, string) -> string,
    otherMatches: (string, string) -> bool,
    otherGenerateToken: (string, string) -> string)
    requires findByEmail(req.email).None?
    ensures var a := Authenticate(req, findByEmail, matches, generateToken);
      && a.token.None?
      && a.lookups == [req.email]
      && a.checks == []
      && a.issued == []
      && a == Authenticate(req, findByEmail, otherMatches, otherGenerateToken)
  {
  }

  /** A wrong password: no token after exactly one password check, and the
      generator is not consulted, so the outcome is the same whatever it
      is. */
  lemma AuthenticateWrongPassword(
    req: LoginRequest,
    findByEmail: string -> Option<User>,
    matches: (string, string) -> bool,
    generateToken: (string, string) -> string,
    otherGenerateToken: (string, string) -> string)
    requires findByEmail(req.email).Some?
    requires !matches(req.password, findByEmail(req.email).value.password)
    ensures var a := Authenticate(req, findByEmail, matches, generateToken);
      && a.token.None?
      && a.lookups == [req.email]
      && a.checks == [PasswordCheck(req.password, findByEmail(req.email).value.password)]
      && a.issued == []
      && a == Authenticate(req, findByEmail, matches, otherGenerateToken)
  {
  }

  /** What the token validator does with a token: return normally, or throw
      a `JwtException`. */
  datatype Validation = Returned | ThrewJwtException(message: string)

  /** The outcome of `validateToken`, with the tokens passed to the
      validator. */
  datatype TokenValidation = TokenValidation(valid: bool, validated: seq<string>)

  /** `validateToken`: the validator is called once on the token; a normal
      return means valid, a `JwtException` is caught and means invalid. */
  function ValidateToken(token: string, validate: string -> Validation): (v: TokenValidation)
    ensures v.validated == [token]
    ensures v.valid <==> validate(token) == Returned
  {
    match validate(token)
    case Returned => TokenValidation(true, [token])
    case ThrewJwtException(_) => TokenValidation(false, [token])
  }
}
