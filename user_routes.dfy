/** The user routes: signup with an email-only duplicate check, login by email and
    password, and logout; tokens last seven days. */
module UserRoutes {
  import opened Common
  import opened Jwt
  import opened UserModel

  const FieldsRequired := MessageReply(400, "All fields are required")
  const EmailExists := MessageReply(400, "User already exists with this email.")
  const SignupFailed := MessageReply(500, "Internal server error")
  const Registered := "User registered successfully!"
  const CredentialsRequired := ErrorReply(400, "Email and password are required")
  const InvalidCredentials := ErrorReply(400, "Invalid email or password")
  const LoginFailed := ErrorReply(500, "Server error")
  const LoggedIn := "Login successful"
  const LoggedOut := MessageReply(200, "Logged out successfully")

  /** The body of a signup request. */
  datatype SignupBody = SignupBody(
    fullName: Option<string>,
    email: Option<string>,
    year: Option<int>,
    branch: Option<string>,
    section: Option<string>,
    rollNumber: Option<string>,
    password: Option<string>)

  /** The body of a login request. */
  datatype LoginBody = LoginBody(email: Option<string>, password: Option<string>)

  /** Replies of signup and login: an error, or 200 with a message, a token and the user. */
  datatype AuthReply = AuthRefused(reply: Reply) | Authenticated(message: string, token: Token, user: UserEcho)

  /** `generateToken(userId)`: a token for `{ id: userId }` valid seven days; signing
      throws when the secret is not configured. */
  function GenerateToken(userId: Id, secret: Option<string>): (r: Option<Token>)
    ensures r.Some? <==> Truthy(secret)
    ensures r.Some? ==> r.value == Token(UserClaims(userId), secret.value, "7d")
  {
    Sign(UserClaims(userId), secret, "7d")
  }

  /** `fullName && email && year && branch && section && rollNumber && password` */
  predicate AllGiven(b: SignupBody)
  {
    Truthy(b.fullName) && Truthy(b.email) && b.year.Some? && b.year.value != 0 && Truthy(b.branch)
    && Truthy(b.section) && Truthy(b.rollNumber) && Truthy(b.password)
  }

  /** The paths of the new user: no role, so the default applies. */
  function SignupFields(b: SignupBody, hashed: string): (f: UserFields)
    ensures f.role.None? && f.password == Some(hashed)
    ensures f.fullName == b.fullName && f.email == b.email && f.year == b.year
    ensures f.branch == b.branch && f.section == b.section && f.rollNumber == b.rollNumber
  {
    UserFields(b.fullName, b.email, Some(hashed), None, b.year, b.branch, b.section, b.rollNumber)
  }

  /** The user part of a reply, read from the stored user. The login reply sends
      `user.fullName || user.name`; stored users have no `name` path. */
  function Echo(id: Id, u: User): (e: UserEcho)
    ensures e.id == id && e.email == u.email && e.rollNumber == u.rollNumber
    ensures e.year == u.year && e.branch == u.branch && e.section == u.section
    ensures u.fullName != "" ==> e.name == Some(u.fullName)
    ensures u.fullName == "" ==> e.name == None
  {
    UserEcho(id, if u.fullName != "" then Some(u.fullName) else None, u.email, u.year, u.branch,
             u.section, u.rollNumber)
  }

  /** POST `/signup`. Only the email is looked up beforehand; a duplicate roll number
      is caught by the unique index on save and answers 500. The user is stored before
      the token is signed, so a missing secret answers 500 yet keeps the user. */
  method Signup(table: UserTable, b: SignupBody, hash: string -> string, secret: Option<string>)
      returns (reply: AuthReply)
    requires table.Valid()
    modifies table
    ensures table.Valid()
    ensures !AllGiven(b) ==> reply == AuthRefused(FieldsRequired) && table.users == old(table.users)
    ensures AllGiven(b) && EmailTaken(old(table.users), b.email.value) ==>
              reply == AuthRefused(EmailExists) && table.users == old(table.users)
    ensures AllGiven(b) && !EmailTaken(old(table.users), b.email.value) ==>
              var doc := Validate(SignupFields(b, hash(b.password.value)));
              && (doc.None? ==> reply == AuthRefused(SignupFailed) && table.users == old(table.users))
              && (doc.Some? && Clashes(old(table.users), doc.value, None) ==>
                    reply == AuthRefused(SignupFailed) && table.users == old(table.users))
              && (doc.Some? && !Clashes(old(table.users), doc.value, None) ==>
                    && old(table.nextId) !in old(table.users)
                    && table.users == old(table.users)[old(table.nextId) := doc.value]
                    && doc.value.password == hash(b.password.value)
                    && doc.value.role == "user"
                    && (!Truthy(secret) ==> reply == AuthRefused(SignupFailed))
                    && (Truthy(secret) ==>
                          reply == Authenticated(Registered, Token(UserClaims(old(table.nextId)), secret.value, "7d"),
                                                 Echo(old(table.nextId), doc.value))))
  {
    if !AllGiven(b) {
      return AuthRefused(FieldsRequired);
    }
    if EmailTaken(table.users, b.email.value) {
      return AuthRefused(EmailExists);
    }
    var hashed := hash(b.password.value);
    var fields := SignupFields(b, hashed);
    var saved := table.Save(fields);
    match saved {
      case Err(_) =>
        reply := AuthRefused(SignupFailed);
      case Ok(id) =>
        var user := table.users[id];
        match GenerateToken(id, secret) {
          case None => reply := AuthRefused(SignupFailed);
          case Some(token) => reply := Authenticated(Registered, token, Echo(id, user));
        }
    }
  }

  /** Some stored user has the email and a password hash that the comparison accepts. */
  predicate CredentialsMatch(users: map<Id, User>, email: string, password: string,
                             compare: (string, string) -> bool)
  {
    exists id :: id in users && users[id].email == email && compare(password, users[id].password)
  }

  /** POST `/login`, over the users collection (emails are unique there). An unknown
      email and a wrong password get the same reply. */
  function Login(users: map<Id, User>, b: LoginBody, compare: (string, string) -> bool,
                 secret: Option<string>): (r: AuthReply)
    requires DistinctKeys(users)
    ensures !Truthy(b.email) || !Truthy(b.password) ==> r == AuthRefused(CredentialsRequired)
    ensures Truthy(b.email) && Truthy(b.password) ==>
              (r.Authenticated? <==> CredentialsMatch(users, b.email.value, b.password.value, compare)
                                     && Truthy(secret))
    ensures Truthy(b.email) && Truthy(b.password)
              && !CredentialsMatch(users, b.email.value, b.password.value, compare) ==>
              r == AuthRefused(InvalidCredentials)
    ensures Truthy(b.email) && Truthy(b.password)
              && CredentialsMatch(users, b.email.value, b.password.value, compare) && !Truthy(secret) ==>
              r == AuthRefused(LoginFailed)
    ensures r.Authenticated? ==>
              exists id :: id in users && users[id].email == b.email.value
                && compare(b.password.value, users[id].password)
                && r == Authenticated(LoggedIn, Token(UserClaims(id), secret.value, "7d"), Echo(id, users[id]))
  {
    if !Truthy(b.email) || !Truthy(b.password) then AuthRefused(CredentialsRequired)
    else if !EmailTaken(users, b.email.value) then AuthRefused(InvalidCredentials)
    else
      var id :| id in users && users[id].email == b.email.value;
      if !compare(b.password.value, users[id].password) then AuthRefused(InvalidCredentials)
      else match GenerateToken(id, secret) {
        case None => AuthRefused(LoginFailed)
        case Some(token) => Authenticated(LoggedIn, token, Echo(id, users[id]))
      }
  }

  /** POST `/logout`: nothing is read or changed, the reply is always the same. */
  function Logout(): (r: Reply)
    ensures r.code == 200 && r.text == "Logged out successfully"
  {
    LoggedOut
  }

  /** A user that signed up can log in with the same email and password, provided the
      password comparison accepts a password against its own hash. */
  method SignupThenLogin(table: UserTable, b: SignupBody, hash: string -> string,
                         compare: (string, string) -> bool, secret: Option<string>)
      returns (signup: AuthReply, login: AuthReply)
    requires table.Valid()
    requires forall p :: compare(p, hash(p))
    requires AllGiven(b) && Truthy(secret)
    requires Validate(SignupFields(b, hash(b.password.value))).Some?
    requires !HeldByOther(table.users, b.email.value, b.rollNumber.value, None)
    modifies table
    ensures table.Valid()
    ensures signup.Authenticated? && login.Authenticated?
    ensures login.user == signup.user && login.token == signup.token
  {
    ghost var users0 := table.users;
    ghost var id := table.nextId;
    assert !EmailTaken(users0, b.email.value);
    signup := Signup(table, b, hash, secret);
    assert table.users[id].email == b.email.value;
    login := Login(table.users, LoginBody(b.email, b.password), compare, secret);
  }
}
