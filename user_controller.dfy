/** The user controller: account creation behind an ordered chain of checks, and
    lookup, update and removal by id. */
module UserController {
  import opened Common
  import opened Jwt
  import opened JsText
  import opened UserModel

  const AllFieldsRequired := ErrorReply(400, "All fields are required")
  const InvalidYear := ErrorReply(400, "Invalid year")
  const InvalidSection := ErrorReply(400, "Invalid section")
  const InvalidRollNumber := ErrorReply(400, "Invalid roll number (must be 7 digits)")
  const AlreadyExists := ErrorReply(400, "Email or Roll Number already exists")
  const CreateFailed := ErrorReply(500, "Failed to create user")
  const MissingSecret := ErrorReply(500, "Server configuration error: Missing JWT_SECRET")
  const UserNotFound := ErrorReply(404, "User not found")
  const UpdateFailed := ErrorReply(500, "Failed to update user")
  const UserDeleted := MessageReply(200, "User deleted successfully")

  /** The body of a create request. */
  datatype CreateBody = CreateBody(
    name: Option<string>,
    email: Option<string>,
    password: Option<string>,
    role: Option<string>,
    year: Option<int>,
    branch: Option<string>,
    section: Option<string>,
    rollNumber: Option<string>)

  /** Replies of the create handler: an error, or 201 with a token and the new user. */
  datatype CreateReply = Refused(reply: Reply) | Created(token: Token, user: UserEcho)

  /** Replies that carry one stored user (200) or an error. */
  datatype UserReply = UserFailed(reply: Reply) | UserFound(user: User)

  /** A number is truthy unless absent or zero. */
  predicate YearGiven(year: Option<int>)
  {
    year.Some? && year.value != 0
  }

  /** `name && email && password && year && branch && section && rollNumber` */
  predicate AllGiven(b: CreateBody)
  {
    Truthy(b.name) && Truthy(b.email) && Truthy(b.password) && YearGiven(b.year)
    && Truthy(b.branch) && Truthy(b.section) && Truthy(b.rollNumber)
  }

  /** The checks made before the database is consulted, in their order: the reply of
      the first one that fails, or `None` when all pass. */
  function CheckBody(b: CreateBody): (r: Option<Reply>)
    ensures !AllGiven(b) ==> r == Some(AllFieldsRequired)
    ensures AllGiven(b) && !YearInRange(b.year.value) ==> r == Some(InvalidYear)
    ensures AllGiven(b) && YearInRange(b.year.value) && !SectionMatches(b.section.value) ==>
              r == Some(InvalidSection)
    ensures (AllGiven(b) && YearInRange(b.year.value) && SectionMatches(b.section.value)
             && !RollNumberMatches(b.rollNumber.value)) ==> r == Some(InvalidRollNumber)
    ensures r.None? <==> && AllGiven(b) && YearInRange(b.year.value)
                         && SectionMatches(b.section.value) && RollNumberMatches(b.rollNumber.value)
  {
    if !AllGiven(b) then Some(AllFieldsRequired)
    else if b.year.value < 1 || b.year.value > 4 then Some(InvalidYear)
    else if !SectionMatches(b.section.value) then Some(InvalidSection)
    else if !RollNumberMatches(b.rollNumber.value) then Some(InvalidRollNumber)
    else None
  }

  /** The paths of `new User({ name, email, password: hashed, role, year, branch,
      section, rollNumber })` as the schema sees them, with `fullName` being whatever
      the handler puts under that path. */
  function NewUserFields(b: CreateBody, hashed: string, fullName: Option<string>): (f: UserFields)
    ensures f.fullName == fullName && f.password == Some(hashed) && f.role == b.role
    ensures f.email == b.email && f.year == b.year && f.branch == b.branch
    ensures f.section == b.section && f.rollNumber == b.rollNumber
  {
    UserFields(fullName, b.email, Some(hashed), b.role, b.year, b.branch, b.section, b.rollNumber)
  }

  /** Once the checks pass, the schema can still refuse the document for two reasons
      only: a name that is empty after trimming, or a role outside the enum (a hashed
      password is never empty). */
  lemma CheckedBodySatisfiesSchema(b: CreateBody, hashed: string)
    requires CheckBody(b).None? && hashed != ""
    ensures Validate(NewUserFields(b, hashed, b.name)).Some? <==>
              Trim(b.name.value) != "" && (b.role.None? || b.role.value in Roles)
  {
  }

  /** The discrepancy between the handler and the schema: without the name under
      `fullName`, the schema refuses every document the handler builds. */
  lemma DroppedNameAlwaysRefused(b: CreateBody, hashed: string)
    ensures Validate(NewUserFields(b, hashed, None)) == None
  {
  }

  /** The create handler, for the document it builds. */
  method CreateWith(table: UserTable, b: CreateBody, hash: string -> string, secret: Option<string>,
                    fullName: Option<string>) returns (reply: CreateReply)
    requires table.Valid()
    modifies table
    ensures table.Valid()
    ensures CheckBody(b).Some? ==> reply == Refused(CheckBody(b).value) && table.users == old(table.users)
    ensures CheckBody(b).None? && HeldByOther(old(table.users), b.email.value, b.rollNumber.value, None) ==>
              reply == Refused(AlreadyExists) && table.users == old(table.users)
    ensures CheckBody(b).None? && !HeldByOther(old(table.users), b.email.value, b.rollNumber.value, None) ==>
              var doc := Validate(NewUserFields(b, hash(b.password.value), fullName));
              && (doc.None? ==> reply == Refused(CreateFailed) && table.users == old(table.users))
              && (doc.Some? ==> && table.users == old(table.users)[old(table.nextId) := doc.value]
                                && old(table.nextId) !in old(table.users))
              && (doc.Some? && !Truthy(secret) ==> reply == Refused(MissingSecret))
              && (doc.Some? && Truthy(secret) ==>
                    reply == Created(Token(UserClaims(old(table.nextId)), secret.value, "1d"),
                                     UserEcho(old(table.nextId), None, b.email.value, b.year.value,
                                              b.branch.value, b.section.value, b.rollNumber.value)))
  {
    var check := CheckBody(b);
    if check.Some? {
      return Refused(check.value);
    }
    if HeldByOther(table.users, b.email.value, b.rollNumber.value, None) {
      return Refused(AlreadyExists);
    }
    var hashed := hash(b.password.value);
    var saved := table.Save(NewUserFields(b, hashed, fullName));
    match saved {
      case Err(_) =>
        reply := Refused(CreateFailed);
      case Ok(id) =>
        match Sign(UserClaims(id), secret, "1d") {
          case None =>
            reply := Refused(MissingSecret);
          case Some(token) =>
            // `name: newUser.name` reads a path the schema does not have
            reply := Created(token, UserEcho(id, None, b.email.value, b.year.value, b.branch.value,
                                             b.section.value, b.rollNumber.value));
        }
    }
  }

  /** `createUser` as written: the body's `name` is not a schema path and is dropped,
      `fullName` is then missing, so every save fails and no user is ever created. */
  method CreateUser(table: UserTable, b: CreateBody, hash: string -> string, secret: Option<string>)
      returns (reply: CreateReply)
    requires table.Valid()
    modifies table
    ensures table.Valid()
    ensures table.users == old(table.users)
    ensures reply.Refused?
    ensures CheckBody(b).Some? ==> reply == Refused(CheckBody(b).value)
    ensures CheckBody(b).None? && HeldByOther(old(table.users), b.email.value, b.rollNumber.value, None) ==>
              reply == Refused(AlreadyExists)
    ensures CheckBody(b).None? && !HeldByOther(old(table.users), b.email.value, b.rollNumber.value, None) ==>
              reply == Refused(CreateFailed)
  {
    reply := CreateWith(table, b, hash, secret, None);
  }

  /** `createUser` with the name stored under `fullName` and nothing else changed: a
      body that passes the checks and holds a fresh email and roll number is stored
      with the hashed password, before the secret is looked at. The reply still reads
      `newUser.name`, which the schema does not have, so it echoes no name. */
  method CreateUserCorrected(table: UserTable, b: CreateBody, hash: string -> string, secret: Option<string>)
      returns (reply: CreateReply)
    requires table.Valid()
    modifies table
    ensures table.Valid()
    ensures CheckBody(b).Some? ==> reply == Refused(CheckBody(b).value) && table.users == old(table.users)
    ensures CheckBody(b).None? && HeldByOther(old(table.users), b.email.value, b.rollNumber.value, None) ==>
              reply == Refused(AlreadyExists) && table.users == old(table.users)
    ensures && CheckBody(b).None? && !HeldByOther(old(table.users), b.email.value, b.rollNumber.value, None)
            && hash(b.password.value) != ""
            && Trim(b.name.value) != "" && (b.role.None? || b.role.value in Roles) ==>
              && old(table.nextId) !in old(table.users)
              && old(table.nextId) in table.users
              && table.users == old(table.users)[old(table.nextId) := table.users[old(table.nextId)]]
              && table.users[old(table.nextId)].password == hash(b.password.value)
              && table.users[old(table.nextId)].fullName == Trim(b.name.value)
              && table.users[old(table.nextId)].email == b.email.value
              && table.users[old(table.nextId)].rollNumber == b.rollNumber.value
              && table.users == old(table.users)[old(table.nextId) :=
                                                   Validate(NewUserFields(b, hash(b.password.value), b.name)).value]
              && table.users[old(table.nextId)].year == b.year.value
              && table.users[old(table.nextId)].branch == b.branch.value
              && table.users[old(table.nextId)].section == b.section.value
              && table.users[old(table.nextId)].role == (if b.role.Some? then b.role.value else "user")
              && (!Truthy(secret) ==> reply == Refused(MissingSecret))
              && (Truthy(secret) ==>
                    reply == Created(Token(UserClaims(old(table.nextId)), secret.value, "1d"),
                                     UserEcho(old(table.nextId), None, b.email.value, b.year.value,
                                              b.branch.value, b.section.value, b.rollNumber.value)))
  {
    if CheckBody(b).None? && hash(b.password.value) != "" {
      CheckedBodySatisfiesSchema(b, hash(b.password.value));
    }
    reply := CreateWith(table, b, hash, secret, b.name);
  }

  /** `getUserById` */
  method GetUserById(table: UserTable, id: Id) returns (reply: UserReply)
    ensures id !in table.users ==> reply == UserFailed(UserNotFound)
    ensures id in table.users ==> reply == UserFound(table.users[id])
  {
    if id !in table.users {
      return UserFailed(UserNotFound);
    }
    reply := UserFound(table.users[id]);
  }

  /** `updateUser`: the given paths replace the stored ones, without validation; a
      clash with another user's email or roll number fails at the index. */
  method UpdateUser(table: UserTable, id: Id, f: UserFields) returns (reply: UserReply)
    requires table.Valid()
    modifies table
    ensures table.Valid()
    ensures id !in old(table.users) ==> reply == UserFailed(UserNotFound) && table.users == old(table.users)
    ensures id in old(table.users) && Clashes(old(table.users), Patch(old(table.users)[id], f), Some(id)) ==>
              reply == UserFailed(UpdateFailed) && table.users == old(table.users)
    ensures id in old(table.users) && !Clashes(old(table.users), Patch(old(table.users)[id], f), Some(id)) ==>
              && reply == UserFound(Patch(old(table.users)[id], f))
              && table.users == old(table.users)[id := Patch(old(table.users)[id], f)]
  {
    var r := table.FindByIdAndUpdate(id, f);
    match r {
      case Err(_) => reply := UserFailed(UpdateFailed);
      case Ok(None) => reply := UserFailed(UserNotFound);
      case Ok(Some(u)) => reply := UserFound(u);
    }
  }

  /** `deleteUser`: removes exactly that user. */
  method DeleteUser(table: UserTable, id: Id) returns (reply: Reply)
    requires table.Valid()
    modifies table
    ensures table.Valid()
    ensures id !in old(table.users) ==> reply == UserNotFound && table.users == old(table.users)
    ensures id in old(table.users) ==> reply == UserDeleted && table.users == old(table.users) - {id}
  {
    var r := table.FindByIdAndDelete(id);
    if r.None? {
      return UserNotFound;
    }
    reply := UserDeleted;
  }
}
