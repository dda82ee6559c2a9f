/** The second signup route: an email-or-roll-number duplicate check and a forced role. */
module AuthRoutes {
  import opened Common
  import opened JsText
  import opened UserModel

  const FieldsRequired := MessageReply(400, "All fields are required")
  const AlreadyExists := MessageReply(400, "Email or Roll Number already exists")
  const Registered := MessageReply(201, "User registered successfully!")
  const ServerError := MessageReply(500, "Server error")

  /** The body of a signup request on this route. */
  datatype SignupBody = SignupBody(
    name: Option<string>,
    email: Option<string>,
    year: Option<int>,
    branch: Option<string>,
    section: Option<string>,
    rollNumber: Option<string>,
    password: Option<string>)

  /** `name && email && year && branch && section && rollNumber && password` */
  predicate AllGiven(b: SignupBody)
  {
    Truthy(b.name) && Truthy(b.email) && b.year.Some? && b.year.value != 0 && Truthy(b.branch)
    && Truthy(b.section) && Truthy(b.rollNumber) && Truthy(b.password)
  }

  /** The paths of the new user as the schema sees them, with `fullName` being whatever
      the handler puts under that path; the role is always `'user'`. */
  function NewUserFields(b: SignupBody, hashed: string, fullName: Option<string>): (f: UserFields)
    ensures f.role == Some("user") && f.password == Some(hashed)
  {
    UserFields(fullName, b.email, Some(hashed), Some("user"), b.year, b.branch, b.section, b.rollNumber)
  }

  /** Whatever the body holds, a user stored through this route has the role `'user'`
      and the hash of the given password. */
  lemma StoredRoleIsUser(b: SignupBody, hashed: string, fullName: Option<string>)
    requires Validate(NewUserFields(b, hashed, fullName)).Some?
    ensures Validate(NewUserFields(b, hashed, fullName)).value.role == "user"
    ensures Validate(NewUserFields(b, hashed, fullName)).value.password == hashed
  {
  }

  /** The discrepancy between the handler and the schema: the body's `name` never
      reaches `fullName`, so the schema refuses every document the handler builds. */
  lemma DroppedNameAlwaysRefused(b: SignupBody, hashed: string)
    ensures Validate(NewUserFields(b, hashed, None)) == None
  {
  }

  /** The signup handler, for the document it builds. Any failure of the save, a
      validation error or a duplicate key alike, answers 500. */
  method SignupWith(table: UserTable, b: SignupBody, hash: string -> string, fullName: Option<string>)
      returns (reply: Reply)
    requires table.Valid()
    modifies table
    ensures table.Valid()
    ensures !AllGiven(b) ==> reply == FieldsRequired && table.users == old(table.users)
    ensures AllGiven(b) && HeldByOther(old(table.users), b.email.value, b.rollNumber.value, None) ==>
              reply == AlreadyExists && table.users == old(table.users)
    ensures AllGiven(b) && !HeldByOther(old(table.users), b.email.value, b.rollNumber.value, None) ==>
              var doc := Validate(NewUserFields(b, hash(b.password.value), fullName));
              && (doc.None? ==> reply == ServerError && table.users == old(table.users))
              && (doc.Some? ==> && reply == Registered
                                && old(table.nextId) !in old(table.users)
                                && table.users == old(table.users)[old(table.nextId) := doc.value])
  {
    if !AllGiven(b) {
      return FieldsRequired;
    }
    if HeldByOther(table.users, b.email.value, b.rollNumber.value, None) {
      return AlreadyExists;
    }
    var hashed := hash(b.password.value);
    var saved := table.Save(NewUserFields(b, hashed, fullName));
    match saved {
      case Err(_) => reply := ServerError;
      case Ok(_) => reply := Registered;
    }
  }

  /** POST `/signup` as written: `name` is not a schema path and is dropped, so every
      body that passes the checks fails on save, and no user is ever stored. */
  method Signup(table: UserTable, b: SignupBody, hash: string -> string) returns (reply: Reply)
    requires table.Valid()
    modifies table
    ensures table.Valid()
    ensures table.users == old(table.users)
    ensures reply != Registered
    ensures !AllGiven(b) ==> reply == FieldsRequired
    ensures AllGiven(b) && HeldByOther(old(table.users), b.email.value, b.rollNumber.value, None) ==>
              reply == AlreadyExists
    ensures AllGiven(b) && !HeldByOther(old(table.users), b.email.value, b.rollNumber.value, None) ==>
              reply == ServerError
  {
    reply := SignupWith(table, b, hash, None);
  }

  /** POST `/signup` with the name stored under `fullName`: a body that passes the checks
      and the schema is stored as a user with role `'user'` and the hashed password, and
      the reply is 201 without a token. */
  method SignupCorrected(table: UserTable, b: SignupBody, hash: string -> string) returns (reply: Reply)
    requires table.Valid()
    modifies table
    ensures table.Valid()
    ensures !AllGiven(b) ==> reply == FieldsRequired && table.users == old(table.users)
    ensures AllGiven(b) && HeldByOther(old(table.users), b.email.value, b.rollNumber.value, None) ==>
              reply == AlreadyExists && table.users == old(table.users)
    ensures && AllGiven(b) && !HeldByOther(old(table.users), b.email.value, b.rollNumber.value, None)
            && Validate(NewUserFields(b, hash(b.password.value), b.name)).Some? ==>
              && reply == Registered
              && old(table.nextId) !in old(table.users)
              && old(table.nextId) in table.users
              && table.users == old(table.users)[old(table.nextId) := table.users[old(table.nextId)]]
              && table.users == old(table.users)[old(table.nextId) :=
                                                   Validate(NewUserFields(b, hash(b.password.value), b.name)).value]
              && table.users[old(table.nextId)].role == "user"
              && table.users[old(table.nextId)].password == hash(b.password.value)
              && table.users[old(table.nextId)].fullName == Trim(b.name.value)
              && table.users[old(table.nextId)].email == b.email.value
              && table.users[old(table.nextId)].year == b.year.value
              && table.users[old(table.nextId)].branch == b.branch.value
              && table.users[old(table.nextId)].section == b.section.value
              && table.users[old(table.nextId)].rollNumber == b.rollNumber.value
  {
    reply := SignupWith(table, b, hash, b.name);
  }
}
