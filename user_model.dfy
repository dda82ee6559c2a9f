/** The user schema and the users collection. The schema's setters (`trim`), default
    (`role`) and validators (required, enum, min/max, match) run when a new document is
    saved; the unique indices on `email` and `rollNumber` are enforced by the database
    on every write, updates included. */
module UserModel {
  import opened Common
  import opened JsText

  /** The `enum` of the `role` path. */
  const Roles: set<string> := {"admin", "user"}

  /** A stored user. */
  datatype User = User(
    fullName: string,
    email: string,
    password: string,
    role: string,
    year: int,
    branch: string,
    section: string,
    rollNumber: string)

  /** The paths handed to `new User({...})` or to `findByIdAndUpdate`, as far as the
      schema knows them; a path not given is `None`. Keys that are not schema paths
      (such as `name`) are dropped by strict mode and have no place here. */
  datatype UserFields = UserFields(
    fullName: Option<string>,
    email: Option<string>,
    password: Option<string>,
    role: Option<string>,
    year: Option<int>,
    branch: Option<string>,
    section: Option<string>,
    rollNumber: Option<string>)

  /** `match: /^[A-C]$/` */
  predicate SectionMatches(s: string)
  {
    |s| == 1 && 'A' <= s[0] <= 'C'
  }

  /** `match: /^\d{7}$/` */
  predicate RollNumberMatches(s: string)
  {
    |s| == 7 && forall i :: 0 <= i < |s| ==> IsDecimalDigit(s[i])
  }

  /** `min: 1, max: 4` */
  predicate YearInRange(year: int)
  {
    1 <= year <= 4
  }

  /** Every constraint of the schema. Required strings are non-empty; `fullName` is
      kept trimmed. */
  predicate Conforms(u: User)
  {
    && u.fullName != "" && u.fullName == Trim(u.fullName)
    && u.email != ""
    && u.password != ""
    && u.role in Roles
    && YearInRange(u.year)
    && u.branch != ""
    && SectionMatches(u.section)
    && RollNumberMatches(u.rollNumber)
  }

  /** All paths a new document needs in order to exist at all. */
  predicate Complete(f: UserFields)
  {
    f.fullName.Some? && f.email.Some? && f.password.Some? && f.year.Some?
    && f.branch.Some? && f.section.Some? && f.rollNumber.Some?
  }

  /** The document that construction builds: `fullName` goes through the `trim`
      setter and an absent `role` takes its default. */
  function Cast(f: UserFields): (u: User)
    requires Complete(f)
    ensures u.fullName == Trim(f.fullName.value)
    ensures f.role.None? ==> u.role == "user"
    ensures f.role.Some? ==> u.role == f.role.value
    ensures u.email == f.email.value && u.password == f.password.value && u.year == f.year.value
    ensures u.branch == f.branch.value && u.section == f.section.value && u.rollNumber == f.rollNumber.value
  {
    User(Trim(f.fullName.value), f.email.value, f.password.value,
         if f.role.Some? then f.role.value else "user",
         f.year.value, f.branch.value, f.section.value, f.rollNumber.value)
  }

  /** Validation of a new document: the user that would be stored, or `None` when a
      path is missing or a validator fails. */
  function Validate(f: UserFields): (r: Option<User>)
    ensures r.Some? ==> Conforms(r.value)
    ensures r.Some? <==> Complete(f) && Conforms(Cast(f))
    ensures r.Some? ==> r.value.fullName == Trim(f.fullName.value)
    ensures r.Some? ==> && r.value.email == f.email.value && r.value.password == f.password.value
                        && r.value.year == f.year.value && r.value.branch == f.branch.value
                        && r.value.section == f.section.value
                        && r.value.rollNumber == f.rollNumber.value
    ensures r.Some? && f.role.None? ==> r.value.role == "user"
    ensures r.Some? && f.role.Some? ==> r.value.role == f.role.value
  {
    if Complete(f) && Conforms(Cast(f)) then Some(Cast(f)) else None
  }

  /** A document without `fullName` is never stored. */
  lemma MissingFullNameRejected(f: UserFields)
    requires f.fullName.None?
    ensures Validate(f) == None
  {
  }

  /** Each required path, each range and each pattern is enforced. */
  lemma ConstraintsEnforced(f: UserFields)
    ensures !Truthy(f.email) || !Truthy(f.password) || !Truthy(f.branch) ==> Validate(f) == None
    ensures f.year.Some? && !YearInRange(f.year.value) ==> Validate(f) == None
    ensures f.section.Some? && !SectionMatches(f.section.value) ==> Validate(f) == None
    ensures f.rollNumber.Some? && !RollNumberMatches(f.rollNumber.value) ==> Validate(f) == None
    ensures f.role.Some? && f.role.value !in Roles ==> Validate(f) == None
    ensures f.fullName.Some? && Trim(f.fullName.value) == "" ==> Validate(f) == None
  {
  }

  /** The stored name is trimmed, and a name that already is trimmed is stored as
      given. */
  lemma TrimmedNameKept(f: UserFields)
    requires Validate(f).Some?
    ensures Validate(f).value.fullName == Trim(Validate(f).value.fullName)
    ensures Trim(f.fullName.value) == f.fullName.value ==> Validate(f).value.fullName == f.fullName.value
  {
    TrimIdempotent(f.fullName.value);
  }

  /** The unique indices: no two stored users share an email or a roll number. */
  predicate DistinctKeys(users: map<Id, User>)
  {
    forall a, b :: a in users && b in users && a != b ==>
      users[a].email != users[b].email && users[a].rollNumber != users[b].rollNumber
  }

  /** Some stored user other than `except` holds the email or the roll number: the
      query `findOne({ $or: [{ email }, { rollNumber }] })` finds a user. */
  predicate HeldByOther(users: map<Id, User>, email: string, rollNumber: string, except: Option<Id>)
  {
    exists id :: id in users && Some(id) != except
      && (users[id].email == email || users[id].rollNumber == rollNumber)
  }

  /** The unique indices would reject writing `u` beside the users other than `except`. */
  predicate Clashes(users: map<Id, User>, u: User, except: Option<Id>)
  {
    HeldByOther(users, u.email, u.rollNumber, except)
  }

  /** The query `findOne({ email })` finds a user. */
  predicate EmailTaken(users: map<Id, User>, email: string)
  {
    exists id :: id in users && users[id].email == email
  }

  /** The user part of a signup or login reply: no password. The name is sent under
      the key `name` or `fullName`, depending on the route. */
  datatype UserEcho = UserEcho(
    id: Id,
    name: Option<string>,
    email: string,
    year: int,
    branch: string,
    section: string,
    rollNumber: string)

  /** Writing a user that clashes with nobody else keeps the indices unique. */
  lemma WriteKeepsKeysDistinct(users: map<Id, User>, id: Id, u: User)
    requires DistinctKeys(users)
    requires !Clashes(users, u, Some(id))
    ensures DistinctKeys(users[id := u])
  {
    var after := users[id := u];
    forall a, b | a in after && b in after && a != b
      ensures after[a].email != after[b].email && after[a].rollNumber != after[b].rollNumber
    {
      if a == id {
        assert !(users[b].email == u.email || users[b].rollNumber == u.rollNumber);
      } else if b == id {
        assert !(users[a].email == u.email || users[a].rollNumber == u.rollNumber);
      }
    }
  }

  /** Inserting a user that clashes with nobody keeps the indices unique. */
  lemma InsertKeepsKeysDistinct(users: map<Id, User>, id: Id, u: User)
    requires DistinctKeys(users)
    requires !Clashes(users, u, None)
    ensures DistinctKeys(users[id := u])
  {
    WriteKeepsKeysDistinct(users, id, u);
  }

  /** Inserting a user that clashes with nobody under an identifier above all stored
      ones: the identifier is fresh and the indices stay unique. */
  lemma InsertKeepsTableValid(users: map<Id, User>, next: Id, u: User, after: map<Id, User>)
    requires forall id :: id in users ==> id < next
    requires DistinctKeys(users) && !Clashes(users, u, None)
    requires after == users[next := u]
    ensures next !in users
    ensures forall id :: id in after ==> id < next + 1
    ensures DistinctKeys(after)
  {
    InsertKeepsKeysDistinct(users, next, u);
  }

  /** What a `findByIdAndUpdate` writes: every path given replaces the stored one, and
      the `trim` setter still applies. Validators do not run on updates. */
  function Patch(u: User, f: UserFields): (r: User)
    ensures f.fullName.Some? ==> r.fullName == Trim(f.fullName.value)
    ensures f.fullName.None? ==> r.fullName == u.fullName
    ensures r.email == (if f.email.Some? then f.email.value else u.email)
    ensures r.password == (if f.password.Some? then f.password.value else u.password)
    ensures r.role == (if f.role.Some? then f.role.value else u.role)
    ensures r.year == (if f.year.Some? then f.year.value else u.year)
    ensures r.branch == (if f.branch.Some? then f.branch.value else u.branch)
    ensures r.section == (if f.section.Some? then f.section.value else u.section)
    ensures r.rollNumber == (if f.rollNumber.Some? then f.rollNumber.value else u.rollNumber)
  {
    User(
      if f.fullName.Some? then Trim(f.fullName.value) else u.fullName,
      if f.email.Some? then f.email.value else u.email,
      if f.password.Some? then f.password.value else u.password,
      if f.role.Some? then f.role.value else u.role,
      if f.year.Some? then f.year.value else u.year,
      if f.branch.Some? then f.branch.value else u.branch,
      if f.section.Some? then f.section.value else u.section,
      if f.rollNumber.Some? then f.rollNumber.value else u.rollNumber)
  }

  /** Validators do not run on updates: an update that sets the year to 9 is written
      as it is, and the stored user then breaks the schema. */
  lemma UpdateSkipsValidators(u: User)
    requires Conforms(u)
    ensures var f := UserFields(None, None, None, None, Some(9), None, None, None);
      Patch(u, f) == u.(year := 9) && !Conforms(Patch(u, f))
  {
  }

  /** Errors the database reports on a write. */
  datatype WriteError = ValidationFailed | DuplicateKey

  /** The users collection. */
  class UserTable {
    var users: map<Id, User>
    var nextId: Id

    ghost predicate Valid()
      reads this
    {
      (forall id :: id in users ==> id < nextId) && DistinctKeys(users)
    }

    constructor ()
      ensures Valid() && users == map[]
    {
      users := map[];
      nextId := 0;
    }

    /** `new User(fields).save()`: validation first, then the unique indices. */
    method Save(f: UserFields) returns (r: Result<Id, WriteError>)
      requires Valid()
      modifies this
      ensures Valid() && nextId >= old(nextId)
      ensures Validate(f).None? ==> r == Err(ValidationFailed) && users == old(users)
      ensures Validate(f).Some? && Clashes(old(users), Validate(f).value, None) ==>
                r == Err(DuplicateKey) && users == old(users)
      ensures Validate(f).Some? && !Clashes(old(users), Validate(f).value, None) ==>
                && r == Ok(old(nextId)) && old(nextId) !in old(users)
                && users == old(users)[old(nextId) := Validate(f).value]
    {
      var doc := Validate(f);
      if doc.None? {
        return Err(ValidationFailed);
      }
      var u := doc.value;
      if Clashes(users, u, None) {
        return Err(DuplicateKey);
      }
      InsertKeepsTableValid(users, nextId, u, users[nextId := u]);
      users := users[nextId := u];
      r := Ok(nextId);
      nextId := nextId + 1;
    }

    /** `findByIdAndUpdate(id, fields, { new: true })`: `None` when the id is absent. */
    method FindByIdAndUpdate(id: Id, f: UserFields) returns (r: Result<Option<User>, WriteError>)
      requires Valid()
      modifies this
      ensures Valid() && nextId == old(nextId)
      ensures id !in old(users) ==> r == Ok(None) && users == old(users)
      ensures id in old(users) && Clashes(old(users), Patch(old(users)[id], f), Some(id)) ==>
                r == Err(DuplicateKey) && users == old(users)
      ensures id in old(users) && !Clashes(old(users), Patch(old(users)[id], f), Some(id)) ==>
                && r == Ok(Some(Patch(old(users)[id], f)))
                && users == old(users)[id := Patch(old(users)[id], f)]
    {
      if id !in users {
        return Ok(None);
      }
      var updated := Patch(users[id], f);
      if Clashes(users, updated, Some(id)) {
        return Err(DuplicateKey);
      }
      WriteKeepsKeysDistinct(users, id, updated);
      users := users[id := updated];
      r := Ok(Some(updated));
    }

    /** `findByIdAndDelete(id)`: the removed user, or `None` when the id is absent. */
    method FindByIdAndDelete(id: Id) returns (r: Option<User>)
      requires Valid()
      modifies this
      ensures Valid() && nextId == old(nextId)
      ensures id !in old(users) ==> r == None && users == old(users)
      ensures id in old(users) ==> r == Some(old(users)[id]) && users == old(users) - {id}
    {
      if id !in users {
        return None;
      }
      r := Some(users[id]);
      users := users - {id};
    }
  }
}
