/** The admin controller: login by looking up the first admin with the given id, then
    comparing the password. */
module AdminController {
  import opened Common
  import opened Jwt
  import AdminRoutes

  const InvalidCredentials := MessageReply(401, "Invalid credentials.")
  const LoggedIn := "Login successful"
  const TokenExpiration := "24h"

  /** An entry of the admins file; a missing key is `None`. */
  datatype AdminRecord = AdminRecord(adminId: Option<string>, password: Option<string>)

  /** The request body; nothing checks that its fields are present. */
  datatype LoginBody = LoginBody(adminId: Option<string>, password: Option<string>)

  /** What the handler does: a 401, a 200 with the token, or no reply at all when
      signing throws for want of a secret (the exception escapes the async handler). */
  datatype Outcome = Unauthorized(reply: Reply) | Authorized(message: string, token: Token) | NoResponse

  /** `admins[i]` is the entry `admins.find(a => a.adminId === adminId)` returns. */
  predicate FirstWithId(admins: seq<AdminRecord>, adminId: Option<string>, i: int)
  {
    0 <= i < |admins| && admins[i].adminId == adminId
    && forall j :: 0 <= j < i ==> admins[j].adminId != adminId
  }

  /** `loginAdmin`, with `secret` standing for `process.env.JWT_SECRET`. An unknown id and
      a wrong password get the same 401. */
  function LoginAdmin(admins: seq<AdminRecord>, b: LoginBody, secret: Option<string>): (r: Outcome)
    ensures (forall i :: 0 <= i < |admins| ==> admins[i].adminId != b.adminId) ==>
              r == Unauthorized(InvalidCredentials)
    ensures forall i :: FirstWithId(admins, b.adminId, i) && admins[i].password != b.password ==>
              r == Unauthorized(InvalidCredentials)
    ensures forall i :: FirstWithId(admins, b.adminId, i) && admins[i].password == b.password ==>
              && (!Truthy(secret) ==> r == NoResponse)
              && (Truthy(secret) ==>
                    r == Authorized(LoggedIn, Token(AdminRoleClaims(admins[i].adminId, "admin"), secret.value,
                                                    TokenExpiration)))
    ensures !r.Unauthorized? <==> exists i :: FirstWithId(admins, b.adminId, i) && admins[i].password == b.password
  {
    match FindFirst(admins, (a: AdminRecord) => a.adminId == b.adminId) {
      case None => Unauthorized(InvalidCredentials)
      case Some(i) =>
        if admins[i].password != b.password then Unauthorized(InvalidCredentials)
        else match Sign(AdminRoleClaims(admins[i].adminId, "admin"), secret, TokenExpiration) {
          case None => NoResponse
          case Some(token) => Authorized(LoggedIn, token)
        }
    }
  }

  /** The same entries as the id/password pairs of the admin routes. */
  function AsSlots(admins: seq<AdminRecord>): (slots: seq<AdminRoutes.AdminSlot>)
    ensures |slots| == |admins|
    ensures forall i :: 0 <= i < |admins| ==>
              slots[i] == AdminRoutes.AdminSlot(admins[i].adminId, admins[i].password)
  {
    seq(|admins|, i requires 0 <= i < |admins| => AdminRoutes.AdminSlot(admins[i].adminId, admins[i].password))
  }

  /** With a duplicated id only the first entry's password is accepted here, while the
      pair search of the admin routes accepts the later entry's password too. */
  lemma DuplicateIdShadowed(admins: seq<AdminRecord>, i: nat, j: nat, secret: Option<string>)
    requires i < j < |admins| && FirstWithId(admins, admins[j].adminId, i)
    requires Truthy(admins[j].adminId) && Truthy(admins[j].password)
    requires admins[i].password != admins[j].password
    ensures LoginAdmin(admins, LoginBody(admins[j].adminId, admins[j].password), secret)
              == Unauthorized(InvalidCredentials)
    ensures AdminRoutes.Login(AsSlots(admins), AdminRoutes.LoginBody(admins[j].adminId, admins[j].password),
                              secret).Accepted?
  {
    var slots := AsSlots(admins);
    assert slots[j] == AdminRoutes.AdminSlot(admins[j].adminId, admins[j].password);
  }

  /** Nothing requires the body's fields: a body without `adminId` and `password` logs in
      as the first entry that has neither. */
  lemma MissingFieldsMatchIncompleteRecord(admins: seq<AdminRecord>, i: nat, secret: Option<string>)
    requires FirstWithId(admins, None, i) && admins[i].password == None
    requires Truthy(secret)
    ensures LoginAdmin(admins, LoginBody(None, None), secret).Authorized?
  {
  }
}
