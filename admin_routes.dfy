/** The admin routes: login against a fixed list of id/password pairs, the bearer-token
    middleware, and the two routes it guards. */
module AdminRoutes {
  import opened Common
  import opened Jwt
  import opened JsText

  const MissingCredentials := MessageReply(400, "Please provide admin ID and password.")
  const Verified := "Admin verified successfully."
  const InvalidCredentials := MessageReply(401, "Invalid credentials.")
  const NoToken := MessageReply(401, "No token provided. Access denied.")
  const BadToken := MessageReply(403, "Invalid or expired token.")
  const TokenExpiration := "24h"

  /** One of the five configured admins; an unset environment variable is `None`. */
  datatype AdminSlot = AdminSlot(id: Option<string>, password: Option<string>)

  /** The request body of `/login`. */
  datatype LoginBody = LoginBody(adminId: Option<string>, password: Option<string>)

  /** Replies of `/login`: an error, or 200 with the token. */
  datatype LoginReply = Rejected(reply: Reply) | Accepted(message: string, token: Token)

  /** `process.env.JWT_SECRET || 'superSecretKey'`: without a configured secret every
      admin token is signed with a key written in the source. */
  function JwtSecret(env: Option<string>): (secret: string)
    ensures secret != ""
    ensures Truthy(env) ==> secret == env.value
    ensures !Truthy(env) ==> secret == "superSecretKey"
  {
    OrElse(env, "superSecretKey")
  }

  /** `a.id === adminId && a.password === password` */
  predicate PairMatches(adminId: Option<string>, password: Option<string>, a: AdminSlot)
  {
    a.id == adminId && a.password == password
  }

  /** POST `/login`: both fields are required; the body must then equal some configured
      pair exactly. The token carries `{ adminId }` and lasts 24 hours. */
  function Login(admins: seq<AdminSlot>, b: LoginBody, env: Option<string>): (r: LoginReply)
    ensures !Truthy(b.adminId) || !Truthy(b.password) ==> r == Rejected(MissingCredentials)
    ensures Truthy(b.adminId) && Truthy(b.password) ==>
              (r.Accepted? <==> exists i :: 0 <= i < |admins| && admins[i] == AdminSlot(b.adminId, b.password))
    ensures Truthy(b.adminId) && Truthy(b.password) && !r.Accepted? ==> r == Rejected(InvalidCredentials)
    ensures r.Accepted? ==> && r.message == Verified
                            && r.token == Token(AdminClaims(b.adminId.value), JwtSecret(env), TokenExpiration)
  {
    if !Truthy(b.adminId) || !Truthy(b.password) then Rejected(MissingCredentials)
    else match FindFirst(admins, a => PairMatches(b.adminId, b.password, a)) {
      case None => Rejected(InvalidCredentials)
      case Some(_) =>
        // the secret has a fallback, so signing cannot fail here
        var token := Sign(AdminClaims(b.adminId.value), Some(JwtSecret(env)), TokenExpiration);
        Accepted(Verified, token.value)
    }
  }

  /** An unset slot never lets anyone in: the body's empty or missing fields are refused
      before the list is searched, so a successful login always names a slot whose id
      and password are both set and non-empty. */
  lemma UnsetSlotsNeverMatch(admins: seq<AdminSlot>, b: LoginBody, env: Option<string>)
    requires Login(admins, b, env).Accepted?
    ensures exists i :: 0 <= i < |admins| && Truthy(admins[i].id) && Truthy(admins[i].password)
                          && admins[i].id == b.adminId && admins[i].password == b.password
  {
    var i :| 0 <= i < |admins| && admins[i] == AdminSlot(b.adminId, b.password);
    assert Truthy(admins[i].id) && Truthy(admins[i].password);
  }

  /** `req.header('Authorization')?.split(' ')[1]`: the second space-separated segment of
      the header, `None` when the header or the segment is missing. */
  function BearerToken(header: Option<string>): (token: Option<string>)
    ensures header.None? ==> token.None?
    ensures header.Some? ==> (token.Some? <==> ' ' in header.value)
    ensures token.Some? ==> ' ' !in token.value
  {
    match header {
      case None => None
      case Some(h) =>
        var parts := Split(h, ' ');
        SplitJoin(h, ' ');
        if |parts| >= 2 then
          assert h == parts[0] + [' '] + Join(parts[1..], ' ');
          assert h[|parts[0]|] == ' ';
          Some(parts[1])
        else
          assert h == parts[0];
          None
    }
  }

  /** Whatever the segments, the token is the second one: the segment after the first
      space, up to the next space if there is one. */
  lemma BearerTokenIsSecondSegment(parts: seq<string>)
    requires |parts| >= 2 && forall i :: 0 <= i < |parts| ==> ' ' !in parts[i]
    ensures BearerToken(Some(Join(parts, ' '))) == Some(parts[1])
  {
    JoinSplit(parts, ' ');
  }

  /** Two spaces after the scheme give the empty token, which the middleware then
      treats as no token at all. */
  lemma DoubleSpaceGivesEmptyToken(scheme: string, token: string)
    requires ' ' !in scheme && ' ' !in token
    ensures BearerToken(Some(scheme + "  " + token)) == Some("")
  {
    var parts := [scheme, "", token];
    assert Join(parts[2..], ' ') == token;
    assert Join(parts[1..], ' ') == " " + token;
    assert Join(parts, ' ') == scheme + "  " + token;
    BearerTokenIsSecondSegment(parts);
  }

  /** The scheme word is not checked: `<anything> <token>` yields the token. */
  lemma BearerTokenOfAnyScheme(scheme: string, token: string)
    requires ' ' !in scheme && ' ' !in token
    ensures BearerToken(Some(scheme + " " + token)) == Some(token)
  {
    var parts := [scheme, token];
    assert Join(parts[1..], ' ') == token;
    assert Join(parts, ' ') == scheme + " " + token;
    JoinSplit(parts, ' ');
  }

  /** A header without a space carries no token. */
  lemma BearerTokenNeedsSpace(header: string)
    requires ' ' !in header
    ensures BearerToken(Some(header)) == None
  {
    JoinSplit([header], ' ');
  }

  /** What the middleware does with the request. */
  datatype Outcome = Denied(reply: Reply) | Next

  /** An incoming request: its `Authorization` header, and the `admin` field the
      middleware fills in. */
  class Request {
    const authorization: Option<string>
    var admin: Option<Payload>

    constructor (authorization: Option<string>)
      ensures this.authorization == authorization && admin == None
    {
      this.authorization := authorization;
      admin := None;
    }
  }

  /** `verifyToken`: 401 without a non-empty token, 403 when verification fails, and
      otherwise the decoded payload is attached to the request and the next handler
      runs. `verify` stands for `jwt.verify` with the given secret, expiry included. */
  method VerifyToken(req: Request, verify: (string, string) -> Option<Payload>, env: Option<string>)
      returns (outcome: Outcome)
    modifies req
    ensures !Truthy(BearerToken(req.authorization)) ==> outcome == Denied(NoToken) && req.admin == old(req.admin)
    ensures Truthy(BearerToken(req.authorization)) ==>
              var decoded := verify(BearerToken(req.authorization).value, JwtSecret(env));
              && (decoded.None? ==> outcome == Denied(BadToken) && req.admin == old(req.admin))
              && (decoded.Some? ==> outcome == Next && req.admin == decoded)
  {
    var token := BearerToken(req.authorization);
    if !Truthy(token) {
      return Denied(NoToken);
    }
    var decoded := verify(token.value, JwtSecret(env));
    if decoded.None? {
      return Denied(BadToken);
    }
    req.admin := decoded;
    outcome := Next;
  }

  /** `Welcome Admin ${req.admin.adminId}!`: a payload without `adminId` is greeted as
      `undefined`. */
  function DashboardMessage(admin: Payload): (message: string)
    ensures admin.AdminClaims? ==> message == "Welcome Admin " + admin.adminId + "!"
    ensures !admin.AdminClaims? ==> message == "Welcome Admin undefined!"
  {
    "Welcome Admin " + (if admin.AdminClaims? then admin.adminId else "undefined") + "!"
  }

  /** The admin named in a token issued by `/login` is the one greeted on the dashboard. */
  lemma DashboardGreetsLoggedInAdmin(admins: seq<AdminSlot>, b: LoginBody, env: Option<string>)
    requires Login(admins, b, env).Accepted?
    ensures DashboardMessage(Login(admins, b, env).token.payload) == "Welcome Admin " + b.adminId.value + "!"
  {
  }

  /** The mock figures of `/stats`. */
  datatype Stats = Stats(users: nat, items: nat, lost: nat, found: nat)

  /** The constant answer of `/stats`: the lost and found counts add up to the items. */
  function MockStats(): (s: Stats)
    ensures s.lost + s.found == s.items
  {
    Stats(120, 340, 85, 255)
  }
}
