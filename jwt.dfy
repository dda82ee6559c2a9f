/** JSON Web Tokens, kept symbolic: a token records what was signed, with which
    secret and which lifetime. The signature algorithm and the clock are not modelled;
    verification is a function the callers receive as a parameter. */
module Jwt {
  import opened Common

  /** What the handlers put in a token. */
  datatype Payload =
    | UserClaims(userId: Id)                       // `{ id: user._id }`
    | AdminClaims(adminId: string)                 // `{ adminId }`
    | AdminRoleClaims(id: Option<string>, role: string)  // `{ id: admin.adminId, role: 'admin' }`

  datatype Token = Token(payload: Payload, secret: string, expiresIn: string)

  /** `jwt.sign(payload, secret, { expiresIn })`, which throws when the secret is
      `undefined` or empty. */
  function Sign(payload: Payload, secret: Option<string>, expiresIn: string): (r: Option<Token>)
    ensures r.Some? <==> Truthy(secret)
    ensures r.Some? ==> r.value.payload == payload && r.value.secret == secret.value
    ensures r.Some? ==> r.value.expiresIn == expiresIn
  {
    if Truthy(secret) then Some(Token(payload, secret.value, expiresIn)) else None
  }
}
