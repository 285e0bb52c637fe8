/**
 * A symbolic model of the JSON Web Token library the service calls
 * (`JwtService.sign` and `JwtService.verify`). Signatures are not computed:
 * a token records the payload, the secret it was signed with and the
 * requested lifetime, and verification succeeds exactly when the token was
 * produced by `Sign` under the same secret.
 */
module Jwt {
  import opened Wrappers

  /** The claims of an access token: `id` is the user, `sub` the device. */
  datatype Payload = Payload(id: string, sub: string)

  /** A token as presented by a client: either one this library signed, or any other text. */
  datatype Token =
    | Signed(payload: Payload, secret: string, expiresIn: string)
    | Malformed(text: string)

  /** Why verification rejected a token. */
  datatype VerifyError = InvalidSignature | MalformedToken

  /** Verification: hands back the payload of a token signed under `secret`, and fails otherwise. */
  function Verify(token: Token, secret: string): (r: Result<Payload, VerifyError>)
    ensures r.Ok? <==> token.Signed? && token.secret == secret
    ensures r.Ok? ==> r.value == token.payload
  {
    match token
    case Malformed(_) => Err(MalformedToken)
    case Signed(payload, s, _) => if s == secret then Ok(payload) else Err(InvalidSignature)
  }

  /** Signing: the token verifies under its own secret, to its own payload, and under no other secret. */
  function Sign(payload: Payload, secret: string, expiresIn: string): (t: Token)
    ensures Verify(t, secret) == Ok(payload)
    ensures forall other :: other != secret ==> Verify(t, other).Err?
  {
    Signed(payload, secret, expiresIn)
  }
}
