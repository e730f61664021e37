/**
  The Socket.IO handshake gate (the `io.use` callback of backend/server.js).
  Every connection attempt presents an optional `auth.token`; the gate either
  admits it, attaching the decoded payload as the socket's user, or refuses it
  with one of four reason strings. The JWT library is abstract: `verify` is
  the outcome of `jwt.verify` on a given string under the server's secret.
 */
module Gate {
  import opened Wrappers
  import Fields

  /** The decoded JWT payload; `exp` is in seconds and may be absent. */
  datatype Payload = Payload(username: string, exp: Option<int>)

  /** What `jwt.verify` does with a token string: returns a payload, returns a
      falsy value, or throws an error with the given `name`. */
  datatype Verdict = Decoded(payload: Payload) | Falsy | Threw(name: string)

  /** `next()` (admitted with a user) or `next(new Error(reason))`. */
  datatype Admission = Admitted(user: Payload) | Rejected(reason: string)

  const Scheme := "Bearer "
  const AuthRequired := "Authentication required"
  const ExpiredRelogin := "Token expired. Please log in again."
  const TokenExpired := "Token expired"
  const InvalidToken := "Invalid or expired token"
  const TokenExpiredErrorName := "TokenExpiredError"

  /** The token is truthy and starts with the bearer scheme. */
  predicate Presented(token: Option<string>)
  {
    token.Some? && token.value != "" && Scheme <= token.value
  }

  /** `token.split(" ")[1]`: the text after the scheme's space, up to the next
      space or the end of the token. */
  function Credential(token: string): (jwt: string)
    requires Scheme <= token
    ensures Scheme + jwt <= token
    ensures forall i :: 0 <= i < |jwt| ==> jwt[i] != ' '
    ensures |Scheme| + |jwt| == |token| || token[|Scheme| + |jwt|] == ' '
  {
    var rest := token[|Scheme|..];
    assert token == "Bearer" + [' '] + rest;
    Fields.SplitCons("Bearer", rest, ' ');
    Fields.Split(token, ' ')[1]
  }

  /** The explicit expiry test `Date.now() >= decoded.exp * 1000`; with no
      `exp` the product is NaN and the comparison is false. */
  predicate Expired(p: Payload, now: int)
  {
    p.exp.Some? && now >= p.exp.value * 1000
  }

  /** The verdict of the verifier on the credential of a presented token. */
  function Consulted(token: Option<string>, verify: string -> Verdict): Verdict
    requires Presented(token)
  {
    verify(Credential(token.value))
  }

  /** The admission decision for a handshake token at time `now` (milliseconds). */
  function Authenticate(token: Option<string>, now: int, verify: string -> Verdict): (a: Admission)
    ensures a.Admitted? <==>
      Presented(token) && Consulted(token, verify).Decoded? && !Expired(Consulted(token, verify).payload, now)
    ensures a.Admitted? ==> Consulted(token, verify) == Decoded(a.user)
    ensures a == Rejected(AuthRequired) <==> !Presented(token) || Consulted(token, verify) == Falsy
    ensures a == Rejected(TokenExpired) <==>
      Presented(token) && Consulted(token, verify) == Threw(TokenExpiredErrorName)
    ensures a == Rejected(InvalidToken) <==>
      Presented(token) && Consulted(token, verify).Threw? && Consulted(token, verify).name != TokenExpiredErrorName
    ensures a == Rejected(ExpiredRelogin) <==>
      Presented(token) && Consulted(token, verify).Decoded? && Expired(Consulted(token, verify).payload, now)
    ensures a.Rejected? ==> a.reason in {AuthRequired, TokenExpired, InvalidToken, ExpiredRelogin}
  {
    if !Presented(token) then Rejected(AuthRequired)
    else
      match verify(Credential(token.value))
      case Threw(name) =>
        if name == TokenExpiredErrorName then Rejected(TokenExpired) else Rejected(InvalidToken)
      case Falsy => Rejected(AuthRequired)
      case Decoded(p) => if Expired(p, now) then Rejected(ExpiredRelogin) else Admitted(p)
  }

  /** Without a bearer token the verifier is never consulted: the decision is
      the same whatever it would have said. */
  lemma VerifierNotConsulted(token: Option<string>, now: int, v1: string -> Verdict, v2: string -> Verdict)
    requires !Presented(token)
    ensures Authenticate(token, now, v1) == Authenticate(token, now, v2) == Rejected(AuthRequired)
  {
  }

  /** Only the verifier's verdict on the credential field matters. */
  lemma OnlyCredentialConsulted(token: Option<string>, now: int, v1: string -> Verdict, v2: string -> Verdict)
    requires Presented(token)
    requires v1(Credential(token.value)) == v2(Credential(token.value))
    ensures Authenticate(token, now, v1) == Authenticate(token, now, v2)
  {
  }

  /** A space-free word after the scheme, followed by a space or by nothing,
      is the credential, whatever comes after that space. */
  lemma CredentialOfWord(a: string, b: string)
    requires ' ' !in a
    requires b == [] || b[0] == ' '
    ensures Credential(Scheme + a + b) == a
  {
    var t := Scheme + a + b;
    var j := Credential(t);
    assert j == t[|Scheme|..|Scheme| + |a|] == a;
  }

  /** The credential stops at the next space: `"Bearer abc def"` is verified as `"abc"`. */
  lemma CredentialStopsAtSpace()
    ensures Credential("Bearer abc def") == "abc"
  {
    assert "Bearer abc def" == Scheme + "abc" + " def";
    CredentialOfWord("abc", " def");
  }

  /** A bare scheme is verified as the empty string. */
  lemma CredentialOfBareScheme()
    ensures Credential("Bearer ") == ""
  {
    assert "Bearer " == Scheme + "" + "";
    CredentialOfWord("", "");
  }

  /** A second space right after the scheme gives the empty credential. */
  lemma CredentialOfDoubleSpace()
    ensures Credential("Bearer  abc") == ""
  {
    assert "Bearer  abc" == Scheme + "" + " abc";
    CredentialOfWord("", " abc");
  }

  /** `jwt.verify` itself refuses a token whose `exp` is not after
      `floor(now / 1000)`. When it did so on the same clock reading, the
      explicit expiry test cannot reject a token the verifier accepted. */
  lemma ExplicitExpiryRedundant(token: Option<string>, now: int, verify: string -> Verdict)
    requires Presented(token) && Consulted(token, verify).Decoded?
    requires Consulted(token, verify).payload.exp.Some? ==> now / 1000 < Consulted(token, verify).payload.exp.value
    ensures Authenticate(token, now, verify) == Admitted(Consulted(token, verify).payload)
  {
  }

}
