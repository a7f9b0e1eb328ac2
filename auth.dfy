/**
 * The authentication gate: reading the bearer token out of the
 * `Authorization` header, the `authenticateToken` middleware in front of
 * every task route, and the `/auth/verify` route, which performs the same
 * check on its own.
 */
module Auth {
  import opened Wrappers
  import opened Text
  import opened Crypto
  import opened Http

  /** JavaScript truthiness of an optional string: present and non-empty. */
  predicate Truthy(field: Option<string>) { field.Some? && field.value != "" }

  /** `authHeader && authHeader.split(" ")[1]`, kept only when truthy: the
      second space-separated field of the header. The first field (the
      scheme word) is never looked at. */
  function ExtractToken(header: Option<string>): (r: Option<string>)
    ensures r.Some? ==> r.value != "" && ' ' !in r.value
  {
    if !Truthy(header) then None
    else
      var parts := Split(header.value, ' ');
      SplitFieldsHaveNoSeparator(header.value, ' ');
      if |parts| >= 2 && parts[1] != "" then Some(parts[1]) else None
  }

  /** The header `scheme + " " + token`, possibly followed by more
      space-separated text, yields `token` whatever the scheme is. */
  lemma ExtractTokenOfHeader(scheme: string, token: string, rest: string)
    requires ' ' !in scheme && ' ' !in token
    requires rest == [] || rest[0] == ' '
    ensures ExtractToken(Some(scheme + " " + token + rest)) == if token == "" then None else Some(token)
  {
    var h := scheme + " " + token + rest;
    assert h == scheme + [' '] + (token + rest);
    SplitAfterField(scheme, ' ', token + rest);
    if rest == [] {
      assert token + rest == token;
      SplitWithoutSeparator(token, ' ');
    } else {
      assert token + rest == token + [' '] + rest[1..];
      SplitAfterField(token, ' ', rest[1..]);
    }
    assert Split(h, ' ')[1] == token;
  }

  /** A header without a space carries no token. */
  lemma ExtractTokenNeedsSpace(h: string)
    requires ' ' !in h
    ensures ExtractToken(Some(h)) == None
  {
    SplitWithoutSeparator(h, ' ');
  }

  /** The outcome of `authenticateToken`: the request goes on to the
      handler with the verified claims as `req.user`, or is answered. */
  datatype Gate = Granted(user: Claims) | Denied(response: Response)

  /** `authenticateToken`: 401 without a token, 403 when the token does not
      verify, otherwise the verified claims become the caller's identity. */
  function Authenticate(p: Provider, header: Option<string>, now: int): (g: Gate)
    ensures g == Denied(NoToken) <==> ExtractToken(header).None?
    ensures g == Denied(InvalidToken) <==> ExtractToken(header).Some? && p.verify(ExtractToken(header).value, now).None?
    ensures g.Granted? <==> ExtractToken(header).Some? && p.verify(ExtractToken(header).value, now).Some?
    ensures g.Granted? ==> p.verify(ExtractToken(header).value, now) == Some(g.user)
  {
    match ExtractToken(header)
    case None => Denied(NoToken)
    case Some(token) =>
      match p.verify(token, now)
      case None => Denied(InvalidToken)
      case Some(claims) => Granted(claims)
  }

  /** `GET /auth/verify`: the same extraction and check as the middleware,
      answering 200 with the decoded claims. It touches no table. */
  function VerifyRoute(p: Provider, header: Option<string>, now: int): (r: Response)
    ensures r == match Authenticate(p, header, now)
                 case Granted(claims) => Response(200, TokenValid("Token is valid", claims))
                 case Denied(response) => response
  {
    var token := if header.Some? && header.value != [] then
      var parts := Split(header.value, ' ');
      if |parts| >= 2 then parts[1] else []
    else [];
    if token == [] then NoToken
    else match p.verify(token, now)
      case None => InvalidToken
      case Some(decoded) => Response(200, TokenValid("Token is valid", decoded))
  }

  /** For a header `scheme + " " + token`, the gate's verdict depends on the
      token alone, never on the scheme word. */
  lemma SchemeIsNotChecked(p: Provider, s1: string, s2: string, token: string, now: int)
    requires ' ' !in s1 && ' ' !in s2 && ' ' !in token
    ensures Authenticate(p, Some(s1 + " " + token), now) == Authenticate(p, Some(s2 + " " + token), now)
    ensures Authenticate(p, Some(s1 + " " + token), now) ==
      if token == "" then Denied(NoToken)
      else match p.verify(token, now)
           case None => Denied(InvalidToken)
           case Some(claims) => Granted(claims)
  {
    ExtractTokenOfHeader(s1, token, []);
    ExtractTokenOfHeader(s2, token, []);
    assert s1 + " " + token + [] == s1 + " " + token;
    assert s2 + " " + token + [] == s2 + " " + token;
  }

  /** A token issued at `issuedAt` opens the gate, with its own claims, until
      its lifetime has passed and not after. */
  lemma SignedTokenOpensGate(p: Provider, scheme: string, claims: Claims, issuedAt: int, now: int)
    requires Sound(p) && ' ' !in scheme && issuedAt <= now
    ensures var header := Some(scheme + " " + p.sign(claims, TokenLifetime, issuedAt));
      Authenticate(p, header, now) == if now < issuedAt + TokenLifetime then Granted(claims) else Denied(InvalidToken)
  {
    var token := p.sign(claims, TokenLifetime, issuedAt);
    ExtractTokenOfHeader(scheme, token, []);
    assert scheme + " " + token + [] == scheme + " " + token;
  }
}
