/** The token gate in front of every purchase-request route: the token is
    the second space-separated segment of the Authorization header; a
    missing token is answered 401, a token that fails verification 403, and
    otherwise `req.userId` is set from the `sub` claim and `next` is called. */
module AuthMiddleware {
  import opened Js
  import opened Store
  import opened AuthService

  /** The second space-separated segment of the header, kept only when
      it is non-empty. The first segment (the scheme word) is never
      looked at. */
  function BearerToken(header: Option<string>): (token: Option<string>)
    ensures token.Some? ==> token.value != "" && ' ' !in token.value
    ensures token.Some? ==>
              && header.Some?
              && exists scheme, rest :: ' ' !in scheme && (rest == "" || rest[0] == ' ')
                                        && header.value == scheme + " " + token.value + rest
  {
    if header.None? then None
    else
      var parts := Split(header.value);
      if |parts| >= 2 && parts[1] != "" then
        var rest := if |parts| == 2 then "" else " " + Join(parts[2..]);
        var token := Some(parts[1]);
        assert Join(parts[1..]) == parts[1] + rest;
        assert ' ' !in parts[0] && ' ' !in parts[1];
        assert rest == "" || rest[0] == ' ';
        assert header.value == parts[0] + " " + token.value + rest;
        token
      else None
  }

  /** Conversely: whatever the scheme word, the segment after the first
      space is the token. */
  lemma BearerTokenOf(scheme: string, token: string, rest: string)
    requires ' ' !in scheme && ' ' !in token && token != ""
    requires rest == "" || rest[0] == ' '
    ensures BearerToken(Some(scheme + " " + token + rest)) == Some(token)
  {
    assert scheme + " " + token + rest == scheme + " " + (token + rest);
    SplitAtFirstSpace(scheme, token + rest);
    if rest == "" {
      assert token + rest == token;
      SplitNoSpace(token);
    } else {
      assert token + rest == token + " " + rest[1..];
      SplitAtFirstSpace(token, rest[1..]);
    }
  }

  /** A header with a first segment but an empty second one (`"Bearer"`,
      `"Bearer "`, `"Bearer  token"`) carries no token. */
  lemma NoTokenAfterScheme(scheme: string, rest: string)
    requires ' ' !in scheme
    requires rest == "" || rest[0] == ' '
    ensures BearerToken(Some(scheme)) == None
    ensures BearerToken(Some(scheme + " " + rest)) == None
  {
    SplitNoSpace(scheme);
    SplitAtFirstSpace(scheme, rest);
    if rest != "" {
      assert rest == "" + " " + rest[1..];
      SplitAtFirstSpace("", rest[1..]);
    }
  }

  /** What the gate does: send a status, or call `next` with the user id. */
  datatype Gate = Halt(status: int) | Next(userId: Num)

  /** 401 without a token; 403 when verification throws; otherwise
      `Number(payload.sub)` is the caller. */
  function Decide(header: Option<string>, secret: Option<string>, jwt: Jwt, now: int): (g: Gate)
    ensures g == Halt(401) <==> BearerToken(header).None?
    ensures g == Halt(403) <==> BearerToken(header).Some? && jwt.verify(BearerToken(header).value, secret, now).None?
    ensures g.Next? <==> BearerToken(header).Some? && jwt.verify(BearerToken(header).value, secret, now).Some?
    ensures g.Next? ==> g.userId == NumberOf(jwt.verify(BearerToken(header).value, secret, now).value.sub)
  {
    match BearerToken(header)
    case None => Halt(401)
    case Some(token) =>
      match jwt.verify(token, secret, now)
      case None => Halt(403)
      case Some(payload) => Next(NumberOf(payload.sub))
  }

  /** The request, response and `next` callback the gate works on. */
  class Exchange {
    const authorization: Option<string>
    var userId: Option<Num>
    var sent: Option<int>
    var nextCalls: nat

    constructor (authorization: Option<string>)
      ensures this.authorization == authorization
      ensures userId == None && sent == None && nextCalls == 0
    {
      this.authorization := authorization;
      userId, sent, nextCalls := None, None, 0;
    }
  }

  /** `authenticateToken`: either one status is sent and `userId` is left
      alone, or `userId` is set and `next` is called exactly once. */
  method AuthenticateToken(ex: Exchange, secret: Option<string>, jwt: Jwt, now: int) returns (g: Gate)
    modifies ex
    ensures g == Decide(ex.authorization, secret, jwt, now)
    ensures g.Halt? ==> ex.sent == Some(g.status) && ex.userId == old(ex.userId) && ex.nextCalls == old(ex.nextCalls)
    ensures g.Next? ==> ex.userId == Some(g.userId) && ex.sent == old(ex.sent) && ex.nextCalls == old(ex.nextCalls) + 1
  {
    var token := BearerToken(ex.authorization);
    if token.None? {
      ex.sent := Some(401);
      return Halt(401);
    }
    var payload := jwt.verify(token.value, secret, now);
    if payload.None? {
      ex.sent := Some(403);
      return Halt(403);
    }
    ex.userId := Some(NumberOf(payload.value.sub));
    ex.nextCalls := ex.nextCalls + 1;
    g := Next(ex.userId.value);
  }

  /** Round trip: a token issued by `login` and presented as
      `<scheme> <token>` before it expires lets the logged-in user through
      with `req.userId` equal to that user's id; from its expiry on it is
      answered 403. */
  lemma LoginThenAuthenticate(us: seq<User>, email: string, password: string, secret: string,
                              bcrypt: Bcrypt, jwt: Jwt, issued: int, scheme: string, now: int)
    requires jwt.Sound() && ' ' !in scheme
    requires Login(us, email, password, Some(secret), bcrypt, jwt, issued).Ok?
    ensures var header := Some(scheme + " " + Login(us, email, password, Some(secret), bcrypt, jwt, issued).value.accessToken);
            var u := us[FindUserByEmail(us, email).value];
            Decide(header, Some(secret), jwt, now) == if now < issued + TokenLifetime then Next(Int(u.id)) else Halt(403)
  {
    var u := us[FindUserByEmail(us, email).value];
    var c := TokenClaims(u, issued);
    var token := jwt.sign(c, secret);
    assert secret != "";
    assert scheme + " " + token + "" == scheme + " " + token;
    BearerTokenOf(scheme, token, "");
    assert jwt.verify(token, Some(secret), now) == if now < c.exp then Some(c) else None;
    NumberOfStringOf(u.id);
  }
}
