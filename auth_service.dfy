/** Registration and login. Password hashing and token signing are
    collaborators given as parameters, each with the laws the service
    relies on: a hash is accepted for the password it was made from, and a
    signed token is a non-empty string without spaces that verifies to its
    claims until they expire. */
module AuthService {
  import opened Js
  import opened Store

  /** bcrypt: `hash(password, cost, salt)`, where the salt is the random
      part of a hash, and `compare(password, hash)`. */
  datatype Bcrypt = Bcrypt(hash: (string, nat, string) -> string, compare: (string, string) -> bool)
  {
    /** A password matches every hash made from it. */
    ghost predicate Sound() {
      forall password, cost, salt :: compare(password, hash(password, cost, salt))
    }
  }

  /** The bcrypt work factor used at registration. */
  const Cost := 12

  /** The claims of an access token: `sub`, `name`, and the `iss`, `iat`
      and `exp` claims the signing options add (times in seconds). */
  datatype Claims = Claims(sub: string, name: string, iss: string, iat: int, exp: int)

  const Issuer := "buyinbuyout-api"

  /** `expiresIn: "15m"` */
  const TokenLifetime := 15 * 60

  /** jsonwebtoken: `sign(claims, secret)` and `verify(token, secret, now)`,
      where `None` from `verify` stands for the error it throws. */
  datatype Jwt = Jwt(sign: (Claims, string) -> string, verify: (string, Option<string>, int) -> Option<Claims>)
  {
    /** A token signed with a non-empty secret verifies under that secret
        to its claims until `exp`, and is rejected from then on; a signed
        token is a non-empty string without spaces. */
    ghost predicate Sound() {
      && (forall c, secret, now :: secret != "" ==>
            verify(sign(c, secret), Some(secret), now) == if now < c.exp then Some(c) else None)
      && (forall c, secret :: sign(c, secret) != "" && ' ' !in sign(c, secret))
    }
  }

  /** `select: {id, username, email, createdAt}`: never the hash. */
  datatype PublicUser = PublicUser(id: nat, username: string, email: string, createdAt: int)

  datatype AccessToken = AccessToken(accessToken: string)

  const Conflict := Error(Some(409), "Email is already in use.")
  const InvalidCredentials := Error(Some(401), "Invalid credentials.")
  const MissingSecret := Error(None, "JWT_SECRET n\U{e3}o configurado no .env")

  /** Some user already has the email or the username. */
  predicate Taken(us: seq<User>, username: string, email: string) {
    exists i :: 0 <= i < |us| && (us[i].email == email || us[i].username == username)
  }

  /** The duplicate lookup at registration: the first user whose email or
      whose username matches; none exactly when neither is taken. */
  function FindLogin(us: seq<User>, username: string, email: string): (k: Option<nat>)
    ensures k.Some? ==> k.value < |us| && (us[k.value].email == email || us[k.value].username == username)
    ensures k.Some? ==> forall j :: 0 <= j < k.value ==> us[j].email != email && us[j].username != username
    ensures k.None? <==> !Taken(us, username, email)
  {
    if us == [] then None
    else if us[0].email == email || us[0].username == username then Some(0)
    else match FindLogin(us[1..], username, email)
      case None =>
        assert forall i :: 1 <= i < |us| ==> us[i] == us[1..][i - 1];
        None
      case Some(k) => Some(k + 1)
  }

  // ---------------------------------------------------------------------
  // register

  /** `register`: 409 and no insert when any user has the same email or the
      same username; otherwise exactly one MEMBER user is inserted, whose
      stored hash is bcrypt's hash of the password at cost 12, and only its
      public fields are returned. The unique constraints on emails and
      usernames are kept. */
  function RegisterStep(t: Tables, username: string, email: string, password: string, salt: string, bcrypt: Bcrypt, now: int): (s: Step<PublicUser>)
    requires t.Valid()
    ensures s.after.Valid() && Evolves(t, s.after)
    ensures s.outcome.Thrown? <==> Taken(t.users, username, email)
    ensures s.outcome.Thrown? ==> s == Step(t, Thrown(Conflict))
    ensures s.outcome.Ok? ==>
              && s.after == t.(users := s.after.users)
              && |s.after.users| == |t.users| + 1
              && s.after.users[..|t.users|] == t.users
              && var u := s.after.users[|t.users|];
              && !HasUser(t.users, u.id)
              && u.username == username && u.email == email && u.role == MEMBER
              && u.passwordHash == bcrypt.hash(password, Cost, salt)
              && s.outcome.value == PublicUser(u.id, username, email, u.createdAt)
  {
    if FindLogin(t.users, username, email).Some? then Step(t, Thrown(Conflict))
    else
      var u := User(NextUserId(t.users), username, email, bcrypt.hash(password, Cost, salt), MEMBER, now);
      AppendUserKeepsValid(t, u);
      Step(t.(users := t.users + [u]), Ok(PublicUser(u.id, u.username, u.email, u.createdAt)))
  }

  lemma AppendUserKeepsValid(t: Tables, u: User)
    requires t.Valid() && u.id == NextUserId(t.users) && !Taken(t.users, u.username, u.email)
    ensures t.(users := t.users + [u]).Valid()
    ensures Evolves(t, t.(users := t.users + [u]))
    ensures (t.users + [u])[..|t.users|] == t.users && !HasUser(t.users, u.id)
  {
    var us := t.users + [u];
    assert us[..|t.users|] == t.users;
    if t.users != [] {
      assert forall j :: 0 <= j < |t.users| - 1 ==> t.users[j].id < t.users[|t.users| - 1].id;
    }
    forall i | 0 <= i < |t.requests| ensures HasUser(us, t.requests[i].userId) {
      var j :| 0 <= j < |t.users| && t.users[j].id == t.requests[i].userId;
      assert us[j] == t.users[j];
    }
  }

  method Register(db: Database, username: string, email: string, password: string, salt: string, bcrypt: Bcrypt, now: int)
    returns (out: Outcome<PublicUser>)
    requires db.Valid()
    modifies db
    ensures Step(db.Snapshot(), out) == RegisterStep(old(db.Snapshot()), username, email, password, salt, bcrypt, now)
    ensures db.Valid()
  {
    if FindLogin(db.users, username, email).Some? {
      return Thrown(Conflict);
    }
    var passwordHash := bcrypt.hash(password, Cost, salt);
    var user := User(NextUserId(db.users), username, email, passwordHash, MEMBER, now);
    db.users := db.users + [user];
    out := Ok(PublicUser(user.id, user.username, user.email, user.createdAt));
  }

  // ---------------------------------------------------------------------
  // login

  /** What `login` signs for a user at time `now`: the subject reads back
      as the user's id, the name is the username, and the token is issued
      by this API and lives 15 minutes. */
  function TokenClaims(u: User, now: int): (c: Claims)
    ensures NumberOf(c.sub) == Int(u.id) && c.name == u.username
    ensures c.iss == "buyinbuyout-api" && c.iat == now && c.exp - c.iat == 900
  {
    NumberOfStringOf(u.id);
    Claims(StringOf(u.id), u.username, Issuer, now, now + TokenLifetime)
  }

  /** `login`: the one 401 "Invalid credentials." both when no user has the
      email and when the password does not match; then, with a missing or
      empty secret, an error without status; otherwise a token over
      `{sub: String(id), name: username}` that expires after 15 minutes.
      It only reads the user table. */
  function Login(us: seq<User>, email: string, password: string, secret: Option<string>, bcrypt: Bcrypt, jwt: Jwt, now: int): (r: Outcome<AccessToken>)
    ensures r.Thrown? ==> r.error == InvalidCredentials || r.error == MissingSecret
    ensures r == Thrown(InvalidCredentials) <==>
              || FindUserByEmail(us, email).None?
              || !bcrypt.compare(password, us[FindUserByEmail(us, email).value].passwordHash)
    ensures r == Thrown(MissingSecret) <==>
              && FindUserByEmail(us, email).Some?
              && bcrypt.compare(password, us[FindUserByEmail(us, email).value].passwordHash)
              && !Truthy(secret)
    ensures r.Ok? ==>
              var u := us[FindUserByEmail(us, email).value];
              && Truthy(secret)
              && r.value == AccessToken(jwt.sign(TokenClaims(u, now), secret.value))
              && TokenClaims(u, now).exp == now + 900 && TokenClaims(u, now).iss == "buyinbuyout-api"
  {
    match FindUserByEmail(us, email)
    case None => Thrown(InvalidCredentials)
    case Some(k) =>
      if !bcrypt.compare(password, us[k].passwordHash) then Thrown(InvalidCredentials)
      else if !Truthy(secret) then Thrown(MissingSecret)
      else Ok(AccessToken(jwt.sign(TokenClaims(us[k], now), secret.value)))
  }

  /** A user who has just registered can log in with the same email and
      password, and the token names that user. */
  lemma RegisterThenLogin(t: Tables, username: string, email: string, password: string, salt: string,
                          bcrypt: Bcrypt, jwt: Jwt, registered: int, secret: string, now: int)
    requires t.Valid() && bcrypt.Sound() && secret != ""
    requires RegisterStep(t, username, email, password, salt, bcrypt, registered).outcome.Ok?
    ensures var s := RegisterStep(t, username, email, password, salt, bcrypt, registered);
            var u := s.after.users[|t.users|];
            && u.id == s.outcome.value.id
            && Login(s.after.users, email, password, Some(secret), bcrypt, jwt, now)
               == Ok(AccessToken(jwt.sign(Claims(StringOf(u.id), username, Issuer, now, now + TokenLifetime), secret)))
  {
    var s := RegisterStep(t, username, email, password, salt, bcrypt, registered);
    var us := s.after.users;
    assert forall j :: 0 <= j < |t.users| ==> us[j] == t.users[j];
    var k := FindUserByEmail(us, email);
    assert k == Some(|t.users|);
  }
}
