/** Password hashing and checking, token minting and the mobile login
    endpoint (app/api/mobile/auth.py). bcrypt and JWT are the uninterpreted
    functions of a `Platform`; the signing key comes from the environment. */
module MobileAuth {
  import opened Outcomes
  import opened Utf8
  import opened Text
  import opened Foreign
  import opened UserModel
  import opened Schema
  import opened Store

  /** bcrypt reads at most 72 bytes of a password. */
  const BcryptInputLimit: nat := 72
  const Algorithm: string := "HS256"
  /** The key used when the environment has no SECRET_KEY. */
  const FallbackSecretKey: string := "your-secret-key"
  const InvalidCredentials: Failure := Http(401, "Invalid credentials")

  /** `password.encode("utf-8")[:72]`: the bytes bcrypt actually sees. */
  function PasswordBytes(password: string): (b: seq<byte>)
    ensures |b| <= BcryptInputLimit && b <= Encode(password)
  {
    Truncate(Encode(password), BcryptInputLimit)
  }

  /** verify_password: true exactly when `checkpw` accepts the truncated
      password against the stored hash; when `checkpw` raises, the answer is
      false and nothing propagates. */
  function VerifyPassword(p: Platform, plain: string, hashed: string): (ok: bool)
    ensures ok <==> p.checkpw(PasswordBytes(plain), Encode(hashed)) == Returned(true)
  {
    match p.checkpw(PasswordBytes(plain), Encode(hashed))
    case Returned(matches) => matches
    case Raised => false
  }

  /** get_password_hash: the hash of the truncated password under `salt`
      (the value `gensalt()` returned), decoded to text. Encoding the text
      again gives back exactly bcrypt's output. */
  function GetPasswordHash(p: Platform, password: string, salt: seq<byte>): (h: string)
    ensures Encode(h) == p.hashpw(PasswordBytes(password), salt)
  {
    var raw := p.hashpw(PasswordBytes(password), salt);
    EncodeDecodeAscii(raw);
    DecodeAscii(raw)
  }

  /** Passwords whose encodings agree on the first 72 bytes are
      interchangeable for verification. */
  lemma VerifyIgnoresBytesBeyondLimit(p: Platform, a: string, b: string, hashed: string)
    requires Truncate(Encode(a), BcryptInputLimit) == Truncate(Encode(b), BcryptInputLimit)
    ensures VerifyPassword(p, a, hashed) == VerifyPassword(p, b, hashed)
  {
  }

  /** In particular, two passwords that share their first 72 characters
      verify alike, whatever follows. */
  lemma VerifyIgnoresCharsBeyondLimit(p: Platform, a: string, b: string, hashed: string)
    requires |a| >= BcryptInputLimit && |b| >= BcryptInputLimit
    requires a[..BcryptInputLimit] == b[..BcryptInputLimit]
    ensures VerifyPassword(p, a, hashed) == VerifyPassword(p, b, hashed)
  {
    SameLeadingCharsSameLeadingBytes(a, b, BcryptInputLimit);
  }

  /** Hashing sees the same 72-byte prefix: such passwords get the same
      hash under the same salt. */
  lemma HashIgnoresBytesBeyondLimit(p: Platform, a: string, b: string, salt: seq<byte>)
    requires Truncate(Encode(a), BcryptInputLimit) == Truncate(Encode(b), BcryptInputLimit)
    ensures GetPasswordHash(p, a, salt) == GetPasswordHash(p, b, salt)
  {
  }

  /** Round trip: with a bcrypt whose `checkpw` accepts what `hashpw`
      produced, every password verifies against its own hash, however long. */
  lemma HashThenVerify(p: Platform, password: string, salt: seq<byte>)
    requires HashThenCheckAccepts(p) && IsBcryptSalt(salt)
    ensures VerifyPassword(p, password, GetPasswordHash(p, password, salt))
  {
    var h := GetPasswordHash(p, password, salt);
    assert Encode(h) == p.hashpw(PasswordBytes(password), salt);
  }

  /** `os.getenv("SECRET_KEY", "your-secret-key")`: the environment's value
      when the variable is set, even to "", and the fixed fallback only when
      it is unset. */
  function SecretKey(env: map<string, string>): (key: string)
    ensures "SECRET_KEY" in env ==> key == env["SECRET_KEY"]
    ensures "SECRET_KEY" !in env ==> key == "your-secret-key"
  {
    if "SECRET_KEY" in env then env["SECRET_KEY"] else FallbackSecretKey
  }

  /** create_access_token: the claims signed with HS256 under the key read
      from the environment, so with SECRET_KEY unset every token is signed
      with the publicly known fallback key. */
  function CreateAccessToken(p: Platform, env: map<string, string>, claims: Claims): (token: string)
    ensures "SECRET_KEY" in env ==> token == p.jwtEncode(claims, env["SECRET_KEY"], "HS256")
    ensures "SECRET_KEY" !in env ==> token == p.jwtEncode(claims, "your-secret-key", "HS256")
  {
    p.jwtEncode(claims, SecretKey(env), Algorithm)
  }

  /** The token depends on the environment only through SECRET_KEY: two
      environments that agree on it issue the same token for the same
      claims. */
  lemma TokenDependsOnlyOnSecretKey(p: Platform, env1: map<string, string>, env2: map<string, string>,
                                    claims: Claims)
    requires ("SECRET_KEY" in env1 <==> "SECRET_KEY" in env2)
    requires "SECRET_KEY" in env1 ==> env1["SECRET_KEY"] == env2["SECRET_KEY"]
    ensures CreateAccessToken(p, env1, claims) == CreateAccessToken(p, env2, claims)
  {
  }

  /** `{"user_id": str(user.user_id), "role": user.role}` */
  function ClaimsFor(id: int, u: User): Claims {
    Claims(IntToString(id), u.role)
  }

  /** The claims name the user unambiguously: different ids give different
      claims, whatever the roles. */
  lemma ClaimsIdentifyUser(a: int, ua: User, b: int, ub: User)
    requires ClaimsFor(a, ua) == ClaimsFor(b, ub)
    ensures a == b
  {
    IntToStringInjective(a, b);
  }

  /** authenticate_user: looks up the first user with that name and checks
      the password against that user only. */
  method AuthenticateUser(db: Database, p: Platform, userName: string, password: string) returns (r: Option<int>)
    ensures r.Some? ==> r.value in db.users && db.users[r.value].userName == userName
                        && VerifyPassword(p, password, db.users[r.value].password)
    ensures (forall id | id in db.users && db.users[id].userName == userName
               :: !VerifyPassword(p, password, db.users[id].password)) ==> r.None?
    ensures ((exists id | id in db.users :: db.users[id].userName == userName)
             && (forall id | id in db.users && db.users[id].userName == userName
                   :: VerifyPassword(p, password, db.users[id].password)))
            ==> r.Some?
  {
    if id :| id in db.users && db.users[id].userName == userName {
      if VerifyPassword(p, password, db.users[id].password) {
        return Some(id);
      }
    }
    return None;
  }

  datatype LoginResponse = LoginResponse(token: string, userId: string)

  /** A successful login of user `id`: the name matched, the password
      verified, the token signs that user's id and role, it is returned
      together with `str(id)`, and it replaces that user's stored token and
      nothing else. */
  ghost predicate LoggedIn(before: map<int, User>, after: map<int, User>, p: Platform, env: map<string, string>,
                           userName: string, password: string, id: int, response: LoginResponse)
  {
    && id in before
    && before[id].userName == userName
    && VerifyPassword(p, password, before[id].password)
    && response.token == CreateAccessToken(p, env, ClaimsFor(id, before[id]))
    && response.userId == IntToString(id)
    && after == before[id := before[id].(authToken := Some(response.token))]
  }

  /** POST /login. An unknown name and a wrong password fail alike, with the
      same 401 and no change; a success overwrites the user's token. */
  method Login(db: Database, p: Platform, env: map<string, string>, userName: string, password: string)
    returns (r: Result<LoginResponse>)
    requires db.Valid()
    modifies db
    ensures db.Valid()
    ensures r.Err? ==> r == Err(InvalidCredentials) && unchanged(db)
    ensures r.Ok? ==> exists id :: LoggedIn(old(db.users), db.users, p, env, userName, password, id, r.value)
    ensures db.plans == old(db.plans) && db.enrollments == old(db.enrollments) && db.media == old(db.media)
    ensures db.nextUserId == old(db.nextUserId) && db.nextPlanId == old(db.nextPlanId)
    ensures db.nextEnrollmentId == old(db.nextEnrollmentId) && db.nextMediaId == old(db.nextMediaId)
    ensures (forall id | id in old(db.users) && old(db.users)[id].userName == userName
               :: !VerifyPassword(p, password, old(db.users)[id].password)) ==> r.Err?
    ensures ((exists id | id in old(db.users) :: old(db.users)[id].userName == userName)
             && (forall id | id in old(db.users) && old(db.users)[id].userName == userName
                   :: VerifyPassword(p, password, old(db.users)[id].password)))
            ==> r.Ok?
  {
    if id :| id in db.users && db.users[id].userName == userName {
      var user := db.users[id];
      if !VerifyPassword(p, password, user.password) {
        return Err(InvalidCredentials);
      }
      var token := CreateAccessToken(p, env, ClaimsFor(id, user));
      var updated := user.(authToken := Some(token));
      PutUser(db.users, id, updated);
      assert EmailFree(db.users, id, user.email);
      db.users := db.users[id := updated];
      r := Ok(LoginResponse(token, IntToString(id)));
      assert LoggedIn(old(db.users), db.users, p, env, userName, password, id, r.value);
    } else {
      return Err(InvalidCredentials);
    }
  }
}
