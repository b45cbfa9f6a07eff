/** The library calls the core relies on but whose code is not part of this
    model. Each is an uninterpreted function handed to the handlers inside a
    `Platform` value: bcrypt's `checkpw` and `hashpw`, `jwt.encode`, and
    `datetime.fromisoformat(...).date()`. */
module Foreign {
  import opened Outcomes
  import opened Utf8

  /** A calendar date, as stored in a `Date` column. */
  datatype Date = Date(year: int, month: int, day: int)

  /** What `bcrypt.checkpw` does: return a verdict, or raise (for instance
      on a malformed hash). */
  datatype Checked = Returned(matches: bool) | Raised

  /** The token payload `{"user_id": ..., "role": ...}`. */
  datatype Claims = Claims(userId: string, role: string)

  datatype Platform = Platform(
    /** `bcrypt.checkpw(password, hashed)` */
    checkpw: (seq<byte>, seq<byte>) -> Checked,
    /** `bcrypt.hashpw(password, salt)`; its output is ASCII */
    hashpw: (seq<byte>, seq<byte>) -> seq<AsciiByte>,
    /** `jwt.encode(claims, key, algorithm=...)` */
    jwtEncode: (Claims, string, string) -> string,
    /** `datetime.fromisoformat(text).date()`, or `None` where it raises */
    parseIsoDate: string -> Option<Date>)

  /** A character of bcrypt's base-64 alphabet: `.`, `/`, `A`-`Z`, `a`-`z`
      and `0`-`9`. */
  predicate IsBcryptBase64(b: byte) {
    b == '.' as int || b == '/' as int || 'A' as int <= b <= 'Z' as int || 'a' as int <= b <= 'z' as int
    || '0' as int <= b <= '9' as int
  }

  /** The shape of what `bcrypt.gensalt()` returns: `$2b$`, a two-digit
      cost, `$` and 22 characters of bcrypt's base-64 alphabet. These are the
      only salts the handlers pass to `hashpw`. */
  predicate IsBcryptSalt(salt: seq<byte>) {
    && |salt| == 29
    && salt[0] == '$' as int && salt[1] == '2' as int && salt[2] == 'b' as int && salt[3] == '$' as int
    && '0' as int <= salt[4] <= '9' as int && '0' as int <= salt[5] <= '9' as int
    && salt[6] == '$' as int
    && forall i | 7 <= i < 29 :: IsBcryptBase64(salt[i])
  }

  /** bcrypt's defining property: a hash made from a password and a salt
      `gensalt()` can return is accepted by `checkpw` for that same
      password. (`hashpw` raises on a malformed salt, which the handlers
      never pass it.) */
  ghost predicate HashThenCheckAccepts(p: Platform) {
    forall pw: seq<byte>, salt: seq<byte> | IsBcryptSalt(salt) :: p.checkpw(pw, p.hashpw(pw, salt)) == Returned(true)
  }
}
