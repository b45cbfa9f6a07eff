/** The dashboard's user handlers (app/api/dashboard/router.py): list, get,
    create, partial update and hard delete. They run after `get_current_user`
    and do not use the acting user. */
module DashboardUsers {
  import opened Outcomes
  import opened Text
  import opened Utf8
  import opened Foreign
  import opened UserModel
  import opened UserSubscriptionModel
  import opened Schema
  import opened Store
  import opened MobileAuth

  const UserNotFound: Failure := Http(404, "User not found")
  const UserExists: Failure := Http(400, "Username or email already exists")
  const UserDeleted: string := "User deleted"

  /** The record a user handler returns; it has no password and no token. */
  datatype UserView = UserView(userId: int, userName: string, email: string, phone: Option<string>,
                               role: string, active: bool)

  function ViewOf(id: int, u: User): UserView {
    UserView(id, u.userName, u.email, u.phone, u.role, u.active)
  }

  /** What a user handler returns does not depend on the stored password or
      token at all. */
  lemma ViewHidesSecrets(id: int, u: User, password: string, token: Option<string>)
    ensures ViewOf(id, u) == ViewOf(id, u.(password := password, authToken := token))
  {
  }

  /** The roles list_users returns. */
  predicate ListedRole(role: string) {
    role == SuperAdmin || role == Editor || role == Subscriber
  }

  /** The filter of list_users: a listed role and, when `q` is truthy, `q`
      inside the name or the email, ignoring case. */
  predicate Listed(u: User, q: Option<string>) {
    ListedRole(u.role) && (Truthy(q) ==> ILike(u.userName, q.value) || ILike(u.email, q.value))
  }

  /** GET /users: exactly the users that pass the filter, each once, in the
      order the database yields them. */
  method ListUsers(db: Database, q: Option<string>) returns (result: seq<UserView>)
    ensures forall v | v in result :: v.userId in db.users && Listed(db.users[v.userId], q)
                                       && v == ViewOf(v.userId, db.users[v.userId])
    ensures forall id | id in db.users && Listed(db.users[id], q) :: ViewOf(id, db.users[id]) in result
    ensures forall i, j | 0 <= i < j < |result| :: result[i].userId != result[j].userId
  {
    var selected := set k | k in db.users && Listed(db.users[k], q);
    var rows := Fetch(selected);
    result := [];
    for i := 0 to |rows|
      invariant |result| == i
      invariant forall k | 0 <= k < i :: rows[k] in selected && result[k] == ViewOf(rows[k], db.users[rows[k]])
    {
      assert rows[i] in rows;
      result := result + [ViewOf(rows[i], db.users[rows[i]])];
    }
    forall id | id in db.users && Listed(db.users[id], q)
      ensures ViewOf(id, db.users[id]) in result
    {
      assert id in selected;
      var k :| 0 <= k < |rows| && rows[k] == id;
      assert result[k] == ViewOf(id, db.users[id]);
    }
  }

  /** GET /users/{user_id} */
  method GetUser(db: Database, userId: int) returns (r: Result<UserView>)
    ensures r.Err? <==> userId !in db.users
    ensures r.Err? ==> r.error == UserNotFound
    ensures r.Ok? ==> r.value == ViewOf(userId, db.users[userId])
  {
    if userId !in db.users {
      return Err(UserNotFound);
    }
    return Ok(ViewOf(userId, db.users[userId]));
  }

  datatype UserCreate = UserCreate(userName: string, email: string, phone: Option<string>, role: string,
                                   password: string, active: Option<bool>)

  /** Some user already has the requested name, or the requested email. */
  predicate NameOrEmailTaken(users: map<int, User>, userName: string, email: string) {
    exists id | id in users :: users[id].userName == userName || users[id].email == email
  }

  /** The row create_user inserts. */
  function NewUser(p: Platform, payload: UserCreate, salt: seq<byte>): User {
    User(payload.userName, payload.email, payload.phone, payload.role,
         GetPasswordHash(p, payload.password, salt), None, payload.active.GetOr(true))
  }

  /** The inserted row keeps the hash, never the plain password: it encodes
      to bcrypt's output for the password, the password verifies against it,
      the row has no token yet, and `active` defaults to true. */
  lemma NewUserStoresHash(p: Platform, payload: UserCreate, salt: seq<byte>)
    requires HashThenCheckAccepts(p) && IsBcryptSalt(salt)
    ensures var u := NewUser(p, payload, salt);
            && Encode(u.password) == p.hashpw(PasswordBytes(payload.password), salt)
            && VerifyPassword(p, payload.password, u.password)
            && u.authToken == None
            && (payload.active == None ==> u.active)
  {
    HashThenVerify(p, payload.password, salt);
  }

  /** POST /users. A taken name or email gives 400 and no change; otherwise
      one row is added under the next id, unless it breaks a column bound. */
  method CreateUser(db: Database, p: Platform, payload: UserCreate, salt: seq<byte>) returns (r: Result<UserView>)
    requires db.Valid()
    modifies db
    ensures db.Valid()
    ensures NameOrEmailTaken(old(db.users), payload.userName, payload.email) ==> r == Err(UserExists) && unchanged(db)
    ensures !NameOrEmailTaken(old(db.users), payload.userName, payload.email) && !UserValid(NewUser(p, payload, salt))
            ==> r == Err(DatabaseError) && unchanged(db)
    ensures !NameOrEmailTaken(old(db.users), payload.userName, payload.email) && UserValid(NewUser(p, payload, salt))
            ==> var id := old(db.nextUserId);
                && id !in old(db.users)
                && r == Ok(ViewOf(id, NewUser(p, payload, salt)))
                && db.users == old(db.users)[id := NewUser(p, payload, salt)]
                && db.nextUserId == id + 1
                && db.OnlyUsersChanged()
  {
    if exists id | id in db.users :: db.users[id].userName == payload.userName || db.users[id].email == payload.email {
      return Err(UserExists);
    }
    var user := NewUser(p, payload, salt);
    var id := db.nextUserId;
    var users' := db.users[id := user];
    PutUser(db.users, id, user);
    EnrollmentsUnderMoreKeys(db.enrollments, db.users.Keys, db.plans.Keys, users'.Keys, db.plans.Keys);
    if !TablesValid(users', db.plans, db.enrollments, db.media) {
      return Err(DatabaseError);
    }
    db.users := users';
    db.nextUserId := id + 1;
    r := Ok(ViewOf(id, user));
  }

  /** A partial update: each field is `None` when not sent. */
  datatype UserUpdate = UserUpdate(userName: Option<string>, email: Option<string>, phone: Option<string>,
                                   role: Option<string>, password: Option<string>, active: Option<bool>)

  /** The row update_user writes back. */
  function ApplyUserUpdate(p: Platform, u: User, payload: UserUpdate, salt: seq<byte>): User {
    u.(userName := if Truthy(payload.userName) then payload.userName.value else u.userName,
       email := if Truthy(payload.email) then payload.email.value else u.email,
       phone := if payload.phone.Some? then payload.phone else u.phone,
       role := if Truthy(payload.role) then payload.role.value else u.role,
       password := if Truthy(payload.password) then GetPasswordHash(p, payload.password.value, salt) else u.password,
       active := if payload.active.Some? then payload.active.value else u.active)
  }

  /** The rules of update_user: `user_name`, `email`, `role` and `password`
      change only when the new value is truthy, so "" keeps the old value;
      `phone` and `active` change whenever they are sent, "" included; the
      token never changes; a non-empty name, email or role is stored as
      sent; a new password verifies against the stored hash.
      Sending the same update again, which hashes the password under a fresh
      salt, leaves every field but the password as it was and stores a hash
      the same password still verifies against; without a password it
      changes nothing. */
  lemma UpdateUserRules(p: Platform, u: User, payload: UserUpdate, salt: seq<byte>)
    requires HashThenCheckAccepts(p) && IsBcryptSalt(salt)
    ensures var v := ApplyUserUpdate(p, u, payload, salt);
            && (payload.userName in {None, Some("")} ==> v.userName == u.userName)
            && (payload.email in {None, Some("")} ==> v.email == u.email)
            && (payload.role in {None, Some("")} ==> v.role == u.role)
            && (payload.password in {None, Some("")} ==> v.password == u.password)
            && (payload.phone.Some? ==> v.phone == payload.phone)
            && (payload.active.Some? ==> v.active == payload.active.value)
            && (Truthy(payload.userName) ==> v.userName == payload.userName.value)
            && (Truthy(payload.email) ==> v.email == payload.email.value)
            && (Truthy(payload.role) ==> v.role == payload.role.value)
            && (payload.phone.None? ==> v.phone == u.phone)
            && (payload.active.None? ==> v.active == u.active)
            && v.authToken == u.authToken
            && (Truthy(payload.password) ==> VerifyPassword(p, payload.password.value, v.password))
            && (forall salt' | IsBcryptSalt(salt') ::
                  && ApplyUserUpdate(p, v, payload, salt').(password := v.password) == v
                  && (Truthy(payload.password) ==>
                        VerifyPassword(p, payload.password.value, ApplyUserUpdate(p, v, payload, salt').password))
                  && (!Truthy(payload.password) ==> ApplyUserUpdate(p, v, payload, salt') == v))
  {
    if Truthy(payload.password) {
      HashThenVerify(p, payload.password.value, salt);
      forall salt' | IsBcryptSalt(salt')
        ensures VerifyPassword(p, payload.password.value, ApplyUserUpdate(p, ApplyUserUpdate(p, u, payload, salt), payload, salt').password)
      {
        HashThenVerify(p, payload.password.value, salt');
      }
    }
  }

  /** The field-by-field assignments of update_user, each guarded as in the
      handler. */
  method PatchUser(p: Platform, u: User, payload: UserUpdate, salt: seq<byte>) returns (v: User)
    ensures v == ApplyUserUpdate(p, u, payload, salt)
  {
    var userName, email, phone, role, password, active := u.userName, u.email, u.phone, u.role, u.password, u.active;
    if payload.userName.Some? && payload.userName.value != "" {
      userName := payload.userName.value;
    }
    if payload.email.Some? && payload.email.value != "" {
      email := payload.email.value;
    }
    if payload.phone.Some? {
      phone := payload.phone;
    }
    if payload.role.Some? && payload.role.value != "" {
      role := payload.role.value;
    }
    if payload.password.Some? && payload.password.value != "" {
      password := GetPasswordHash(p, payload.password.value, salt);
    }
    if payload.active.Some? {
      active := payload.active.value;
    }
    v := u.(userName := userName, email := email, phone := phone, role := role, password := password,
            active := active);
  }

  /** PUT /users/{user_id}. A missing id gives 404. Otherwise the row is
      rewritten by the update rules; uniqueness is not checked here, so a
      clash of emails or a broken column bound surfaces as a database error
      with no change. */
  method UpdateUser(db: Database, p: Platform, userId: int, payload: UserUpdate, salt: seq<byte>)
    returns (r: Result<UserView>)
    requires db.Valid()
    modifies db
    ensures db.Valid()
    ensures userId !in old(db.users) ==> r == Err(UserNotFound) && unchanged(db)
    ensures userId in old(db.users) ==>
              var v := ApplyUserUpdate(p, old(db.users)[userId], payload, salt);
              if UserValid(v) && EmailFree(old(db.users), userId, v.email) then
                && r == Ok(ViewOf(userId, v))
                && db.users == old(db.users)[userId := v]
                && db.nextUserId == old(db.nextUserId)
                && db.OnlyUsersChanged()
              else
                r == Err(DatabaseError) && unchanged(db)
  {
    if userId !in db.users {
      return Err(UserNotFound);
    }
    var u := PatchUser(p, db.users[userId], payload, salt);
    var users' := db.users[userId := u];
    PutUser(db.users, userId, u);
    assert users'.Keys == db.users.Keys;
    if !TablesValid(users', db.plans, db.enrollments, db.media) {
      return Err(DatabaseError);
    }
    db.users := users';
    r := Ok(ViewOf(userId, u));
  }

  /** DELETE /users/{user_id}: a hard delete. A missing id gives 404; a user
      still named by an enrolment cannot be removed (the foreign keys reject
      it as a database error); otherwise the row is gone. */
  method DeleteUser(db: Database, userId: int) returns (r: Result<string>)
    requires db.Valid()
    modifies db
    ensures db.Valid()
    ensures userId !in old(db.users) ==> r == Err(UserNotFound) && unchanged(db)
    ensures userId in old(db.users) && UserReferenced(old(db.enrollments), userId)
            ==> r == Err(DatabaseError) && unchanged(db)
    ensures userId in old(db.users) && !UserReferenced(old(db.enrollments), userId)
            ==> && r == Ok(UserDeleted)
                && db.users == old(db.users) - {userId}
                && db.nextUserId == old(db.nextUserId)
                && db.OnlyUsersChanged()
  {
    if userId !in db.users {
      return Err(UserNotFound);
    }
    var users' := db.users - {userId};
    RemoveUser(db.users, userId);
    EnrollmentsWithoutUser(db.enrollments, db.users.Keys, db.plans.Keys, userId);
    assert users'.Keys == db.users.Keys - {userId};
    if !TablesValid(users', db.plans, db.enrollments, db.media) {
      return Err(DatabaseError);
    }
    db.users := users';
    r := Ok(UserDeleted);
  }
}
