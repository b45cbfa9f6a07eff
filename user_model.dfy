/** The `users` table (app/models/user.py). The primary key `user_id` is the
    key of the table map; `created_at` and `updated_at` are left out. */
module UserModel {
  import opened Outcomes
  import opened Columns

  datatype User = User(
    userName: string,          // String(100), required, not unique
    email: string,             // String(150), required, unique
    phone: Option<string>,     // String(30), nullable
    role: string,              // String(50), required
    password: string,          // Text, required: the bcrypt hash
    authToken: Option<string>, // Text, nullable: the last issued token
    active: bool)              // Boolean, required, server default true

  const SuperAdmin: string := "super_admin"
  const Editor: string := "editor"
  const Subscriber: string := "subscriber"

  /** The column bounds of one row. */
  predicate UserValid(u: User) {
    && FitsVarchar(u.userName, 100)
    && FitsVarchar(u.email, 150)
    && (u.phone.Some? ==> FitsVarchar(u.phone.value, 30))
    && FitsVarchar(u.role, 50)
  }

  /** No user other than `except` has this email. */
  predicate EmailFree(users: map<int, User>, except: int, email: string) {
    forall j | j in users && j != except :: users[j].email != email
  }

  /** The unique constraint on `email`. */
  predicate EmailsUnique(users: map<int, User>) {
    forall a | a in users :: EmailFree(users, a, users[a].email)
  }

  predicate UsersValid(users: map<int, User>) {
    (forall id | id in users :: UserValid(users[id])) && EmailsUnique(users)
  }

  /** In a valid table an email identifies at most one user. */
  lemma EmailIdentifiesUser(users: map<int, User>, a: int, b: int)
    requires UsersValid(users) && a in users && b in users
    requires users[a].email == users[b].email
    ensures a == b
  {
    assert EmailFree(users, a, users[a].email);
  }

  /** The schema does not make `user_name` unique: a valid table may hold
      two users with the same name. */
  lemma UserNameMayRepeat()
    ensures exists users: map<int, User> :: UsersValid(users) && 1 in users && 2 in users
                                           && users[1].userName == users[2].userName
  {
    var u1 := User("sam", "a@x", None, Subscriber, "h", None, true);
    var u2 := User("sam", "b@x", None, Subscriber, "h", None, true);
    var users := map[1 := u1, 2 := u2];
    assert UsersValid(users);
  }
}
