# pbs-backend request handlers, modelled in Dafny

This project models the core of the pbs-backend service. The service is a FastAPI application in front of a relational schema of four tables:

- users;
- master subscriptions (the plans);
- user subscriptions (a user's enrolment in a plan);
- media (uploaded files).

The model covers these parts:

- **The dashboard API** (app/api/dashboard/router.py):
  - the bearer-token gate `get_current_user`;
  - list, get, create, update and delete for users, plans and enrolments;
  - list, upload and delete for media;
  - the pure string logic of uploads: sanitising the filename, naming and placing the stored file, and classifying the media type.
- **The mobile API's password and token code** (app/api/mobile/auth.py):
  - `verify_password`, `get_password_hash`, `authenticate_user` and `create_access_token`;
  - the `/login` endpoint.
- **The four SQLAlchemy models.** Each becomes a datatype with a predicate for its column bounds, plus the foreign keys and the unique email.

How the model is built:

- **The database** is the class `Store.Database`.
  - It holds one map per table, from primary key to row, and one autoincrement counter per table.
  - `Valid()` is every constraint the schema declares: the column bounds, the unique email and the three foreign keys of `user_subscriptions`.
- **Handlers** are methods over the database, as in the source, where each handler receives the session.
  - A handler builds the tables its commit would produce.
  - If those tables break a constraint, the handler returns `DatabaseError` and changes nothing. This is the unhandled `IntegrityError`/`DataError` at `db.commit()`, served as a 500 response. Upload handling can also fail with `StorageError`, an exception raised while opening or writing a file (an `OSError`, or a `ValueError` for a NUL character in the name), likewise a 500 response.
  - Otherwise the handler installs the new tables. Every contract says exactly when each outcome happens.
- **`.first()` without ORDER BY** may return any matching row, so it is a nondeterministic choice.
- **`.all()`** may return the selected rows in any order. `Store.Fetch` gives each selected row exactly once, in an unspecified order.
- **External libraries and inputs** are parameters:
  - bcrypt's `checkpw` and `hashpw`, `jwt.encode` and `datetime.fromisoformat(...).date()` are uninterpreted fields of a `Foreign.Platform` value;
  - `bcrypt.gensalt()` is a salt parameter, assumed to have the shape `gensalt()` returns; a fresh one per request;
  - `datetime.utcnow().strftime(...)` is a clock parameter giving one 20-digit string per uploaded file;
  - whether writing each uploaded file to disk succeeds is a parameter, one outcome per file;
  - `os.getenv` is an environment map.
- **Text** is modelled exactly:
  - `str.encode("utf-8")` and the `[:72]` byte truncation follow their definitions.
  - `str.replace` is the left-to-right, non-overlapping scan Python performs.
  - `str(int)` prints the decimal digits.
- **Prices** are kept in hundredths, as the `Numeric(10, 2)` column stores them.
- **The database engine** is assumed to be PostgreSQL, which the `"public"` schema in every model's `__table_args__` suggests; no source file names the engine. Every `DatabaseError` for a number beyond its column or a missing foreign key relies on an engine that enforces these, as PostgreSQL does. A string longer than its `String(n)` is a `DatabaseError` in PostgreSQL too, except when everything past the `n`-th character is spaces: that value is cut to `n` characters and stored without error, which the model does not capture (see "## Left out").

Constraints and filters as the code states them:

- Only `email` has `unique=True` (app/models/user.py:12). `user_name` (line 11) may repeat: `UserModel.UserNameMayRepeat` shows a valid table with two users of the same name.
- `list_users` lists super admins, editors and subscribers, as its code says, not only the two privileged roles its comment names.
- `list_user_subscriptions` does not exclude soft-deleted rows. `DashboardUserSubscriptions.DeletedEnrollmentsStayListed` states this.

`app/api/dashboard/auth.py`, from which the dashboard imports `get_password_hash`, is not part of this model. The dashboard's hashing is taken to be the mobile `get_password_hash`.

## Model

| member | source | states |
|---|---|---|
| Store.Database.constructor | create_tables.py:8-9 | The empty schema is valid, and every primary-key sequence starts at 1. |
| Store.Fetch | app/api/dashboard/router.py:54-56 | `.all()` yields every selected row exactly once, in no promised order. |
| DashboardGate.GetCurrentUser | app/api/dashboard/router.py:30-37 | 401 exactly when no user holds the token. 403 only when a token holder is not super_admin or editor, and always when no holder is privileged. Success returns a privileged user holding the token, and is certain when every holder is privileged. |
| DashboardUsers.ViewHidesSecrets | app/api/dashboard/router.py:58-68 | A user record returned by the handlers is the same whatever the stored password and token are. |
| DashboardUsers.ListUsers | app/api/dashboard/router.py:46-69 | Returns exactly the users whose role is super_admin, editor or subscriber and, when `q` is non-empty, whose name or email contains `q` ignoring case. Each appears once. |
| DashboardUsers.GetUser | app/api/dashboard/router.py:73-86 | 404 "User not found" exactly when the id is missing; otherwise that user's record. |
| DashboardUsers.NewUserStoresHash | app/api/dashboard/router.py:115-117 | The inserted row stores bcrypt's hash of the password, never the password. The password verifies against it, there is no token yet, and `active` defaults to true. |
| DashboardUsers.CreateUser | app/api/dashboard/router.py:111-121 | 400 with no change when the name or the email is taken. Otherwise one row is added under the next id, unless a column bound is broken, which gives a database error with no change. |
| DashboardUsers.UpdateUserRules | app/api/dashboard/router.py:129-140 | Name, email, role and password are kept when missing or empty, and a non-empty name, email or role is stored as sent. Phone and active change whenever sent and are kept when not. The token never changes and a new password verifies. Sending the update again, under a fresh salt, keeps every field but the password, stores a hash the same password verifies against, and without a password changes nothing. |
| DashboardUsers.PatchUser | app/api/dashboard/router.py:129-140 | The guarded assignments produce exactly the row the update rules define. |
| DashboardUsers.UpdateUser | app/api/dashboard/router.py:125-143 | 404 on a missing id. Otherwise only that row changes, to the updated row. Names are not re-checked, and an email clash or a bound violation is a database error with no change. |
| DashboardUsers.DeleteUser | app/api/dashboard/router.py:147-153 | 404 on a missing id. A user named by an enrolment cannot be deleted (database error, no change). Otherwise the row is removed. |
| DashboardSubscriptions.ListSubscriptions | app/api/dashboard/router.py:389-409 | Returns exactly the plans whose name contains a non-empty `q` ignoring case, or all plans, each once. |
| DashboardSubscriptions.GetSubscription | app/api/dashboard/router.py:413-426 | 404 "Subscription not found" exactly when the id is missing; otherwise that plan. |
| DashboardSubscriptions.NewPlan | app/api/dashboard/router.py:431-437 | The inserted plan carries the payload's fields, and `active` is true unless false was sent. |
| DashboardSubscriptions.CreateSubscription | app/api/dashboard/router.py:430-441 | One plan is added under the next id. A name over 150 characters, a price beyond Numeric(10, 2) or a duration beyond 32 bits is a database error with no change. |
| DashboardSubscriptions.UpdatePlanRules | app/api/dashboard/router.py:449-458 | Every field that is sent replaces the stored one and every other field is kept, so the description can be changed but not cleared. An empty update is the identity, and the update is idempotent. |
| DashboardSubscriptions.PatchPlan | app/api/dashboard/router.py:449-458 | The guarded assignments produce exactly the row the update rules define. |
| DashboardSubscriptions.UpdateSubscription | app/api/dashboard/router.py:445-461 | 404 on a missing id. Otherwise only that plan changes, to the updated row, unless a bound breaks (database error, no change). |
| DashboardSubscriptions.DeleteSubscription | app/api/dashboard/router.py:465-471 | 404 on a missing id. A plan named by an enrolment cannot be deleted (database error, no change). Otherwise the row is removed. |
| DashboardUserSubscriptions.ListUserSubscriptions | app/api/dashboard/router.py:180-202 | Returns exactly the enrolments whose payment method contains a non-empty `q` ignoring case, or all of them, deleted ones included, each once. |
| DashboardUserSubscriptions.DeletedEnrollmentsStayListed | app/api/dashboard/router.py:181-186 | Soft deletion does not change whether an enrolment is listed. |
| DashboardUserSubscriptions.GetUserSubscription | app/api/dashboard/router.py:206-222 | 404 "User subscription not found" exactly when the id is missing. A deleted enrolment is still returned. |
| DashboardUserSubscriptions.NewEnrollment | app/api/dashboard/router.py:227-235 | The inserted enrolment is added by the acting user and not deleted. Its status is the one sent, or "Active" when none is sent. |
| DashboardUserSubscriptions.CreateUserSubscription | app/api/dashboard/router.py:226-239 | One enrolment is added under the next id, which is returned. A missing user, plan or acting user, or a field over 50 characters, is a database error with no change. |
| DashboardUserSubscriptions.UpdateEnrollmentRules | app/api/dashboard/router.py:247-260 | Every field that is sent replaces the stored one, so `is_deleted: false` restores a row. The creator never changes, and the update is idempotent. |
| DashboardUserSubscriptions.PatchEnrollment | app/api/dashboard/router.py:247-260 | The guarded assignments produce exactly the row the update rules define. |
| DashboardUserSubscriptions.UpdateUserSubscription | app/api/dashboard/router.py:243-263 | 404 on a missing id. Otherwise only that row changes, unless a bound or a reference breaks (database error, no change). |
| DashboardUserSubscriptions.SoftDeleteKeepsRows | app/api/dashboard/router.py:271-273 | A soft delete keeps every id and every other row. It changes only the flag, keeps the table valid and is idempotent. |
| DashboardUserSubscriptions.DeleteUserSubscription | app/api/dashboard/router.py:267-274 | 404 on a missing id. Otherwise the row is marked deleted and stays retrievable. |
| DashboardMedia.ListMedia | app/api/dashboard/router.py:279-298 | 400 exactly when the date does not parse. Otherwise it returns exactly the subscriber's undeleted rows of that day, each once, each with url "/uploads/" plus its stored path. |
| DashboardMedia.UploadRowAt | app/api/dashboard/router.py:317-340 | File `i` gets the row with its original name and its sanitised stored path under the `i`-th timestamp. The row has the derived media type, the parsed day, the acting user and is not deleted. |
| DashboardMedia.FirstFailed | app/api/dashboard/router.py:322-342 | The count of files stored before the first that fails: every file before it is written and its row fits the columns, and at it the write raises or the row does not fit. |
| DashboardMedia.InsertMedia | app/api/dashboard/router.py:341-343 | A media row is stored under the next id exactly when it fits the columns; otherwise nothing changes. |
| DashboardMedia.CommitNext | app/api/dashboard/router.py:322-349 | One loop turn writes the next file and commits its row, appending its view. A failed write is a storage error and a row that breaks a bound a database error, both with no row added. |
| DashboardMedia.CommitEach | app/api/dashboard/router.py:316-349 | The rows of the files before the first failing one are committed under consecutive fresh ids. The views are returned in file order when none fails; otherwise the first failure's storage or database error is returned. |
| DashboardMedia.UploadMedia | app/api/dashboard/router.py:307-350 | 400 with no change on a bad date. Otherwise one row per file in order under consecutive fresh ids and `created` in the same order and length. The first file whose write raises ends with a storage error, and the first whose row breaks a bound with a database error; either way the files before it keep their rows. |
| DashboardMedia.PlacedViewAt | app/api/dashboard/router.py:344-349 | Entry `i` of `created` is the view of file `i`'s row under id start + `i`. |
| DashboardMedia.UploadedRowsAreListed | app/api/dashboard/router.py:332-347 | Each uploaded row keeps the unsanitised name, records the uploader and is listed by list_media for its subscriber and day. Its URL lies under /uploads/subscriber_<user_id>/<date>/. |
| DashboardMedia.SoftDeleteUnlists | app/api/dashboard/router.py:365-366 | A soft-deleted media row stays in the table but drops out of every listing. Other rows are untouched, and the delete is idempotent. |
| DashboardMedia.DeleteMedia | app/api/dashboard/router.py:354-367 | 404 "Media not found" on a missing id. Otherwise the row is marked deleted. |
| UploadNaming.Sanitize | app/api/dashboard/router.py:319 | The sanitised filename contains neither ".." nor "/". |
| UploadNaming.DotPassLeavesNoDoubleDot | app/api/dashboard/router.py:319 | After `replace("..", "")` no two dots are adjacent, since each run of dots shrinks to its length mod 2. |
| UploadNaming.SlashPassIsSlashToUnderscore | app/api/dashboard/router.py:319 | `replace("/", "_")` turns each "/" into "_" position by position. |
| UploadNaming.SanitizeKeepsOtherChars | app/api/dashboard/router.py:319 | Sanitising removes only dots. Every other character survives in order, with "/" as "_". |
| UploadNaming.StoredNameIsOneComponent | app/api/dashboard/router.py:320-321 | The stored name is a single safe path component: not empty, ".", or "..", and free of ".." and "/". |
| UploadNaming.StoredPathInsideUploadDir | app/api/dashboard/router.py:332 | The stored path is subscriber_<user_id>/<date>/ followed by that one safe component. |
| UploadNaming.MediaTypeOf | app/api/dashboard/router.py:325-331 | The type is "image" exactly when the lowered content type starts with "image". It is "video" exactly when it starts with "video" but not "image", and "file" otherwise. |
| UploadNaming.MediaTypeIgnoresCase | app/api/dashboard/router.py:325 | Case does not matter, and a missing content type is classified like "", as a file. |
| Text.ReplaceOneChar | app/api/dashboard/router.py:319 | Replacing one character by another keeps the length and rewrites each position. |
| Text.LowerIdempotent | app/api/dashboard/router.py:325 | Lowering twice is lowering once. |
| Text.NatToStringRoundTrip | app/api/mobile/auth.py:69 | Reading back the decimal digits of `n` gives `n`. |
| Text.IntToStringInjective | app/api/mobile/auth.py:69 | `str` is injective on integers. |
| Utf8.EncodeAppend | app/api/mobile/auth.py:30 | UTF-8 encoding distributes over concatenation. |
| Utf8.SameLeadingCharsSameLeadingBytes | app/api/mobile/auth.py:30 | Strings sharing their first `n` characters share the first `n` bytes of their encodings. |
| Utf8.EncodeDecodeAscii | app/api/mobile/auth.py:39 | Decoding bcrypt's ASCII output and encoding it again gives the same bytes. |
| MobileAuth.PasswordBytes | app/api/mobile/auth.py:30 | bcrypt sees at most 72 bytes, a prefix of the UTF-8 encoding. |
| MobileAuth.VerifyPassword | app/api/mobile/auth.py:28-34 | True exactly when checkpw accepts the truncated password, and false when checkpw raises. |
| MobileAuth.GetPasswordHash | app/api/mobile/auth.py:36-39 | The stored text encodes back to exactly bcrypt's hash of the truncated password. |
| MobileAuth.VerifyIgnoresBytesBeyondLimit | app/api/mobile/auth.py:30 | Passwords equal on their first 72 encoded bytes verify alike. |
| MobileAuth.VerifyIgnoresCharsBeyondLimit | app/api/mobile/auth.py:30 | Passwords sharing 72 leading characters verify alike. |
| MobileAuth.HashIgnoresBytesBeyondLimit | app/api/mobile/auth.py:37-38 | Passwords equal on their first 72 encoded bytes hash alike under one salt. |
| MobileAuth.HashThenVerify | app/api/mobile/auth.py:28-39 | If checkpw accepts what hashpw produced from a salt of `gensalt()`'s shape (`$2b$`, a two-digit cost, `$`, 22 base-64 characters), every password verifies against its own hash. |
| MobileAuth.SecretKey | app/api/mobile/auth.py:18 | SECRET_KEY from the environment when it is set, even to an empty value, and "your-secret-key" only when it is unset. |
| MobileAuth.CreateAccessToken | app/api/mobile/auth.py:47-48 | The token is jwt.encode of the claims with HS256 under SECRET_KEY, or under the fallback "your-secret-key" when SECRET_KEY is unset. |
| MobileAuth.TokenDependsOnlyOnSecretKey | app/api/mobile/auth.py:18 | Environments that agree on SECRET_KEY issue the same token for the same claims. |
| MobileAuth.ClaimsIdentifyUser | app/api/mobile/auth.py:69 | Token claims of different users differ. |
| MobileAuth.AuthenticateUser | app/api/mobile/auth.py:41-45 | A result is a user of that name whose password verifies. None when no user of that name verifies, and a user when every user of that name does. |
| MobileAuth.Login | app/api/mobile/auth.py:61-72 | Unknown name and wrong password give the same 401 with no change. Success returns the token of `{user_id: str(id), role}` and `str(id)`. It overwrites that user's token only, and leaves the rest of the state alone. |
| UserModel.EmailIdentifiesUser | app/models/user.py:12 | In a valid table an email belongs to at most one user. |
| UserModel.UserNameMayRepeat | app/models/user.py:11 | The schema allows two users with the same name. |
| Schema.PutUser | app/models/user.py:11-14 | Writing a user keeps the table valid exactly when its columns fit and no other user has its email. |
| Schema.EnrollmentsWithoutUser | app/models/user_subscription.py:11-18 | A user can be removed without breaking a foreign key exactly when no enrolment names them. |
| Schema.EnrollmentsWithoutPlan | app/models/user_subscription.py:12 | A plan can be removed without breaking a foreign key exactly when no enrolment names it. |
| Schema.PutEnrollment | app/models/user_subscription.py:11-18 | Writing an enrolment keeps the table valid exactly when its strings fit 50 characters and its three references exist. |
| Schema.PutPlan | app/models/subscription.py:11-14 | Writing a plan keeps the table valid exactly when it fits its columns. |
| Schema.PutMedia | app/models/media.py:10-15 | Writing a media row keeps the table valid exactly when it fits its columns. |

## Left out

- HTTP routing, dependency injection, `HTTPBearer` and pydantic validation are not modelled. An `EmailStr` that fails validation, or a body of the wrong type, is rejected with 422 before a handler runs.
- `created_at`/`updated_at` columns, `GET /ping` and `_ensure_upload_dir` are not modelled.
- The filesystem is not modelled: the bytes written, creating directories and unlinking in `delete_media`. Only the rows, the paths they record and whether each file's write raised are. `_ensure_upload_dir` is taken to succeed, and a file written before its row's commit fails stays on disk unrecorded.
- Path normalisation by `Path(...).as_posix()` is not modelled; stored paths and URLs are plain concatenation. This is exact for the paths upload_media builds: `Path` only collapses empty and "." components, and none of them can be one. The user id prints as a signed integer, and a date `fromisoformat` accepts is not empty and holds no empty or "." component. The date may still hold a "/" as the separator between date and time (`"2024-03-01/10"`), in which case `UploadDir` is two directory levels rather than one.
- `start_datetime` and `end_date` keep the text that was sent. The database's rejection of text it cannot read as a timestamp is not modelled.
- Prices are integers in hundredths. The `float` payloads, their rounding into `Numeric(10, 2)` and the `float(price)` in responses are floating point.
- PostgreSQL text columns reject the character U+0000, so a string holding "\0" fails at commit. The model's column bounds count only length and accept it.
- Columns.FitsVarchar: a string too long for its `String(n)` column whose excess is all spaces is rejected with `DatabaseError`, whereas PostgreSQL silently cuts it to `n` characters and commits. This affects DashboardUsers.CreateUser and DashboardUsers.UpdateUser (name, phone, role), DashboardSubscriptions.CreateSubscription and DashboardSubscriptions.UpdateSubscription (name), DashboardUserSubscriptions.CreateUserSubscription and DashboardUserSubscriptions.UpdateUserSubscription (payment method, status), and DashboardMedia.InsertMedia, CommitNext, CommitEach and UploadMedia (original name, stored path). For those inputs the model reports a failure where the service stores the truncated value.
- `ILIKE` wildcards (`%`, `_` inside `q`) and the backslash, which PostgreSQL treats as the escape character because `ilike` emits no ESCAPE clause, are not modelled: a `q` of `a\b` matches names containing `ab` in the database, while `Text.ILike` looks for `a\b` itself. Case folding covers ASCII letters only.
- A primary-key value consumed by a failed insert is not modelled: a failed commit leaves the sequence where it was.
- Concurrency, transactions across requests and the 32-bit overflow of the `serial` sequences are not modelled.
- `UploadFile.filename` being absent is not modelled. `str.encode` failing on lone surrogates is not modelled either, because a Dafny `char` is a Unicode scalar value.
