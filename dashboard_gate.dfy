/** The dashboard's authentication gate, `get_current_user`
    (app/api/dashboard/router.py). Every dashboard handler runs only after
    it has produced the acting user. */
module DashboardGate {
  import opened Outcomes
  import opened UserModel
  import opened Store

  const InvalidToken: Failure := Http(401, "Invalid authentication token")
  const InsufficientPrivileges: Failure := Http(403, "Insufficient privileges")

  /** The roles allowed into the dashboard. */
  predicate IsPrivileged(role: string) {
    role == SuperAdmin || role == Editor
  }

  predicate HoldsToken(u: User, token: string) {
    u.authToken == Some(token)
  }

  /** A user the dashboard may act for: an existing, privileged row. */
  ghost predicate IsPrincipal(db: Database, id: int)
    reads db
  {
    id in db.users && IsPrivileged(db.users[id].role)
  }

  /** get_current_user: the first user whose stored token equals the bearer
      credential (authentication is this lookup; the token's signature is
      never checked). No such user gives 401; a user without a privileged
      role gives 403; otherwise that user acts. */
  method GetCurrentUser(db: Database, token: string) returns (r: Result<int>)
    ensures r == Err(InvalidToken) <==> forall id | id in db.users :: !HoldsToken(db.users[id], token)
    ensures r.Err? ==> r.error == InvalidToken || r.error == InsufficientPrivileges
    ensures r.Ok? ==> IsPrincipal(db, r.value) && HoldsToken(db.users[r.value], token)
    ensures r == Err(InsufficientPrivileges) ==>
              exists id | id in db.users :: HoldsToken(db.users[id], token) && !IsPrivileged(db.users[id].role)
    ensures (forall id | id in db.users && HoldsToken(db.users[id], token) :: !IsPrivileged(db.users[id].role))
            ==> r.Err?
    ensures ((exists id | id in db.users :: HoldsToken(db.users[id], token))
             && (forall id | id in db.users && HoldsToken(db.users[id], token) :: IsPrivileged(db.users[id].role)))
            ==> r.Ok?
  {
    if id :| id in db.users && HoldsToken(db.users[id], token) {
      if !IsPrivileged(db.users[id].role) {
        return Err(InsufficientPrivileges);
      }
      return Ok(id);
    }
    return Err(InvalidToken);
  }
}
