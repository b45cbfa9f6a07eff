/** The dashboard's enrolment handlers (app/api/dashboard/router.py): list,
    get, create, partial update and soft delete of `user_subscriptions`
    rows. A soft-deleted enrolment stays in the table and is still listed
    and returned; only its `is_deleted` flag tells it apart. */
module DashboardUserSubscriptions {
  import opened Outcomes
  import opened Text
  import opened UserSubscriptionModel
  import opened Schema
  import opened Store

  const EnrollmentNotFound: Failure := Http(404, "User subscription not found")
  const EnrollmentDeleted: string := "User subscription marked deleted"

  /** The record list_user_subscriptions and get_user_subscription return. */
  datatype EnrollmentView = EnrollmentView(id: int, userId: int, subscriptionId: int, startDatetime: string,
                                           endDate: string, paymentMethod: string, isDeleted: bool,
                                           status: string, addedBy: int)

  function EnrollmentViewOf(id: int, e: UserSubscription): EnrollmentView {
    EnrollmentView(id, e.userId, e.subscriptionId, e.startDatetime, e.endDate, e.paymentMethod, e.isDeleted,
                   e.status, e.addedBy)
  }

  /** The filter of list_user_subscriptions: when `q` is truthy, `q` inside
      the payment method, ignoring case. Deleted rows are not excluded. */
  predicate EnrollmentListed(e: UserSubscription, q: Option<string>) {
    Truthy(q) ==> ILike(e.paymentMethod, q.value)
  }

  /** GET /user-subscriptions: exactly the enrolments that pass the filter,
      each once, in the order the database yields them. */
  method ListUserSubscriptions(db: Database, q: Option<string>) returns (result: seq<EnrollmentView>)
    ensures forall v | v in result :: v.id in db.enrollments && EnrollmentListed(db.enrollments[v.id], q)
                                       && v == EnrollmentViewOf(v.id, db.enrollments[v.id])
    ensures forall id | id in db.enrollments && EnrollmentListed(db.enrollments[id], q)
              :: EnrollmentViewOf(id, db.enrollments[id]) in result
    ensures forall i, j | 0 <= i < j < |result| :: result[i].id != result[j].id
  {
    var selected := set k | k in db.enrollments && EnrollmentListed(db.enrollments[k], q);
    var rows := Fetch(selected);
    result := [];
    for i := 0 to |rows|
      invariant |result| == i
      invariant forall k | 0 <= k < i :: rows[k] in selected
                                        && result[k] == EnrollmentViewOf(rows[k], db.enrollments[rows[k]])
    {
      assert rows[i] in rows;
      result := result + [EnrollmentViewOf(rows[i], db.enrollments[rows[i]])];
    }
    forall id | id in db.enrollments && EnrollmentListed(db.enrollments[id], q)
      ensures EnrollmentViewOf(id, db.enrollments[id]) in result
    {
      assert id in selected;
      var k :| 0 <= k < |rows| && rows[k] == id;
      assert result[k] == EnrollmentViewOf(id, db.enrollments[id]);
    }
  }

  /** The listing does not look at the deletion flag: a soft-deleted
      enrolment is listed exactly when it was listed before. */
  lemma DeletedEnrollmentsStayListed(e: UserSubscription, q: Option<string>)
    ensures EnrollmentListed(e.(isDeleted := true), q) <==> EnrollmentListed(e, q)
  {
  }

  /** GET /user-subscriptions/{sub_id}, deleted or not. */
  method GetUserSubscription(db: Database, subId: int) returns (r: Result<EnrollmentView>)
    ensures r.Err? <==> subId !in db.enrollments
    ensures r.Err? ==> r.error == EnrollmentNotFound
    ensures r.Ok? ==> r.value == EnrollmentViewOf(subId, db.enrollments[subId])
  {
    if subId !in db.enrollments {
      return Err(EnrollmentNotFound);
    }
    return Ok(EnrollmentViewOf(subId, db.enrollments[subId]));
  }

  datatype EnrollmentCreate = EnrollmentCreate(userId: int, subscriptionId: int, startDatetime: string,
                                               endDate: string, paymentMethod: string, status: Option<string>)

  /** The row create_user_subscription inserts for acting user `actor`. */
  function NewEnrollment(payload: EnrollmentCreate, actor: int): (e: UserSubscription)
    ensures e.addedBy == actor && !e.isDeleted
    ensures e.status == if payload.status.Some? then payload.status.value else DefaultStatus
    ensures e.userId == payload.userId && e.subscriptionId == payload.subscriptionId
    ensures e.paymentMethod == payload.paymentMethod
  {
    UserSubscription(payload.userId, payload.subscriptionId, payload.startDatetime, payload.endDate,
                     payload.paymentMethod, false, payload.status.GetOr(DefaultStatus), actor)
  }

  /** POST /user-subscriptions: one row under the next id, recorded as added
      by the acting user. Neither the user nor the plan is looked up first:
      a reference to a missing row, like a payment method or status over 50
      characters, is a database error with no change. */
  method CreateUserSubscription(db: Database, payload: EnrollmentCreate, actor: int) returns (r: Result<int>)
    requires db.Valid()
    modifies db
    ensures db.Valid()
    ensures var e := NewEnrollment(payload, actor);
            !(EnrollmentValid(e) && References(e, old(db.users).Keys, old(db.plans).Keys))
            ==> r == Err(DatabaseError) && unchanged(db)
    ensures var e := NewEnrollment(payload, actor);
            EnrollmentValid(e) && References(e, old(db.users).Keys, old(db.plans).Keys)
            ==> var id := old(db.nextEnrollmentId);
                && id !in old(db.enrollments)
                && r == Ok(id)
                && db.enrollments == old(db.enrollments)[id := e]
                && db.nextEnrollmentId == id + 1
                && db.OnlyEnrollmentsChanged()
  {
    var e := NewEnrollment(payload, actor);
    var id := db.nextEnrollmentId;
    var enrollments' := db.enrollments[id := e];
    PutEnrollment(db.enrollments, db.users.Keys, db.plans.Keys, id, e);
    if !TablesValid(db.users, db.plans, enrollments', db.media) {
      return Err(DatabaseError);
    }
    db.enrollments := enrollments';
    db.nextEnrollmentId := id + 1;
    r := Ok(id);
  }

  /** A partial update: each field is `None` when not sent. */
  datatype EnrollmentUpdate = EnrollmentUpdate(userId: Option<int>, subscriptionId: Option<int>,
                                               startDatetime: Option<string>, endDate: Option<string>,
                                               paymentMethod: Option<string>, status: Option<string>,
                                               isDeleted: Option<bool>)

  /** The row update_user_subscription writes back. */
  function ApplyEnrollmentUpdate(e: UserSubscription, payload: EnrollmentUpdate): UserSubscription {
    e.(userId := payload.userId.GetOr(e.userId),
       subscriptionId := payload.subscriptionId.GetOr(e.subscriptionId),
       startDatetime := payload.startDatetime.GetOr(e.startDatetime),
       endDate := payload.endDate.GetOr(e.endDate),
       paymentMethod := payload.paymentMethod.GetOr(e.paymentMethod),
       status := payload.status.GetOr(e.status),
       isDeleted := payload.isDeleted.GetOr(e.isDeleted))
  }

  /** The rules of update_user_subscription: every field that is sent
      replaces the stored one, so `is_deleted: false` restores a deleted
      enrolment; the creator is never changed; every field not sent is kept;
      and applying the same update twice is applying it once. */
  lemma UpdateEnrollmentRules(e: UserSubscription, payload: EnrollmentUpdate)
    ensures var f := ApplyEnrollmentUpdate(e, payload);
            && f.addedBy == e.addedBy
            && (payload.userId.Some? ==> f.userId == payload.userId.value)
            && (payload.userId.None? ==> f.userId == e.userId)
            && (payload.subscriptionId.Some? ==> f.subscriptionId == payload.subscriptionId.value)
            && (payload.subscriptionId.None? ==> f.subscriptionId == e.subscriptionId)
            && (payload.startDatetime.Some? ==> f.startDatetime == payload.startDatetime.value)
            && (payload.startDatetime.None? ==> f.startDatetime == e.startDatetime)
            && (payload.endDate.Some? ==> f.endDate == payload.endDate.value)
            && (payload.endDate.None? ==> f.endDate == e.endDate)
            && (payload.paymentMethod.Some? ==> f.paymentMethod == payload.paymentMethod.value)
            && (payload.paymentMethod.None? ==> f.paymentMethod == e.paymentMethod)
            && (payload.status.Some? ==> f.status == payload.status.value)
            && (payload.status.None? ==> f.status == e.status)
            && (payload.isDeleted.Some? ==> f.isDeleted == payload.isDeleted.value)
            && (payload.isDeleted.None? ==> f.isDeleted == e.isDeleted)
            && ApplyEnrollmentUpdate(f, payload) == f
  {
  }

  /** The field-by-field assignments of update_user_subscription, each
      guarded by `is not None` as in the handler. */
  method PatchEnrollment(e: UserSubscription, payload: EnrollmentUpdate) returns (f: UserSubscription)
    ensures f == ApplyEnrollmentUpdate(e, payload)
  {
    var userId, subscriptionId, startDatetime, endDate := e.userId, e.subscriptionId, e.startDatetime, e.endDate;
    var paymentMethod, status, isDeleted := e.paymentMethod, e.status, e.isDeleted;
    if payload.userId.Some? {
      userId := payload.userId.value;
    }
    if payload.subscriptionId.Some? {
      subscriptionId := payload.subscriptionId.value;
    }
    if payload.startDatetime.Some? {
      startDatetime := payload.startDatetime.value;
    }
    if payload.endDate.Some? {
      endDate := payload.endDate.value;
    }
    if payload.paymentMethod.Some? {
      paymentMethod := payload.paymentMethod.value;
    }
    if payload.status.Some? {
      status := payload.status.value;
    }
    if payload.isDeleted.Some? {
      isDeleted := payload.isDeleted.value;
    }
    f := e.(userId := userId, subscriptionId := subscriptionId, startDatetime := startDatetime, endDate := endDate,
            paymentMethod := paymentMethod, status := status, isDeleted := isDeleted);
  }

  /** PUT /user-subscriptions/{sub_id}. A missing id gives 404; otherwise the
      row is rewritten by the update rules, unless the result breaks a
      column bound or names a missing user or plan, which is a database
      error with no change. */
  method UpdateUserSubscription(db: Database, subId: int, payload: EnrollmentUpdate) returns (r: Result<int>)
    requires db.Valid()
    modifies db
    ensures db.Valid()
    ensures subId !in old(db.enrollments) ==> r == Err(EnrollmentNotFound) && unchanged(db)
    ensures subId in old(db.enrollments) ==>
              var f := ApplyEnrollmentUpdate(old(db.enrollments)[subId], payload);
              if EnrollmentValid(f) && References(f, old(db.users).Keys, old(db.plans).Keys) then
                && r == Ok(subId)
                && db.enrollments == old(db.enrollments)[subId := f]
                && db.nextEnrollmentId == old(db.nextEnrollmentId)
                && db.OnlyEnrollmentsChanged()
              else
                r == Err(DatabaseError) && unchanged(db)
  {
    if subId !in db.enrollments {
      return Err(EnrollmentNotFound);
    }
    var e := PatchEnrollment(db.enrollments[subId], payload);
    var enrollments' := db.enrollments[subId := e];
    PutEnrollment(db.enrollments, db.users.Keys, db.plans.Keys, subId, e);
    if !TablesValid(db.users, db.plans, enrollments', db.media) {
      return Err(DatabaseError);
    }
    db.enrollments := enrollments';
    r := Ok(subId);
  }

  /** The table after enrolment `id` is soft-deleted. */
  function MarkEnrollmentDeleted(enrollments: map<int, UserSubscription>, id: int): map<int, UserSubscription>
    requires id in enrollments
  {
    enrollments[id := enrollments[id].(isDeleted := true)]
  }

  /** A soft delete keeps every row: the same ids, the deleted row changed
      only in its flag, every other row untouched, the foreign keys and
      column bounds still met; and deleting again changes nothing. */
  lemma SoftDeleteKeepsRows(enrollments: map<int, UserSubscription>, userIds: set<int>, planIds: set<int>, id: int)
    requires id in enrollments
    requires EnrollmentsValid(enrollments, userIds, planIds)
    ensures var after := MarkEnrollmentDeleted(enrollments, id);
            && after.Keys == enrollments.Keys
            && after[id].isDeleted
            && after[id] == enrollments[id].(isDeleted := true)
            && (forall k | k in enrollments && k != id :: after[k] == enrollments[k])
            && EnrollmentsValid(after, userIds, planIds)
            && MarkEnrollmentDeleted(after, id) == after
  {
    var after := MarkEnrollmentDeleted(enrollments, id);
    PutEnrollment(enrollments, userIds, planIds, id, enrollments[id].(isDeleted := true));
    assert after.Keys == enrollments.Keys;
  }

  /** DELETE /user-subscriptions/{sub_id}: a soft delete. A missing id gives
      404; otherwise the row is marked deleted and stays in the table. */
  method DeleteUserSubscription(db: Database, subId: int) returns (r: Result<string>)
    requires db.Valid()
    modifies db
    ensures db.Valid()
    ensures subId !in old(db.enrollments) ==> r == Err(EnrollmentNotFound) && unchanged(db)
    ensures subId in old(db.enrollments)
            ==> && r == Ok(EnrollmentDeleted)
                && db.enrollments == MarkEnrollmentDeleted(old(db.enrollments), subId)
                && db.nextEnrollmentId == old(db.nextEnrollmentId)
                && db.OnlyEnrollmentsChanged()
  {
    if subId !in db.enrollments {
      return Err(EnrollmentNotFound);
    }
    var enrollments' := db.enrollments[subId := db.enrollments[subId].(isDeleted := true)];
    SoftDeleteKeepsRows(db.enrollments, db.users.Keys, db.plans.Keys, subId);
    db.enrollments := enrollments';
    r := Ok(EnrollmentDeleted);
  }
}
