/** The dashboard's plan handlers (app/api/dashboard/router.py): list, get,
    create, partial update and hard delete of `master_subscriptions` rows.
    The price travels in hundredths, as the Numeric(10, 2) column keeps it. */
module DashboardSubscriptions {
  import opened Outcomes
  import opened Text
  import opened SubscriptionModel
  import opened UserSubscriptionModel
  import opened Schema
  import opened Store

  const SubscriptionNotFound: Failure := Http(404, "Subscription not found")
  const SubscriptionDeleted: string := "Subscription deleted"

  /** The record list_subscriptions and get_subscription return. */
  datatype PlanView = PlanView(id: int, name: string, description: Option<string>, priceCents: int,
                               duration: int, active: bool)

  function PlanViewOf(id: int, s: MasterSubscription): PlanView {
    PlanView(id, s.name, s.description, s.priceCents, s.duration, s.active)
  }

  /** The shorter record create_subscription and update_subscription return:
      no description. */
  datatype PlanSummary = PlanSummary(id: int, name: string, priceCents: int, duration: int, active: bool)

  function SummaryOf(id: int, s: MasterSubscription): PlanSummary {
    PlanSummary(id, s.name, s.priceCents, s.duration, s.active)
  }

  /** The filter of list_subscriptions: when `q` is truthy, `q` inside the
      name, ignoring case; otherwise every plan, active or not. */
  predicate PlanListed(s: MasterSubscription, q: Option<string>) {
    Truthy(q) ==> ILike(s.name, q.value)
  }

  /** GET /subscriptions: exactly the plans that pass the filter, each once,
      in the order the database yields them. */
  method ListSubscriptions(db: Database, q: Option<string>) returns (result: seq<PlanView>)
    ensures forall v | v in result :: v.id in db.plans && PlanListed(db.plans[v.id], q)
                                       && v == PlanViewOf(v.id, db.plans[v.id])
    ensures forall id | id in db.plans && PlanListed(db.plans[id], q) :: PlanViewOf(id, db.plans[id]) in result
    ensures forall i, j | 0 <= i < j < |result| :: result[i].id != result[j].id
  {
    var selected := set k | k in db.plans && PlanListed(db.plans[k], q);
    var rows := Fetch(selected);
    result := [];
    for i := 0 to |rows|
      invariant |result| == i
      invariant forall k | 0 <= k < i :: rows[k] in selected && result[k] == PlanViewOf(rows[k], db.plans[rows[k]])
    {
      assert rows[i] in rows;
      result := result + [PlanViewOf(rows[i], db.plans[rows[i]])];
    }
    forall id | id in db.plans && PlanListed(db.plans[id], q)
      ensures PlanViewOf(id, db.plans[id]) in result
    {
      assert id in selected;
      var k :| 0 <= k < |rows| && rows[k] == id;
      assert result[k] == PlanViewOf(id, db.plans[id]);
    }
  }

  /** GET /subscriptions/{sub_id} */
  method GetSubscription(db: Database, subId: int) returns (r: Result<PlanView>)
    ensures r.Err? <==> subId !in db.plans
    ensures r.Err? ==> r.error == SubscriptionNotFound
    ensures r.Ok? ==> r.value == PlanViewOf(subId, db.plans[subId])
  {
    if subId !in db.plans {
      return Err(SubscriptionNotFound);
    }
    return Ok(PlanViewOf(subId, db.plans[subId]));
  }

  datatype PlanCreate = PlanCreate(name: string, description: Option<string>, priceCents: int, duration: int,
                                   active: Option<bool>)

  /** The row create_subscription inserts: `active` is true unless sent. */
  function NewPlan(payload: PlanCreate): (s: MasterSubscription)
    ensures s.name == payload.name && s.description == payload.description
    ensures s.priceCents == payload.priceCents && s.duration == payload.duration
    ensures s.active <==> payload.active != Some(false)
  {
    MasterSubscription(payload.name, payload.description, payload.priceCents, payload.duration,
                       payload.active.GetOr(true))
  }

  /** POST /subscriptions: one row under the next id, unless it breaks a
      column bound (a name over 150 characters, a price beyond Numeric(10, 2),
      a duration beyond a 32-bit integer), which is a database error with no
      change. */
  method CreateSubscription(db: Database, payload: PlanCreate) returns (r: Result<PlanSummary>)
    requires db.Valid()
    modifies db
    ensures db.Valid()
    ensures !PlanValid(NewPlan(payload)) ==> r == Err(DatabaseError) && unchanged(db)
    ensures PlanValid(NewPlan(payload))
            ==> var id := old(db.nextPlanId);
                && id !in old(db.plans)
                && r == Ok(SummaryOf(id, NewPlan(payload)))
                && db.plans == old(db.plans)[id := NewPlan(payload)]
                && db.nextPlanId == id + 1
                && db.OnlyPlansChanged()
  {
    var plan := NewPlan(payload);
    var id := db.nextPlanId;
    var plans' := db.plans[id := plan];
    PutPlan(db.plans, id, plan);
    EnrollmentsUnderMoreKeys(db.enrollments, db.users.Keys, db.plans.Keys, db.users.Keys, plans'.Keys);
    if !TablesValid(db.users, plans', db.enrollments, db.media) {
      return Err(DatabaseError);
    }
    db.plans := plans';
    db.nextPlanId := id + 1;
    r := Ok(SummaryOf(id, plan));
  }

  /** A partial update: each field is `None` when not sent. */
  datatype PlanUpdate = PlanUpdate(name: Option<string>, description: Option<string>, priceCents: Option<int>,
                                   duration: Option<int>, active: Option<bool>)

  /** The row update_subscription writes back. */
  function ApplyPlanUpdate(s: MasterSubscription, payload: PlanUpdate): MasterSubscription {
    s.(name := payload.name.GetOr(s.name),
       description := if payload.description.Some? then payload.description else s.description,
       priceCents := payload.priceCents.GetOr(s.priceCents),
       duration := payload.duration.GetOr(s.duration),
       active := payload.active.GetOr(s.active))
  }

  /** The rules of update_subscription: every field that is sent replaces
      the stored one, "" and false included; every field not sent is kept,
      so the description can be changed but never cleared; an empty update
      changes nothing; and applying the same update twice is applying it
      once. */
  lemma UpdatePlanRules(s: MasterSubscription, payload: PlanUpdate)
    ensures var t := ApplyPlanUpdate(s, payload);
            && (payload.name.Some? ==> t.name == payload.name.value)
            && (payload.name.None? ==> t.name == s.name)
            && (payload.description.Some? ==> t.description == payload.description)
            && (payload.description.None? ==> t.description == s.description)
            && (s.description.Some? ==> t.description.Some?)
            && (payload.priceCents.Some? ==> t.priceCents == payload.priceCents.value)
            && (payload.priceCents.None? ==> t.priceCents == s.priceCents)
            && (payload.duration.Some? ==> t.duration == payload.duration.value)
            && (payload.duration.None? ==> t.duration == s.duration)
            && (payload.active.Some? ==> t.active == payload.active.value)
            && (payload.active.None? ==> t.active == s.active)
            && ApplyPlanUpdate(t, payload) == t
    ensures ApplyPlanUpdate(s, PlanUpdate(None, None, None, None, None)) == s
  {
  }

  /** The field-by-field assignments of update_subscription, each guarded
      by `is not None` as in the handler. */
  method PatchPlan(s: MasterSubscription, payload: PlanUpdate) returns (t: MasterSubscription)
    ensures t == ApplyPlanUpdate(s, payload)
  {
    var name, description, priceCents, duration, active := s.name, s.description, s.priceCents, s.duration, s.active;
    if payload.name.Some? {
      name := payload.name.value;
    }
    if payload.description.Some? {
      description := payload.description;
    }
    if payload.priceCents.Some? {
      priceCents := payload.priceCents.value;
    }
    if payload.duration.Some? {
      duration := payload.duration.value;
    }
    if payload.active.Some? {
      active := payload.active.value;
    }
    t := s.(name := name, description := description, priceCents := priceCents, duration := duration,
            active := active);
  }

  /** PUT /subscriptions/{sub_id}. A missing id gives 404; otherwise the row
      is rewritten by the update rules, unless the result breaks a column
      bound, which is a database error with no change. */
  method UpdateSubscription(db: Database, subId: int, payload: PlanUpdate) returns (r: Result<PlanSummary>)
    requires db.Valid()
    modifies db
    ensures db.Valid()
    ensures subId !in old(db.plans) ==> r == Err(SubscriptionNotFound) && unchanged(db)
    ensures subId in old(db.plans) ==>
              var t := ApplyPlanUpdate(old(db.plans)[subId], payload);
              if PlanValid(t) then
                && r == Ok(SummaryOf(subId, t))
                && db.plans == old(db.plans)[subId := t]
                && db.nextPlanId == old(db.nextPlanId)
                && db.OnlyPlansChanged()
              else
                r == Err(DatabaseError) && unchanged(db)
  {
    if subId !in db.plans {
      return Err(SubscriptionNotFound);
    }
    var s := PatchPlan(db.plans[subId], payload);
    var plans' := db.plans[subId := s];
    PutPlan(db.plans, subId, s);
    assert plans'.Keys == db.plans.Keys;
    if !TablesValid(db.users, plans', db.enrollments, db.media) {
      return Err(DatabaseError);
    }
    db.plans := plans';
    r := Ok(SummaryOf(subId, s));
  }

  /** DELETE /subscriptions/{sub_id}: a hard delete. A missing id gives 404;
      a plan some enrolment still names cannot be removed (its foreign key
      has no ON DELETE action, so the database rejects it); otherwise the
      row is gone. */
  method DeleteSubscription(db: Database, subId: int) returns (r: Result<string>)
    requires db.Valid()
    modifies db
    ensures db.Valid()
    ensures subId !in old(db.plans) ==> r == Err(SubscriptionNotFound) && unchanged(db)
    ensures subId in old(db.plans) && PlanReferenced(old(db.enrollments), subId)
            ==> r == Err(DatabaseError) && unchanged(db)
    ensures subId in old(db.plans) && !PlanReferenced(old(db.enrollments), subId)
            ==> && r == Ok(SubscriptionDeleted)
                && db.plans == old(db.plans) - {subId}
                && db.nextPlanId == old(db.nextPlanId)
                && db.OnlyPlansChanged()
  {
    if subId !in db.plans {
      return Err(SubscriptionNotFound);
    }
    var plans' := db.plans - {subId};
    EnrollmentsWithoutPlan(db.enrollments, db.users.Keys, db.plans.Keys, subId);
    assert plans'.Keys == db.plans.Keys - {subId};
    if !TablesValid(db.users, plans', db.enrollments, db.media) {
      return Err(DatabaseError);
    }
    db.plans := plans';
    r := Ok(SubscriptionDeleted);
  }
}
