/** The constraints the database enforces over all four tables together, and
    how each kind of single-row change affects them. A handler's change is
    committed only if the resulting tables still satisfy `TablesValid`. */
module Schema {
  import opened UserModel
  import opened SubscriptionModel
  import opened UserSubscriptionModel
  import opened MediaModel

  predicate TablesValid(users: map<int, User>, plans: map<int, MasterSubscription>,
                        enrollments: map<int, UserSubscription>, media: map<int, Media>)
  {
    && UsersValid(users)
    && PlansValid(plans)
    && EnrollmentsValid(enrollments, users.Keys, plans.Keys)
    && MediaTableValid(media)
  }

  /** Writing row `x` at key `k` (an insert or an update) keeps the users
      table valid exactly when `x` fits its columns and no other user has its
      email. */
  lemma PutUser(users: map<int, User>, k: int, x: User)
    requires UsersValid(users)
    ensures UsersValid(users[k := x]) <==> UserValid(x) && EmailFree(users, k, x.email)
  {
    var users' := users[k := x];
    if UserValid(x) && EmailFree(users, k, x.email) {
      forall a | a in users'
        ensures EmailFree(users', a, users'[a].email)
      {
        if a != k {
          assert EmailFree(users, a, users[a].email);
        }
      }
    }
    if UsersValid(users') {
      assert k in users' && users'[k] == x;
      assert EmailFree(users', k, users'[k].email);
      forall j | j in users && j != k
        ensures users[j].email != x.email
      {
        assert j in users' && users'[j] == users[j];
      }
    }
  }

  /** Removing a user keeps the users table valid. */
  lemma RemoveUser(users: map<int, User>, k: int)
    requires UsersValid(users)
    ensures UsersValid(users - {k})
  {
    var users' := users - {k};
    forall a | a in users'
      ensures EmailFree(users', a, users'[a].email)
    {
      assert EmailFree(users, a, users[a].email);
    }
  }

  /** References that resolve keep resolving when rows are added. */
  lemma EnrollmentsUnderMoreKeys(enrollments: map<int, UserSubscription>, userIds: set<int>, planIds: set<int>,
                                 userIds': set<int>, planIds': set<int>)
    requires EnrollmentsValid(enrollments, userIds, planIds)
    requires userIds <= userIds' && planIds <= planIds'
    ensures EnrollmentsValid(enrollments, userIds', planIds')
  {
  }

  /** Removing a user keeps the enrolments' foreign keys intact exactly when
      no enrolment names that user. */
  lemma EnrollmentsWithoutUser(enrollments: map<int, UserSubscription>, userIds: set<int>, planIds: set<int>, k: int)
    requires EnrollmentsValid(enrollments, userIds, planIds)
    ensures EnrollmentsValid(enrollments, userIds - {k}, planIds) <==> !UserReferenced(enrollments, k)
  {
    if UserReferenced(enrollments, k) {
      var id :| id in enrollments && (enrollments[id].userId == k || enrollments[id].addedBy == k);
      assert !References(enrollments[id], userIds - {k}, planIds);
    }
  }

  /** Removing a plan keeps the enrolments' foreign keys intact exactly when
      no enrolment names that plan. */
  lemma EnrollmentsWithoutPlan(enrollments: map<int, UserSubscription>, userIds: set<int>, planIds: set<int>, k: int)
    requires EnrollmentsValid(enrollments, userIds, planIds)
    ensures EnrollmentsValid(enrollments, userIds, planIds - {k}) <==> !PlanReferenced(enrollments, k)
  {
    if PlanReferenced(enrollments, k) {
      var id :| id in enrollments && enrollments[id].subscriptionId == k;
      assert !References(enrollments[id], userIds, planIds - {k});
    }
  }

  /** Writing an enrolment keeps the table valid exactly when the row fits
      its columns and its three references resolve. */
  lemma PutEnrollment(enrollments: map<int, UserSubscription>, userIds: set<int>, planIds: set<int>, k: int, x: UserSubscription)
    requires EnrollmentsValid(enrollments, userIds, planIds)
    ensures EnrollmentsValid(enrollments[k := x], userIds, planIds) <==> EnrollmentValid(x) && References(x, userIds, planIds)
  {
    if EnrollmentsValid(enrollments[k := x], userIds, planIds) {
      assert enrollments[k := x][k] == x;
    }
  }

  /** Writing a plan keeps the plans table valid exactly when it fits its
      columns. */
  lemma PutPlan(plans: map<int, MasterSubscription>, k: int, x: MasterSubscription)
    requires PlansValid(plans)
    ensures PlansValid(plans[k := x]) <==> PlanValid(x)
  {
    if PlansValid(plans[k := x]) {
      assert plans[k := x][k] == x;
    }
  }

  /** Writing a media row keeps the media table valid exactly when it fits
      its columns. */
  lemma PutMedia(media: map<int, Media>, k: int, x: Media)
    requires MediaTableValid(media)
    ensures MediaTableValid(media[k := x]) <==> MediaValid(x)
  {
    if MediaTableValid(media[k := x]) {
      assert media[k := x][k] == x;
    }
  }
}
