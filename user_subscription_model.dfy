/** The `user_subscriptions` table (app/models/user_subscription.py): the
    enrolment of a user in a plan. `created_at`/`updated_at` are left out;
    the two TIMESTAMP columns keep the text the handler was given. */
module UserSubscriptionModel {
  import opened Columns

  datatype UserSubscription = UserSubscription(
    userId: int,           // FK users.user_id, required
    subscriptionId: int,   // FK master_subscriptions.id, required
    startDatetime: string, // TIMESTAMP, required
    endDate: string,       // TIMESTAMP, required
    paymentMethod: string, // String(50), required
    isDeleted: bool,       // Boolean, required, server default false
    status: string,        // String(50), required, server default 'Active'
    addedBy: int)          // FK users.user_id, required

  const DefaultStatus: string := "Active"

  /** The column bounds of one row. */
  predicate EnrollmentValid(e: UserSubscription) {
    FitsVarchar(e.paymentMethod, 50) && FitsVarchar(e.status, 50)
  }

  /** The three foreign keys: both user references and the plan reference
      name existing rows. */
  predicate References(e: UserSubscription, userIds: set<int>, planIds: set<int>) {
    e.userId in userIds && e.subscriptionId in planIds && e.addedBy in userIds
  }

  predicate EnrollmentsValid(enrollments: map<int, UserSubscription>, userIds: set<int>, planIds: set<int>) {
    forall id | id in enrollments :: EnrollmentValid(enrollments[id]) && References(enrollments[id], userIds, planIds)
  }

  /** Some enrolment names user `u`, as its subscriber or as its creator. */
  predicate UserReferenced(enrollments: map<int, UserSubscription>, u: int) {
    exists id | id in enrollments :: enrollments[id].userId == u || enrollments[id].addedBy == u
  }

  /** Some enrolment names plan `s`. */
  predicate PlanReferenced(enrollments: map<int, UserSubscription>, s: int) {
    exists id | id in enrollments :: enrollments[id].subscriptionId == s
  }
}
