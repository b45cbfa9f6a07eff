/** The database the handlers share: one map per table, from primary key
    to row, and the autoincrement counter of each table. */
module Store {
  import opened UserModel
  import opened SubscriptionModel
  import opened UserSubscriptionModel
  import opened MediaModel
  import opened Schema

  class Database {
    var users: map<int, User>
    var plans: map<int, MasterSubscription>
    var enrollments: map<int, UserSubscription>
    var media: map<int, Media>
    /** The next value of each table's autoincrement sequence. */
    var nextUserId: int
    var nextPlanId: int
    var nextEnrollmentId: int
    var nextMediaId: int

    /** The committed state satisfies every constraint of the schema, and
        every sequence is past every key it has handed out. */
    ghost predicate Valid()
      reads this
    {
      && TablesValid(users, plans, enrollments, media)
      && (forall id | id in users :: id < nextUserId)
      && (forall id | id in plans :: id < nextPlanId)
      && (forall id | id in enrollments :: id < nextEnrollmentId)
      && (forall id | id in media :: id < nextMediaId)
    }

    /** Everything outside the users table and its sequence is as before. */
    twostate predicate OnlyUsersChanged()
      reads this
    {
      && plans == old(plans) && enrollments == old(enrollments) && media == old(media)
      && nextPlanId == old(nextPlanId) && nextEnrollmentId == old(nextEnrollmentId) && nextMediaId == old(nextMediaId)
    }

    /** Everything outside the plans table and its sequence is as before. */
    twostate predicate OnlyPlansChanged()
      reads this
    {
      && users == old(users) && enrollments == old(enrollments) && media == old(media)
      && nextUserId == old(nextUserId) && nextEnrollmentId == old(nextEnrollmentId) && nextMediaId == old(nextMediaId)
    }

    /** Everything outside the enrolments table and its sequence is as before. */
    twostate predicate OnlyEnrollmentsChanged()
      reads this
    {
      && users == old(users) && plans == old(plans) && media == old(media)
      && nextUserId == old(nextUserId) && nextPlanId == old(nextPlanId) && nextMediaId == old(nextMediaId)
    }

    /** Everything outside the media table and its sequence is as before. */
    twostate predicate OnlyMediaChanged()
      reads this
    {
      && users == old(users) && plans == old(plans) && enrollments == old(enrollments)
      && nextUserId == old(nextUserId) && nextPlanId == old(nextPlanId) && nextEnrollmentId == old(nextEnrollmentId)
    }

    /** The freshly created schema: empty tables, sequences at 1. */
    constructor ()
      ensures Valid()
      ensures users == map[] && plans == map[] && enrollments == map[] && media == map[]
      ensures nextUserId == 1 && nextPlanId == 1 && nextEnrollmentId == 1 && nextMediaId == 1
    {
      users, plans, enrollments, media := map[], map[], map[], map[];
      nextUserId, nextPlanId, nextEnrollmentId, nextMediaId := 1, 1, 1, 1;
    }
  }

  lemma HasMember(s: set<int>)
    requires |s| > 0
    ensures exists k :: k in s
  {
    if forall k :: k !in s {
      assert false;
    }
  }

  /** `query.all()`: the keys of the selected rows, in the order the
      database yields them. No ORDER BY is given, so any order is possible;
      each selected row comes exactly once. */
  method Fetch(selected: set<int>) returns (rows: seq<int>)
    ensures forall k :: k in rows <==> k in selected
    ensures forall i, j | 0 <= i < j < |rows| :: rows[i] != rows[j]
  {
    var remaining := selected;
    rows := [];
    while |remaining| > 0
      invariant remaining <= selected
      invariant forall k :: k in rows <==> k in selected - remaining
      invariant forall i, j | 0 <= i < j < |rows| :: rows[i] != rows[j]
      decreases remaining
    {
      HasMember(remaining);
      var k :| k in remaining;
      rows := rows + [k];
      remaining := remaining - {k};
    }
  }
}
