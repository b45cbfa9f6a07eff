/** The `master_subscriptions` table (app/models/subscription.py): the plans
    a subscriber can be enrolled in. `created_at`/`updated_at` are left out. */
module SubscriptionModel {
  import opened Outcomes
  import opened Columns

  datatype MasterSubscription = MasterSubscription(
    name: string,                // String(150), required
    description: Option<string>, // Text, nullable
    priceCents: int,             // Numeric(10, 2), required, in hundredths
    duration: int,               // Integer, required
    active: bool)                // Boolean, required, server default true

  /** Numeric(10, 2) holds at most 10 digits, 2 of them after the point:
      at most 8 digits before the point, so fewer than 10^10 hundredths. */
  const PriceCentsBound: int := 10_000_000_000

  predicate PlanValid(s: MasterSubscription) {
    && FitsVarchar(s.name, 150)
    && -PriceCentsBound < s.priceCents < PriceCentsBound
    && IsInt32(s.duration)
  }

  predicate PlansValid(plans: map<int, MasterSubscription>) {
    forall id | id in plans :: PlanValid(plans[id])
  }
}
