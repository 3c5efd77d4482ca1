/** How a purchase creates or extends a subscription, and what that does to its expiry over time. */
module Subscriptions {
  import opened Common

  type SubscriptionId = int
  type UserId = int
  type PlanId = int
  type Time = int

  const DAY: int := 86400

  datatype Subscription = Subscription(
    user: UserId,
    plan: PlanId,
    expiresAt: Option<Time>,
    active: bool,
    periodMonths: nat,
    paidSlots: int,
    maxDevices: int)

  datatype Purchase = Purchase(plan: PlanId, months: nat, extraDevices: int, includedDevices: int)

  /** PERIOD_DAYS, falling back to one month. */
  function PeriodDays(months: nat): nat {
    if months == 3 then 90 else if months == 6 then 180 else if months == 12 then 365 else 30
  }

  /** A running subscription is extended from its end, an expired or unlimited one from now. */
  function ExtendedUntil(expiresAt: Option<Time>, now: Time, months: nat): Time {
    (if expiresAt.Some? && expiresAt.value > now then expiresAt.value else now) + PeriodDays(months) * DAY
  }

  /** The row after a purchase; a change of plan starts afresh from now and resets the device limit. */
  function Purchased(existing: Option<Subscription>, user: UserId, p: Purchase, now: Time): Subscription {
    match existing
    case None =>
      Subscription(user, p.plan, Some(now + PeriodDays(p.months) * DAY), true, p.months, p.extraDevices,
                   p.includedDevices + p.extraDevices)
    case Some(sub) =>
      if sub.plan != p.plan then
        sub.(plan := p.plan, expiresAt := Some(now + PeriodDays(p.months) * DAY), active := true, periodMonths := p.months,
             paidSlots := sub.paidSlots + p.extraDevices, maxDevices := p.includedDevices + sub.paidSlots + p.extraDevices)
      else
        sub.(expiresAt := Some(ExtendedUntil(sub.expiresAt, now, p.months)), active := true, periodMonths := p.months,
             paidSlots := if p.extraDevices > 0 then sub.paidSlots + p.extraDevices else sub.paidSlots)
  }

  /** Periods of one, three, six and twelve months have 30, 90, 180 and 365 days; any other counts as one month. */
  lemma PeriodLengths(months: nat)
    ensures PeriodDays(1) == 30 && PeriodDays(3) == 90 && PeriodDays(6) == 180 && PeriodDays(12) == 365
    ensures months != 3 && months != 6 && months != 12 ==> PeriodDays(months) == PeriodDays(1)
  {
  }

  /**
    What a purchase leaves in the row: the plan bought, active, paid for the period from the later of now
    and the old expiry if the plan stays, from now if there was no row or another plan; the paid slots
    grow by the extra devices, never shrinking under the same plan, and the device limit is set anew with a new row or plan.
   */
  lemma PurchaseWrites(existing: Option<Subscription>, user: UserId, p: Purchase, now: Time)
    ensures var row := Purchased(existing, user, p, now);
            var paid := PeriodDays(p.months) * 86400;
            && row.plan == p.plan && row.active && row.periodMonths == p.months
            && row.user == (if existing.Some? then existing.value.user else user)
            && row.paidSlots == (if existing.None? then p.extraDevices
                                 else existing.value.paidSlots
                                      + if existing.value.plan == p.plan then Max(0, p.extraDevices) else p.extraDevices)
            && (existing.None? || existing.value.plan != p.plan ==>
                  row.expiresAt == Some(now + paid) && row.maxDevices == p.includedDevices + row.paidSlots)
            && (existing.Some? && existing.value.plan == p.plan ==>
                  && row.maxDevices == existing.value.maxDevices
                  && row.expiresAt == Some(paid + if existing.value.expiresAt.Some? then Max(existing.value.expiresAt.value, now) else now))
  {
  }

  // ---- Which subscription a purchase goes to -------------------------------------

  predicate ActiveForPlan(s: Subscription, user: UserId, plan: PlanId) {
    s.user == user && s.plan == plan && s.active
  }

  predicate Dated(s: Subscription, user: UserId) {
    s.user == user && s.expiresAt.Some?
  }

  /** The order renews a subscription of the user's with the plan that is bought. */
  predicate Fits(rows: map<SubscriptionId, Subscription>, renewal: Option<SubscriptionId>, user: UserId, plan: PlanId) {
    renewal.Some? && renewal.value in rows && rows[renewal.value].user == user && rows[renewal.value].plan == plan
  }

  class SubscriptionTable {
    var rows: map<SubscriptionId, Subscription>

    /** `get_latest_for_user`: among the user's dated subscriptions, one that expires last. */
    method LatestForUser(user: UserId) returns (id: Option<SubscriptionId>)
      ensures id.None? ==> forall i :: i in rows ==> !Dated(rows[i], user)
      ensures id.Some? ==> id.value in rows && Dated(rows[id.value], user)
      ensures id.Some? ==> forall i :: i in rows && Dated(rows[i], user) ==>
                rows[i].expiresAt.value <= rows[id.value].expiresAt.value
    {
      var ids := ListOf(rows.Keys);
      assert forall i :: i in rows ==> i in Elements(ids) && i in ids;
      id := None;
      for n := 0 to |ids|
        invariant id.None? ==> forall k :: 0 <= k < n ==> ids[k] in rows && !Dated(rows[ids[k]], user)
        invariant id.Some? ==> id.value in rows && Dated(rows[id.value], user)
        invariant id.Some? ==> forall k :: 0 <= k < n && ids[k] in rows && Dated(rows[ids[k]], user) ==>
                    rows[ids[k]].expiresAt.value <= rows[id.value].expiresAt.value
      {
        assert ids[n] in Elements(ids);
        var s := rows[ids[n]];
        if Dated(s, user) && (id.None? || rows[id.value].expiresAt.value < s.expiresAt.value) {
          id := Some(ids[n]);
        }
      }
    }

    /**
      The subscription part of a purchase. `renewal` is the order's subscription when the order is a
      renewal; `newId` the identifier of a subscription created because the user has none to extend.
     */
    method ApplyPurchase(user: UserId, p: Purchase, renewal: Option<SubscriptionId>, newId: SubscriptionId, now: Time)
      returns (id: SubscriptionId)
      requires newId !in rows
      modifies this
      ensures rows == old(rows)[id := Purchased(if id in old(rows) then Some(old(rows)[id]) else None, user, p, now)]
      ensures id in old(rows) ==> old(rows)[id].user == user
      ensures id !in old(rows) ==> id == newId
      ensures id !in old(rows) <==>
                && !Fits(old(rows), renewal, user, p.plan)
                && forall i :: i in old(rows) ==> !ActiveForPlan(old(rows)[i], user, p.plan) && !Dated(old(rows)[i], user)
      ensures Fits(old(rows), renewal, user, p.plan) ==> id == renewal.value
      ensures !Fits(old(rows), renewal, user, p.plan) && (exists i :: i in old(rows) && ActiveForPlan(old(rows)[i], user, p.plan)) ==>
                id in old(rows) && ActiveForPlan(old(rows)[id], user, p.plan)
      ensures !Fits(old(rows), renewal, user, p.plan) && (forall i :: i in old(rows) ==> !ActiveForPlan(old(rows)[i], user, p.plan))
                && (exists i :: i in old(rows) && Dated(old(rows)[i], user)) ==>
                && id in old(rows) && Dated(old(rows)[id], user)
                && forall i :: i in old(rows) && Dated(old(rows)[i], user) ==>
                     old(rows)[i].expiresAt.value <= old(rows)[id].expiresAt.value
    {
      var existing: Option<SubscriptionId> := None;
      if renewal.Some? && renewal.value in rows && rows[renewal.value].user == user && rows[renewal.value].plan == p.plan {
        existing := renewal;
      } else if i :| i in rows && ActiveForPlan(rows[i], user, p.plan) {
        existing := Some(i);
      } else {
        existing := LatestForUser(user);
      }
      if existing.Some? {
        id := existing.value;
        rows := rows[id := Purchased(Some(rows[id]), user, p, now)];
      } else {
        id := newId;
        rows := rows[id := Purchased(None, user, p, now)];
      }
    }
  }

  // ---- No paid day is lost -----------------------------------------------------------

  datatype Payment = Payment(at: Time, months: nat)

  function Paid(ps: seq<Payment>): int {
    if ps == [] then 0 else PeriodDays(ps[0].months) * DAY + Paid(ps[1..])
  }

  /** The expiry after a series of purchases of the plan the subscription already has. */
  function ExpiryAfter(expiresAt: Time, ps: seq<Payment>): Time
    decreases |ps|
  {
    if ps == [] then expiresAt
    else ExpiryAfter(ExtendedUntil(Some(expiresAt), ps[0].at, ps[0].months), ps[1..])
  }

  /** The fold is what repeated purchases do to the row. */
  function RowAfter(sub: Subscription, ps: seq<Payment>): Subscription
    decreases |ps|
  {
    if ps == [] then sub
    else RowAfter(Purchased(Some(sub), sub.user, Purchase(sub.plan, ps[0].months, 0, 0), ps[0].at), ps[1..])
  }

  lemma {:induction false} RowAfterExpiry(sub: Subscription, ps: seq<Payment>)
    requires sub.expiresAt.Some?
    ensures RowAfter(sub, ps).expiresAt == Some(ExpiryAfter(sub.expiresAt.value, ps))
    decreases |ps|
  {
    if ps != [] {
      RowAfterExpiry(Purchased(Some(sub), sub.user, Purchase(sub.plan, ps[0].months, 0, 0), ps[0].at), ps[1..]);
    }
  }

  /** A subscription without an expiry goes through any purchases as if it had expired at the first of them. */
  lemma UnlimitedStartsNow(sub: Subscription, ps: seq<Payment>)
    requires sub.expiresAt.None? && ps != []
    ensures RowAfter(sub, ps).expiresAt == Some(ExpiryAfter(ps[0].at, ps))
    ensures RowAfter(sub, ps).expiresAt.value >= ps[0].at + Paid(ps)
  {
    var first := Purchased(Some(sub), sub.user, Purchase(sub.plan, ps[0].months, 0, 0), ps[0].at);
    assert RowAfter(sub, ps) == RowAfter(first, ps[1..]);
    RowAfterExpiry(first, ps[1..]);
    NoPaidDayLost(ps[0].at, ps);
  }

  /**
    Every paid day counts. The final expiry is the largest of: the old expiry plus everything paid,
    and, for each purchase, its moment plus everything paid from it on. It is at least all of these
    and equal to one of them.
   */
  lemma {:induction false} NoPaidDayLost(expiresAt: Time, ps: seq<Payment>)
    ensures ExpiryAfter(expiresAt, ps) >= expiresAt + Paid(ps)
    ensures forall i :: 0 <= i < |ps| ==> ExpiryAfter(expiresAt, ps) >= ps[i].at + Paid(ps[i..])
    ensures || ExpiryAfter(expiresAt, ps) == expiresAt + Paid(ps)
            || exists i :: 0 <= i < |ps| && ExpiryAfter(expiresAt, ps) == ps[i].at + Paid(ps[i..])
    decreases |ps|
  {
    if ps != [] {
      var rest := ps[1..];
      var next := ExtendedUntil(Some(expiresAt), ps[0].at, ps[0].months);
      NoPaidDayLost(next, rest);
      assert ps[0..] == ps;
      forall i | 0 <= i < |ps| ensures ExpiryAfter(expiresAt, ps) >= ps[i].at + Paid(ps[i..]) {
        if i > 0 { assert rest[i - 1..] == ps[i..] && rest[i - 1] == ps[i]; }
      }
      if i :| 0 <= i < |rest| && ExpiryAfter(next, rest) == rest[i].at + Paid(rest[i..]) {
        assert ps[i + 1..] == rest[i..] && ps[i + 1] == rest[i];
      }
    }
  }

  /** Along the way the expiry never moves back. */
  lemma {:induction false} ExpiryNeverDecreases(expiresAt: Time, ps: seq<Payment>, k: nat)
    requires k <= |ps|
    ensures expiresAt <= ExpiryAfter(expiresAt, ps[..k]) <= ExpiryAfter(expiresAt, ps)
    decreases |ps|
  {
    if ps != [] && k > 0 {
      assert ps[..k][1..] == ps[1..][..k - 1];
      ExpiryNeverDecreases(ExtendedUntil(Some(expiresAt), ps[0].at, ps[0].months), ps[1..], k - 1);
    } else if ps != [] {
      ExpiryNeverDecreases(ExtendedUntil(Some(expiresAt), ps[0].at, ps[0].months), ps[1..], 0);
    }
  }
}
