/**
  Orders, balances and the transaction log. Amounts are whole kopecks. Every
  service call is one transaction: a call that raises leaves no trace. The expiry
  sweep is two steps, because its SELECT takes no lock and its UPDATE does not
  look at the status again.
 */
module Billing {
  import opened Common

  type UserId = int
  type OrderId = int
  type PlanId = int
  type Money = int
  type Time = int

  datatype Status = AwaitingPayment | Paid | Completed | Expired | Refunded | Failed
  datatype Provider = Gateway | Stars | Balance | Free
  datatype OrderKind = PlanPurchase | Renewal | DeviceSlots | TopUp

  datatype Order = Order(
    user: UserId,
    amount: Money,
    provider: Provider,
    kind: OrderKind,
    plan: Option<PlanId>,
    expiresAt: Option<Time>,
    status: Status)

  datatype TxKind = Payment | Purchase | SlotPurchase | Refund | ManualCredit | ManualDebit | ReferralBonus

  datatype Tx = Tx(user: UserId, amount: Money, balanceAfter: Money, kind: TxKind, order: Option<OrderId>)

  datatype Db = Db(
    orders: map<OrderId, Order>,
    balances: map<UserId, Money>,
    ledger: seq<Tx>,
    sweeps: set<set<OrderId>>)

  predicate IsFinal(s: Status) {
    s == Paid || s == Completed || s == Refunded || s == Failed
  }

  predicate IsRefundable(s: Status) {
    s == Paid || s == Completed
  }

  // ---- What each call does -------------------------------------------------

  /** Moves a balance and writes the matching log entry. */
  function Post(db: Db, u: UserId, amount: Money, kind: TxKind, order: Option<OrderId>): Db
    requires u in db.balances
  {
    var after := db.balances[u] + amount;
    db.(balances := db.balances[u := after], ledger := db.ledger + [Tx(u, amount, after, kind, order)])
  }

  function SetStatus(db: Db, id: OrderId, s: Status): Db
    requires id in db.orders
  {
    db.(orders := db.orders[id := db.orders[id].(status := s)])
  }

  /** A fulfilled payment buys something: slots, or a plan still active and priced. */
  predicate Buys(o: Order, sellable: set<PlanId>) {
    o.kind == DeviceSlots || (o.plan.Some? && o.plan.value in sellable)
  }

  function PurchaseKind(o: Order): TxKind {
    if o.kind == DeviceSlots then SlotPurchase else Purchase
  }

  /** The debit of a purchase, skipped when the balance does not cover it. */
  function BuyIfCovered(db: Db, id: OrderId, kind: TxKind): Db
    requires id in db.orders && db.orders[id].user in db.balances
  {
    var o := db.orders[id];
    if db.balances[o.user] < o.amount then db else Post(db, o.user, -o.amount, kind, Some(id))
  }

  /** `_fulfill_order_locked`: repeated, expired and orphaned orders change nothing. */
  function Fulfil(db: Db, id: OrderId, sellable: set<PlanId>): Db
    requires id in db.orders
  {
    var o := db.orders[id];
    if IsFinal(o.status) || o.status == Expired || o.user !in db.balances then db
    else
      var paid := Post(db, o.user, o.amount, Payment, Some(id));
      var bought := if Buys(o, sellable) then BuyIfCovered(paid, id, PurchaseKind(o)) else paid;
      SetStatus(bought, id, Completed)
  }

  function RefundOrder(db: Db, id: OrderId): Db {
    if id !in db.orders || !IsRefundable(db.orders[id].status) || db.orders[id].user !in db.balances then db
    else SetStatus(Post(db, db.orders[id].user, -db.orders[id].amount, Refund, Some(id)), id, Refunded)
  }

  /** The support desk's refund credits an order it finds in status paid. */
  function SupportRefund(db: Db, id: OrderId): Db {
    if id !in db.orders || db.orders[id].status != Paid || db.orders[id].user !in db.balances then db
    else SetStatus(Post(db, db.orders[id].user, db.orders[id].amount, Refund, Some(id)), id, Refunded)
  }

  /** An order paid from the balance is created, charged and completed in one go, or not at all. */
  function PayFromBalance(db: Db, id: OrderId, o: Order): Db {
    if id in db.orders || o.user !in db.balances || db.balances[o.user] < o.amount then db
    else
      var placed := db.(orders := db.orders[id := o.(provider := Balance, status := Completed)]);
      Post(placed, o.user, -o.amount, PurchaseKind(o), Some(id))
  }

  function Overdue(db: Db, now: Time): set<OrderId> {
    set id | id in db.orders && db.orders[id].status == AwaitingPayment
           && db.orders[id].expiresAt.Some? && db.orders[id].expiresAt.value < now
  }

  /** The sweep's UPDATE: every listed order becomes expired, whatever it is by now. */
  function Expire(db: Db, ids: set<OrderId>): Db {
    db.(orders := map id | id in db.orders ::
                    if id in ids then db.orders[id].(status := Expired) else db.orders[id])
  }

  datatype Step =
    | PlaceOrder(id: OrderId, order: Order)
    | PlaceBalanceOrder(id: OrderId, order: Order)
    | PlaceFreeOrder(id: OrderId, user: UserId, plan: PlanId)
    | Webhook(id: OrderId, amount: Money, paid: bool, cancelled: bool, sellable: set<PlanId>)
    | ConfirmStars(id: OrderId, sellable: set<PlanId>)
    | DoRefund(id: OrderId)
    | DoSupportRefund(id: OrderId)
    | Credit(user: UserId, amount: Money, kind: TxKind)
    | Debit(user: UserId, amount: Money)
    | SweepSelect(ids: set<OrderId>, now: Time)
    | SweepUpdate(ids: set<OrderId>)

  function OnWebhook(db: Db, id: OrderId, amount: Money, paid: bool, cancelled: bool, sellable: set<PlanId>): Db {
    if id !in db.orders || (amount > 0 && amount != db.orders[id].amount) then db
    else if paid then Fulfil(db, id, sellable)
    else if cancelled && db.orders[id].status == AwaitingPayment then SetStatus(db, id, Expired)
    else db
  }

  function Next(db: Db, step: Step): Db {
    match step
    case PlaceOrder(id, o) =>
      if id in db.orders || o.user !in db.balances || o.provider == Balance || o.provider == Free then db
      else db.(orders := db.orders[id := o.(status := AwaitingPayment)])
    case PlaceBalanceOrder(id, o) => PayFromBalance(db, id, o)
    case PlaceFreeOrder(id, u, plan) =>
      if id in db.orders || u !in db.balances then db
      else db.(orders := db.orders[id := Order(u, 0, Free, PlanPurchase, Some(plan), None, Completed)])
    case Webhook(id, amount, paid, cancelled, sellable) => OnWebhook(db, id, amount, paid, cancelled, sellable)
    case ConfirmStars(id, sellable) =>
      if id !in db.orders || db.orders[id].provider != Stars then db else Fulfil(db, id, sellable)
    case DoRefund(id) => RefundOrder(db, id)
    case DoSupportRefund(id) => SupportRefund(db, id)
    case Credit(u, amount, kind) =>
      if u !in db.balances || amount <= 0 || (kind != ManualCredit && kind != ReferralBonus) then db
      else Post(db, u, amount, kind, None)
    case Debit(u, amount) =>
      if u !in db.balances || amount <= 0 || db.balances[u] < amount then db
      else Post(db, u, -amount, ManualDebit, None)
    case SweepSelect(ids, now) => if ids <= Overdue(db, now) then db.(sweeps := db.sweeps + {ids}) else db
    case SweepUpdate(ids) => if ids in db.sweeps then Expire(db, ids) else db
  }

  function Run(db: Db, steps: seq<Step>): Db
    decreases |steps|
  {
    if steps == [] then db else Run(Next(db, steps[0]), steps[1..])
  }

  // ---- What that means, entry by entry --------------------------------------------

  /**
    `after` is `before` with order `id` fulfilled: the payment is entered; slots and sellable plans are
    bought with it unless the balance was negative; anything else, a top-up above all, stays on the
    balance.
   */
  ghost predicate Fulfilled(before: Db, after: Db, id: OrderId, sellable: set<PlanId>)
    requires id in before.orders && before.orders[id].user in before.balances
  {
    var o := before.orders[id];
    var had := before.balances[o.user];
    var buys := o.kind == DeviceSlots || (o.plan.Some? && o.plan.value in sellable);
    var payment := Tx(o.user, o.amount, had + o.amount, Payment, Some(id));
    var purchase := Tx(o.user, -o.amount, had, if o.kind == DeviceSlots then SlotPurchase else Purchase, Some(id));
    && after.orders == before.orders[id := o.(status := Completed)]
    && after.sweeps == before.sweeps
    && (if buys && had >= 0
        then after.balances == before.balances && after.ledger == before.ledger + [payment, purchase]
        else after.balances == before.balances[o.user := had + o.amount] && after.ledger == before.ledger + [payment])
  }

  /** An order is fulfilled exactly when it awaits payment and its user exists; otherwise nothing happens. */
  lemma FulfilExactly(db: Db, id: OrderId, sellable: set<PlanId>)
    requires id in db.orders
    ensures if db.orders[id].status == AwaitingPayment && db.orders[id].user in db.balances
            then Fulfilled(db, Fulfil(db, id, sellable), id, sellable)
            else Fulfil(db, id, sellable) == db
  {
    var o := db.orders[id];
    if o.status == AwaitingPayment && o.user in db.balances {
      var paid := Post(db, o.user, o.amount, Payment, Some(id));
      assert paid.ledger == db.ledger + [Tx(o.user, o.amount, db.balances[o.user] + o.amount, Payment, Some(id))];
      assert Fulfil(db, id, sellable).balances.Keys == db.balances.Keys;
      if Buys(o, sellable) && db.balances[o.user] >= 0 {
        assert Fulfil(db, id, sellable).balances == db.balances;
      }
    }
  }

  /** A paid top-up raises the balance by its amount, with one entry. */
  lemma TopUpIsCredited(db: Db, id: OrderId, sellable: set<PlanId>)
    requires id in db.orders && db.orders[id].status == AwaitingPayment && db.orders[id].user in db.balances
    requires db.orders[id].kind != DeviceSlots && (db.orders[id].plan.None? || db.orders[id].plan.value !in sellable)
    ensures var o := db.orders[id]; var after := db.balances[o.user] + o.amount;
            var db' := Next(db, Webhook(id, o.amount, true, false, sellable));
            && db'.balances == db.balances[o.user := after]
            && db'.ledger == db.ledger + [Tx(o.user, o.amount, after, Payment, Some(id))]
            && db'.orders == db.orders[id := o.(status := Completed)]
  {
    FulfilExactly(db, id, sellable);
  }

  /** Whether a payment may complete the order. */
  predicate Payable(db: Db, id: OrderId) {
    id in db.orders && db.orders[id].status == AwaitingPayment && db.orders[id].user in db.balances
  }

  lemma OverdueExactly(db: Db, ids: set<OrderId>, now: Time)
    ensures ids <= Overdue(db, now) <==>
              forall id :: id in ids ==> && id in db.orders && db.orders[id].status == AwaitingPayment
                                         && db.orders[id].expiresAt.Some? && db.orders[id].expiresAt.value < now
  {
    if ids <= Overdue(db, now) {
      forall id | id in ids
        ensures && id in db.orders && db.orders[id].status == AwaitingPayment
                && db.orders[id].expiresAt.Some? && db.orders[id].expiresAt.value < now
      {
        assert id in Overdue(db, now);
      }
    } else {
      var id := Outsider(ids, Overdue(db, now));
      assert id in ids && id !in Overdue(db, now);
    }
  }

  /** What each step writes, entry by entry. */
  lemma StepWrites(db: Db, step: Step)
    ensures var db' := Next(db, step);
            match step
            case PlaceOrder(id, o) =>
              db' == if id in db.orders || o.user !in db.balances || (o.provider != Gateway && o.provider != Stars) then db
                     else db.(orders := db.orders[id := o.(status := AwaitingPayment)])
            case PlaceBalanceOrder(id, o) =>
              if id in db.orders || o.user !in db.balances || db.balances[o.user] < o.amount then db' == db
              else var after := db.balances[o.user] - o.amount;
                   && db'.orders == db.orders[id := o.(provider := Balance, status := Completed)]
                   && db'.balances == db.balances[o.user := after] && db'.sweeps == db.sweeps
                   && db'.ledger == db.ledger + [Tx(o.user, -o.amount, after,
                                                    if o.kind == DeviceSlots then SlotPurchase else Purchase, Some(id))]
            case PlaceFreeOrder(id, u, plan) =>
              db' == if id in db.orders || u !in db.balances then db
                     else db.(orders := db.orders[id := Order(u, 0, Free, PlanPurchase, Some(plan), None, Completed)])
            case Webhook(id, amount, paid, cancelled, sellable) =>
              if id !in db.orders || (amount > 0 && amount != db.orders[id].amount) then db' == db
              else if paid && Payable(db, id) then Fulfilled(db, db', id, sellable)
              else if !paid && cancelled && db.orders[id].status == AwaitingPayment
              then db' == db.(orders := db.orders[id := db.orders[id].(status := Expired)])
              else db' == db
            case ConfirmStars(id, sellable) =>
              if Payable(db, id) && db.orders[id].provider == Stars then Fulfilled(db, db', id, sellable) else db' == db
            case DoRefund(id) =>
              if id in db.orders && (db.orders[id].status == Paid || db.orders[id].status == Completed)
                 && db.orders[id].user in db.balances
              then var o := db.orders[id]; var after := db.balances[o.user] - o.amount;
                   && db'.orders == db.orders[id := o.(status := Refunded)]
                   && db'.balances == db.balances[o.user := after] && db'.sweeps == db.sweeps
                   && db'.ledger == db.ledger + [Tx(o.user, -o.amount, after, Refund, Some(id))]
              else db' == db
            case DoSupportRefund(id) =>
              if id in db.orders && db.orders[id].status == Paid && db.orders[id].user in db.balances
              then var o := db.orders[id]; var after := db.balances[o.user] + o.amount;
                   && db'.orders == db.orders[id := o.(status := Refunded)]
                   && db'.balances == db.balances[o.user := after] && db'.sweeps == db.sweeps
                   && db'.ledger == db.ledger + [Tx(o.user, o.amount, after, Refund, Some(id))]
              else db' == db
            case Credit(u, amount, kind) =>
              if u in db.balances && amount > 0 && (kind == ManualCredit || kind == ReferralBonus)
              then var after := db.balances[u] + amount;
                   && db' == db.(balances := db.balances[u := after], ledger := db.ledger + [Tx(u, amount, after, kind, None)])
              else db' == db
            case Debit(u, amount) =>
              if u in db.balances && 0 < amount <= db.balances[u]
              then var after := db.balances[u] - amount;
                   && db' == db.(balances := db.balances[u := after], ledger := db.ledger + [Tx(u, -amount, after, ManualDebit, None)])
              else db' == db
            case SweepSelect(ids, now) =>
              && db' == db.(sweeps := db'.sweeps)
              && db'.sweeps == db.sweeps
                   + if forall id :: id in ids ==> && id in db.orders && db.orders[id].status == AwaitingPayment
                                                   && db.orders[id].expiresAt.Some? && db.orders[id].expiresAt.value < now
                     then {ids} else {}
            case SweepUpdate(ids) =>
              && db' == db.(orders := db'.orders) && db'.orders.Keys == db.orders.Keys
              && forall id :: id in db.orders ==>
                   db'.orders[id] == if ids in db.sweeps && id in ids then db.orders[id].(status := Expired) else db.orders[id]
  {
    match step
    case Webhook(id, _, _, _, sellable) => if id in db.orders { FulfilExactly(db, id, sellable); }
    case ConfirmStars(id, sellable) => if id in db.orders { FulfilExactly(db, id, sellable); }
    case SweepSelect(ids, now) => OverdueExactly(db, ids, now);
    case _ =>
  }

  /** A database before the first order, with the given opening balances. */
  function Opening(balances: map<UserId, Money>): Db {
    Db(map[], balances, [], {})
  }

  // ---- At most one payment and one refund --------------------------------------

  function Count(ledger: seq<Tx>, id: OrderId, kind: TxKind): nat {
    if ledger == [] then 0
    else
      var tx := ledger[|ledger| - 1];
      Count(ledger[..|ledger| - 1], id, kind) + if tx.order == Some(id) && tx.kind == kind then 1 else 0
  }

  lemma CountAppend(ledger: seq<Tx>, tx: Tx, id: OrderId, kind: TxKind)
    ensures Count(ledger + [tx], id, kind) == Count(ledger, id, kind) + if tx.order == Some(id) && tx.kind == kind then 1 else 0
  {
    assert (ledger + [tx])[..|ledger|] == ledger;
  }

  /** What the log may hold about an order in each status. */
  ghost predicate Consistent(db: Db, id: OrderId) {
    var payments, refunds := Count(db.ledger, id, Payment), Count(db.ledger, id, Refund);
    if id !in db.orders then payments == 0 && refunds == 0
    else
      var o := db.orders[id];
      && payments <= 1 && refunds <= 1
      && o.user in db.balances
      && match o.status
         case AwaitingPayment => External(o) && payments == 0 && refunds == 0
         case Completed => payments == (if External(o) then 1 else 0) && refunds == 0
         case Refunded => payments == (if External(o) then 1 else 0) && refunds == 1
         case Expired => External(o) && refunds <= payments
         case _ => false
  }

  predicate External(o: Order) {
    o.provider == Gateway || o.provider == Stars
  }

  ghost predicate AllConsistent(db: Db) {
    && (forall id :: Consistent(db, id))
    && (forall ids, id :: ids in db.sweeps && id in ids ==> id in db.orders && External(db.orders[id]))
  }

  lemma PostCounts(db: Db, u: UserId, amount: Money, kind: TxKind, order: Option<OrderId>, id: OrderId)
    requires u in db.balances
    ensures var db' := Post(db, u, amount, kind, order);
            && Count(db'.ledger, id, Payment)
               == Count(db.ledger, id, Payment) + (if order == Some(id) && kind == Payment then 1 else 0)
            && Count(db'.ledger, id, Refund)
               == Count(db.ledger, id, Refund) + (if order == Some(id) && kind == Refund then 1 else 0)
  {
    var tx := Tx(u, amount, db.balances[u] + amount, kind, order);
    CountAppend(db.ledger, tx, id, Payment);
    CountAppend(db.ledger, tx, id, Refund);
  }

  /** Fulfilling writes one payment for an order still awaiting it, and nothing otherwise. */
  lemma FulfilCounts(db: Db, x: OrderId, sellable: set<PlanId>, id: OrderId)
    requires x in db.orders
    ensures var db' := Fulfil(db, x, sellable);
            && Count(db'.ledger, id, Refund) == Count(db.ledger, id, Refund)
            && Count(db'.ledger, id, Payment)
               == Count(db.ledger, id, Payment) + (if id == x && db' != db then 1 else 0)
            && db'.balances.Keys == db.balances.Keys && db'.sweeps == db.sweeps
            && (db' != db ==> db.orders[x].status == AwaitingPayment
                              && db'.orders == db.orders[x := db.orders[x].(status := Completed)])
  {
    hide Count;
    var o := db.orders[x];
    if !IsFinal(o.status) && o.status != Expired && o.user in db.balances {
      PostCounts(db, o.user, o.amount, Payment, Some(x), id);
      var paid := Post(db, o.user, o.amount, Payment, Some(x));
      PostCounts(paid, o.user, -o.amount, PurchaseKind(o), Some(x), id);
      assert |Fulfil(db, x, sellable).ledger| > |db.ledger|;
    }
  }

  lemma FulfilConsistent(db: Db, x: OrderId, sellable: set<PlanId>)
    requires AllConsistent(db) && x in db.orders
    ensures AllConsistent(Fulfil(db, x, sellable))
  {
    forall id ensures Consistent(Fulfil(db, x, sellable), id) {
      FulfilCounts(db, x, sellable, id);
      assert Consistent(db, id);
    }
    FulfilCounts(db, x, sellable, x);
  }

  lemma RefundConsistent(db: Db, x: OrderId)
    requires AllConsistent(db)
    ensures AllConsistent(RefundOrder(db, x))
  {
    if x in db.orders && IsRefundable(db.orders[x].status) && db.orders[x].user in db.balances {
      forall id ensures Consistent(RefundOrder(db, x), id) {
        PostCounts(db, db.orders[x].user, -db.orders[x].amount, Refund, Some(x), id);
        assert Consistent(db, id);
      }
    }
  }

  lemma BalanceOrderConsistent(db: Db, x: OrderId, o: Order)
    requires AllConsistent(db)
    ensures AllConsistent(PayFromBalance(db, x, o))
  {
    var db' := PayFromBalance(db, x, o);
    if db' != db {
      forall id ensures Consistent(db', id) {
        var placed := db.(orders := db.orders[x := o.(provider := Balance, status := Completed)]);
        PostCounts(placed, o.user, -o.amount, PurchaseKind(o), Some(x), id);
        assert Consistent(db, id);
      }
    }
  }

  lemma ManualConsistent(db: Db, u: UserId, amount: Money, kind: TxKind)
    requires AllConsistent(db) && u in db.balances
    ensures AllConsistent(Post(db, u, amount, kind, None))
  {
    forall id ensures Consistent(Post(db, u, amount, kind, None), id) {
      PostCounts(db, u, amount, kind, None, id);
      assert Consistent(db, id);
    }
  }

  lemma ExpireConsistent(db: Db, ids: set<OrderId>)
    requires AllConsistent(db) && ids in db.sweeps
    ensures AllConsistent(Expire(db, ids))
  {
    forall id ensures Consistent(Expire(db, ids), id) {
      assert Consistent(db, id);
    }
  }

  lemma StatusOnlyConsistent(db: Db, db': Db)
    requires AllConsistent(db) && db'.ledger == db.ledger && db'.balances == db.balances
    requires forall ids :: ids in db'.sweeps ==> ids in db.sweeps || ids <= db.orders.Keys
    requires forall ids, id :: ids in db'.sweeps && ids !in db.sweeps && id in ids ==> External(db.orders[id])
    requires forall id :: id in db.orders ==>
               id in db'.orders && (db'.orders[id] == db.orders[id]
                 || (db.orders[id].status == AwaitingPayment && db'.orders[id] == db.orders[id].(status := Expired)))
    requires forall id :: id in db'.orders && id !in db.orders ==>
               && db'.orders[id].user in db.balances
               && (db'.orders[id].status == AwaitingPayment
                   || (db'.orders[id].status == Completed && !External(db'.orders[id])))
               && (db'.orders[id].status == AwaitingPayment ==> External(db'.orders[id]))
    ensures AllConsistent(db')
  {
    forall id ensures Consistent(db', id) {
      assert Consistent(db, id);
    }
  }

  lemma StepConsistent(db: Db, step: Step)
    requires AllConsistent(db)
    ensures AllConsistent(Next(db, step))
  {
    match step
    case PlaceOrder(_, _) => StatusOnlyConsistent(db, Next(db, step));
    case PlaceBalanceOrder(id, o) => BalanceOrderConsistent(db, id, o);
    case PlaceFreeOrder(_, _, _) => StatusOnlyConsistent(db, Next(db, step));
    case Webhook(id, amount, paid, cancelled, sellable) =>
      if id in db.orders && !(amount > 0 && amount != db.orders[id].amount) && paid {
        FulfilConsistent(db, id, sellable);
      } else {
        StatusOnlyConsistent(db, Next(db, step));
      }
    case ConfirmStars(id, sellable) =>
      if id in db.orders && db.orders[id].provider == Stars { FulfilConsistent(db, id, sellable); }
    case DoRefund(id) => RefundConsistent(db, id);
    case DoSupportRefund(id) => assert Consistent(db, id);
    case Credit(u, amount, kind) => if u in db.balances { ManualConsistent(db, u, amount, kind); }
    case Debit(u, amount) => if u in db.balances { ManualConsistent(db, u, -amount, ManualDebit); }
    case SweepSelect(ids, now) => SelectConsistent(db, ids, now);
    case SweepUpdate(ids) => if ids in db.sweeps { ExpireConsistent(db, ids); }
  }

  lemma SelectConsistent(db: Db, ids: set<OrderId>, now: Time)
    requires AllConsistent(db)
    ensures AllConsistent(Next(db, SweepSelect(ids, now)))
  {
    forall id | id in ids && ids <= Overdue(db, now) ensures id in db.orders && External(db.orders[id]) {
      assert Consistent(db, id);
    }
    StatusOnlyConsistent(db, Next(db, SweepSelect(ids, now)));
  }

  lemma {:induction false} RunConsistent(db: Db, steps: seq<Step>)
    requires AllConsistent(db)
    ensures AllConsistent(Run(db, steps))
    decreases |steps|
  {
    if steps != [] {
      StepConsistent(db, steps[0]);
      RunConsistent(Next(db, steps[0]), steps[1..]);
    }
  }

  /**
    At most once. However webhooks are repeated and however confirmations, cancellations, refunds
    and the halves of the sweep interleave, an order is credited at most once and refunded at most
    once, a refund of an external order always follows its payment, and no order ever rests in status
    paid.
   */
  lemma AtMostOnce(balances: map<UserId, Money>, steps: seq<Step>, id: OrderId)
    ensures var db := Run(Opening(balances), steps);
            && Count(db.ledger, id, Payment) <= 1
            && Count(db.ledger, id, Refund) <= 1
            && (id in db.orders ==>
                  var o := db.orders[id];
                  && o.status != Paid && o.status != Failed
                  && (External(o) && (o.status == Completed || o.status == Refunded) ==> Count(db.ledger, id, Payment) == 1)
                  && (External(o) ==> Count(db.ledger, id, Refund) <= Count(db.ledger, id, Payment))
                  && (o.status == Refunded ==> Count(db.ledger, id, Refund) == 1)
                  && (o.status == Completed || o.status == AwaitingPayment ==> Count(db.ledger, id, Refund) == 0)
                  && SupportRefund(db, id) == db)
  {
    assert AllConsistent(Opening(balances)) by {
      forall x ensures Consistent(Opening(balances), x) {
      }
    }
    RunConsistent(Opening(balances), steps);
    assert Consistent(Run(Opening(balances), steps), id);
  }

  // ---- The sweep ------------------------------------------------------------------

  /** A sweep's UPDATE spares every settled order exactly when each listed order still waits or is expired already. */
  lemma SweepSparesSettled(db: Db, ids: set<OrderId>)
    ensures (forall id :: id in db.orders && db.orders[id].status != AwaitingPayment ==>
               Expire(db, ids).orders[id] == db.orders[id])
        <==> (forall id :: id in ids && id in db.orders ==>
                db.orders[id].status == AwaitingPayment || db.orders[id].status == Expired)
  {
    if id :| id in ids && id in db.orders && db.orders[id].status != AwaitingPayment && db.orders[id].status != Expired {
      assert Expire(db, ids).orders[id].status == Expired;
    }
  }

  predicate Settled(db: Db, id: OrderId) {
    id in db.orders && (db.orders[id].status == Completed || db.orders[id].status == Refunded)
  }

  /** The step is the UPDATE of a recorded sweep that lists the order. */
  predicate SweptBy(db: Db, step: Step, id: OrderId) {
    step.SweepUpdate? && step.ids in db.sweeps && id in step.ids
  }

  predicate SweptAlong(db: Db, steps: seq<Step>, id: OrderId)
    decreases |steps|
  {
    steps != [] && (SweptBy(db, steps[0], id) || SweptAlong(Next(db, steps[0]), steps[1..], id))
  }

  /** A settled order stays settled unless a sweep that lists it is carried out; an expired one stays expired. */
  lemma SettledStep(db: Db, step: Step, id: OrderId)
    requires id in db.orders && (Settled(db, id) || db.orders[id].status == Expired)
    ensures var db' := Next(db, step);
            && id in db'.orders
            && (db.orders[id].status == Expired ==> db'.orders[id].status == Expired)
            && (Settled(db, id) ==> if SweptBy(db, step, id) then db'.orders[id].status == Expired else Settled(db', id))
            && (forall ids :: ids in db'.sweeps && ids !in db.sweeps ==> id !in ids)
  {
  }

  lemma {:induction false} ExpiredStays(db: Db, steps: seq<Step>, id: OrderId)
    requires id in db.orders && db.orders[id].status == Expired
    ensures id in Run(db, steps).orders && Run(db, steps).orders[id].status == Expired
    decreases |steps|
  {
    if steps != [] {
      SettledStep(db, steps[0], id);
      ExpiredStays(Next(db, steps[0]), steps[1..], id);
    }
  }

  /** Along any run a settled order ends expired if and only if a recorded sweep that lists it is carried out. */
  lemma {:induction false} PaidOrderExpires(db: Db, steps: seq<Step>, id: OrderId)
    requires Settled(db, id)
    ensures id in Run(db, steps).orders
    ensures Run(db, steps).orders[id].status == Expired <==> SweptAlong(db, steps, id)
    decreases |steps|
  {
    if steps != [] {
      SettledStep(db, steps[0], id);
      if SweptBy(db, steps[0], id) {
        ExpiredStays(Next(db, steps[0]), steps[1..], id);
      } else {
        PaidOrderExpires(Next(db, steps[0]), steps[1..], id);
      }
    }
  }

  predicate Listed(db: Db, id: OrderId) {
    exists ids :: ids in db.sweeps && id in ids
  }

  lemma {:induction false} UnlistedStaysSettled(db: Db, steps: seq<Step>, id: OrderId)
    requires Settled(db, id) && !Listed(db, id)
    ensures Settled(Run(db, steps), id)
    decreases |steps|
  {
    if steps != [] {
      SettledStep(db, steps[0], id);
      UnlistedStaysSettled(Next(db, steps[0]), steps[1..], id);
    }
  }

  /** So what is settled is safe from then on exactly when no sweep selected before lists it. */
  lemma PaidOrderIsSafe(db: Db, id: OrderId)
    requires Settled(db, id)
    ensures (forall steps :: Settled(Run(db, steps), id)) <==> !Listed(db, id)
  {
    if Listed(db, id) {
      var ids :| ids in db.sweeps && id in ids;
      var step := SweepUpdate(ids);
      assert [step][1..] == [];
      PaidOrderExpires(db, [step], id);
      assert SweptBy(db, [step][0], id);
      assert !Settled(Run(db, [step]), id);
    } else {
      forall steps ensures Settled(Run(db, steps), id) {
        UnlistedStaysSettled(db, steps, id);
      }
    }
  }

  /**
    Every overdue order is exposed to it: selected by a sweep, paid and completed by its webhook, then
    overwritten by the sweep's UPDATE, it ends up expired with its payment booked, and no refund is possible.
   */
  lemma SweepCanOverwritePaidOrder(db: Db, id: OrderId, now: Time, sellable: set<PlanId>)
    requires id in Overdue(db, now) && db.orders[id].user in db.balances
    ensures var selected := Next(db, SweepSelect({id}, now));
            var completed := Next(selected, Webhook(id, db.orders[id].amount, true, false, sellable));
            var swept := Next(completed, SweepUpdate({id}));
            && completed.orders[id].status == Completed
            && swept.orders[id].status == Expired
            && Count(swept.ledger, id, Payment) == Count(db.ledger, id, Payment) + 1
            && RefundOrder(swept, id) == swept
  {
    hide Count;
    FulfilCounts(Next(db, SweepSelect({id}, now)), id, sellable, id);
  }

  // ---- The ledger -----------------------------------------------------------------

  function Total(ledger: seq<Tx>, u: UserId): Money {
    if ledger == [] then 0
    else
      var tx := ledger[|ledger| - 1];
      Total(ledger[..|ledger| - 1], u) + if tx.user == u then tx.amount else 0
  }

  /** Balances are opening balances plus recorded amounts, entry by entry. */
  ghost predicate LedgerAgrees(opening: map<UserId, Money>, balances: map<UserId, Money>, ledger: seq<Tx>) {
    && balances.Keys == opening.Keys
    && (forall u :: u in opening ==> balances[u] == opening[u] + Total(ledger, u))
    && (forall k :: 0 <= k < |ledger| ==> RunningTotal(opening, ledger, k))
  }

  predicate RunningTotal(opening: map<UserId, Money>, ledger: seq<Tx>, k: nat)
    requires k < |ledger|
  {
    var tx := ledger[k];
    tx.user in opening && tx.balanceAfter == opening[tx.user] + Total(ledger[..k + 1], tx.user)
  }

  lemma PostAgrees(opening: map<UserId, Money>, db: Db, u: UserId, amount: Money, kind: TxKind, order: Option<OrderId>)
    requires LedgerAgrees(opening, db.balances, db.ledger) && u in db.balances
    ensures var db' := Post(db, u, amount, kind, order); LedgerAgrees(opening, db'.balances, db'.ledger)
  {
    var db' := Post(db, u, amount, kind, order);
    assert db'.ledger[..|db.ledger|] == db.ledger && db'.ledger[..|db'.ledger|] == db'.ledger;
    forall k | 0 <= k < |db'.ledger| ensures RunningTotal(opening, db'.ledger, k) {
      if k < |db.ledger| {
        assert RunningTotal(opening, db.ledger, k);
        assert db'.ledger[..k + 1] == db.ledger[..k + 1];
      }
    }
  }

  lemma FulfilAgrees(opening: map<UserId, Money>, db: Db, id: OrderId, sellable: set<PlanId>)
    requires LedgerAgrees(opening, db.balances, db.ledger) && id in db.orders
    ensures var db' := Fulfil(db, id, sellable); LedgerAgrees(opening, db'.balances, db'.ledger)
  {
    hide LedgerAgrees;
    var o := db.orders[id];
    if !IsFinal(o.status) && o.status != Expired && o.user in db.balances {
      PostAgrees(opening, db, o.user, o.amount, Payment, Some(id));
      PostAgrees(opening, Post(db, o.user, o.amount, Payment, Some(id)), o.user, -o.amount, PurchaseKind(o), Some(id));
    }
  }

  lemma StepAgrees(opening: map<UserId, Money>, db: Db, step: Step)
    requires LedgerAgrees(opening, db.balances, db.ledger)
    ensures var db' := Next(db, step); LedgerAgrees(opening, db'.balances, db'.ledger)
  {
    hide LedgerAgrees;
    match step
    case PlaceBalanceOrder(id, o) =>
      if o.user in db.balances {
        var placed := db.(orders := db.orders[id := o.(provider := Balance, status := Completed)]);
        PostAgrees(opening, placed, o.user, -o.amount, PurchaseKind(o), Some(id));
      }
    case Webhook(id, _, _, _, sellable) => if id in db.orders { FulfilAgrees(opening, db, id, sellable); }
    case ConfirmStars(id, sellable) => if id in db.orders { FulfilAgrees(opening, db, id, sellable); }
    case DoRefund(id) =>
      if id in db.orders && db.orders[id].user in db.balances {
        PostAgrees(opening, db, db.orders[id].user, -db.orders[id].amount, Refund, Some(id));
      }
    case DoSupportRefund(id) =>
      if id in db.orders && db.orders[id].user in db.balances {
        PostAgrees(opening, db, db.orders[id].user, db.orders[id].amount, Refund, Some(id));
      }
    case Credit(u, amount, kind) => if u in db.balances { PostAgrees(opening, db, u, amount, kind, None); }
    case Debit(u, amount) => if u in db.balances { PostAgrees(opening, db, u, -amount, ManualDebit, None); }
    case _ =>
  }

  /** Every run leaves each balance equal to its opening plus the log, and each entry a running total. */
  lemma {:induction false} LedgerConsistency(opening: map<UserId, Money>, db: Db, steps: seq<Step>)
    requires LedgerAgrees(opening, db.balances, db.ledger)
    ensures var db' := Run(db, steps); LedgerAgrees(opening, db'.balances, db'.ledger)
    decreases |steps|
  {
    if steps != [] {
      StepAgrees(opening, db, steps[0]);
      LedgerConsistency(opening, Next(db, steps[0]), steps[1..]);
    }
  }

  // ---- Balances that stay non-negative ------------------------------------------------

  /** Orders are placed for amounts that are not negative. */
  predicate FairAmount(step: Step) {
    step.PlaceOrder? || step.PlaceBalanceOrder? ==> step.order.amount >= 0
  }

  predicate FairAmounts(steps: seq<Step>) {
    forall k :: 0 <= k < |steps| ==> FairAmount(steps[k])
  }

  ghost predicate NonNegative(db: Db) {
    && (forall u :: u in db.balances ==> db.balances[u] >= 0)
    && (forall id :: id in db.orders ==> db.orders[id].amount >= 0)
    && (forall k :: 0 <= k < |db.ledger| ==> db.ledger[k].balanceAfter >= 0)
  }

  /** A refund that takes effect finds a balance that covers it; the code does not look. */
  predicate RefundCovered(db: Db, step: Step) {
    step.DoRefund? && step.id in db.orders && IsRefundable(db.orders[step.id].status)
      && db.orders[step.id].user in db.balances ==>
      db.balances[db.orders[step.id].user] >= db.orders[step.id].amount
  }

  predicate RefundsCovered(db: Db, steps: seq<Step>)
    decreases |steps|
  {
    steps != [] ==> RefundCovered(db, steps[0]) && RefundsCovered(Next(db, steps[0]), steps[1..])
  }

  /** Some entry was written with a negative balance; entries are never taken back. */
  ghost predicate Dented(db: Db) {
    exists k :: 0 <= k < |db.ledger| && db.ledger[k].balanceAfter < 0
  }

  lemma StepSolvent(db: Db, step: Step)
    requires NonNegative(db) && FairAmount(step)
    ensures RefundCovered(db, step) ==> NonNegative(Next(db, step))
    ensures !RefundCovered(db, step) ==> Dented(Next(db, step))
  {
    if !RefundCovered(db, step) {
      var db' := Next(db, step);
      assert db'.ledger[|db.ledger|].balanceAfter < 0;
    }
  }

  lemma {:induction false} DentStays(db: Db, steps: seq<Step>)
    requires Dented(db)
    ensures Dented(Run(db, steps))
    decreases |steps|
  {
    if steps != [] {
      var k :| 0 <= k < |db.ledger| && db.ledger[k].balanceAfter < 0;
      var db' := Next(db, steps[0]);
      assert k < |db'.ledger| && db'.ledger[k] == db.ledger[k];
      DentStays(db', steps[1..]);
    }
  }

  /**
    Exactly when money stays non-negative: no balance is negative after a run, and none ever was on
    the way, if and only if every refund that took effect found a balance covering it.
   */
  lemma {:induction false} SolventExactly(db: Db, steps: seq<Step>)
    requires NonNegative(db) && FairAmounts(steps)
    ensures NonNegative(Run(db, steps)) <==> RefundsCovered(db, steps)
    decreases |steps|
  {
    if steps != [] {
      hide NonNegative, Dented, Next, RefundCovered;
      assert FairAmount(steps[0]);
      StepSolvent(db, steps[0]);
      if RefundCovered(db, steps[0]) {
        SolventExactly(Next(db, steps[0]), steps[1..]);
      } else {
        DentStays(Next(db, steps[0]), steps[1..]);
        DentedIsNegative(Run(db, steps));
      }
    }
  }

  lemma DentedIsNegative(db: Db)
    requires Dented(db)
    ensures !NonNegative(db)
  {
  }

  /** No refunds, no orders of negative amount. */
  predicate Solvent(step: Step) {
    !step.DoRefund? && FairAmount(step)
  }

  lemma {:induction false} WithoutRefundsCovered(db: Db, steps: seq<Step>)
    requires forall k :: 0 <= k < |steps| ==> Solvent(steps[k])
    ensures RefundsCovered(db, steps) && FairAmounts(steps)
    decreases |steps|
  {
    if steps != [] {
      assert Solvent(steps[0]);
      WithoutRefundsCovered(Next(db, steps[0]), steps[1..]);
    }
  }

  lemma RefundFreeRunsStaySolvent(db: Db, steps: seq<Step>)
    requires NonNegative(db) && forall k :: 0 <= k < |steps| ==> Solvent(steps[k])
    ensures NonNegative(Run(db, steps))
  {
    WithoutRefundsCovered(db, steps);
    SolventExactly(db, steps);
  }

  /** Everything refunds have taken back from the user. */
  function Returned(ledger: seq<Tx>, u: UserId): nat {
    if ledger == [] then 0
    else
      var tx := ledger[|ledger| - 1];
      Returned(ledger[..|ledger| - 1], u) + if tx.user == u && tx.kind == Refund then Max(0, -tx.amount) else 0
  }

  ghost predicate DebtIsRefunds(db: Db) {
    && (forall u :: u in db.balances ==> db.balances[u] + Returned(db.ledger, u) >= 0)
    && (forall id :: id in db.orders ==> db.orders[id].amount >= 0)
  }

  /** Credits, covered debits and refunds keep the bound. */
  lemma PostKeepsDebt(db: Db, u: UserId, amount: Money, kind: TxKind, order: Option<OrderId>)
    requires DebtIsRefunds(db) && u in db.balances
    requires amount >= 0 || db.balances[u] + amount >= 0 || kind == Refund
    ensures DebtIsRefunds(Post(db, u, amount, kind, order))
  {
    var db' := Post(db, u, amount, kind, order);
    assert db'.ledger[..|db.ledger|] == db.ledger;
    assert forall v :: Returned(db'.ledger, v) >= Returned(db.ledger, v);
  }

  lemma FulfilKeepsDebt(db: Db, id: OrderId, sellable: set<PlanId>)
    requires DebtIsRefunds(db) && id in db.orders
    ensures DebtIsRefunds(Fulfil(db, id, sellable))
  {
    hide Returned;
    var o := db.orders[id];
    if !IsFinal(o.status) && o.status != Expired && o.user in db.balances {
      PostKeepsDebt(db, o.user, o.amount, Payment, Some(id));
      var paid := Post(db, o.user, o.amount, Payment, Some(id));
      if paid.balances[o.user] >= o.amount {
        PostKeepsDebt(paid, o.user, -o.amount, PurchaseKind(o), Some(id));
      }
    }
  }

  lemma StepKeepsDebt(db: Db, step: Step)
    requires DebtIsRefunds(db)
    requires FairAmount(step)
    ensures DebtIsRefunds(Next(db, step))
  {
    hide Returned;
    match step
    case PlaceBalanceOrder(id, o) =>
      if id !in db.orders && o.user in db.balances && db.balances[o.user] >= o.amount {
        var placed := db.(orders := db.orders[id := o.(provider := Balance, status := Completed)]);
        PostKeepsDebt(placed, o.user, -o.amount, PurchaseKind(o), Some(id));
      }
    case Webhook(id, _, _, _, sellable) => if id in db.orders { FulfilKeepsDebt(db, id, sellable); }
    case ConfirmStars(id, sellable) => if id in db.orders { FulfilKeepsDebt(db, id, sellable); }
    case DoRefund(id) =>
      if id in db.orders && db.orders[id].user in db.balances {
        PostKeepsDebt(db, db.orders[id].user, -db.orders[id].amount, Refund, Some(id));
      }
    case DoSupportRefund(id) =>
      if id in db.orders && db.orders[id].user in db.balances {
        PostKeepsDebt(db, db.orders[id].user, db.orders[id].amount, Refund, Some(id));
      }
    case Credit(u, amount, kind) => if u in db.balances && amount > 0 { PostKeepsDebt(db, u, amount, kind, None); }
    case Debit(u, amount) =>
      if u in db.balances && db.balances[u] >= amount { PostKeepsDebt(db, u, -amount, ManualDebit, None); }
    case _ =>
  }

  /** Refunds included: no run takes a balance further below zero than refunds have taken back from that user. */
  lemma {:induction false} OnlyRefundsMakeDebt(db: Db, steps: seq<Step>)
    requires DebtIsRefunds(db) && FairAmounts(steps)
    ensures DebtIsRefunds(Run(db, steps))
    decreases |steps|
  {
    if steps != [] {
      hide DebtIsRefunds, Next;
      assert FairAmount(steps[0]);
      StepKeepsDebt(db, steps[0]);
      OnlyRefundsMakeDebt(Next(db, steps[0]), steps[1..]);
    }
  }

  /**
    Fulfilling a payment for slots or for a sellable plan nets exactly zero when the balance was not
    negative before; otherwise the inner check fails and the payment just stays on the balance.
   */
  lemma FulfilmentNetsZero(db: Db, id: OrderId, sellable: set<PlanId>)
    requires id in db.orders && db.orders[id].status == AwaitingPayment && db.orders[id].user in db.balances
    requires Buys(db.orders[id], sellable)
    ensures var o := db.orders[id]; var db' := Fulfil(db, id, sellable); var before := db.balances[o.user];
            && (before >= 0 ==> db'.balances == db.balances && |db'.ledger| == |db.ledger| + 2)
            && (before < 0 ==> db'.balances == db.balances[o.user := before + o.amount] && |db'.ledger| == |db.ledger| + 1)
            && db'.orders[id].status == Completed
  {
  }

  /** So after any run whose refunds were covered the next such fulfilment leaves every balance where it was. */
  lemma SolventFulfilmentNetsZero(db: Db, steps: seq<Step>, id: OrderId, sellable: set<PlanId>)
    requires NonNegative(db) && FairAmounts(steps) && RefundsCovered(db, steps)
    requires id in Run(db, steps).orders
    requires var o := Run(db, steps).orders[id]; o.status == AwaitingPayment && o.user in Run(db, steps).balances && Buys(o, sellable)
    ensures Fulfil(Run(db, steps), id, sellable).balances == Run(db, steps).balances
  {
    SolventExactly(db, steps);
    FulfilmentNetsZero(Run(db, steps), id, sellable);
  }

  function PlanOrder(amount: Money): Order {
    Order(7, amount, Gateway, PlanPurchase, Some(3), None, AwaitingPayment)
  }

  /**
    The failing case of both: a user without money pays for a plan, has the payment refunded after the
    plan was bought with it, and so owes its price; the next plan paid for is then not bought.
   */
  lemma RefundThenPurchaseFails(a: Money, b: Money)
    requires a > 0 && b > 0
    ensures var paid := Next(Next(Opening(map[7 := 0]), PlaceOrder(1, PlanOrder(a))), Webhook(1, a, true, false, {3}));
            var refunded := Next(paid, DoRefund(1));
            var again := Next(Next(refunded, PlaceOrder(2, PlanOrder(b))), Webhook(2, b, true, false, {3}));
            && NonNegative(paid) && paid.balances == map[7 := 0]
            && !RefundCovered(paid, DoRefund(1))
            && refunded.balances == map[7 := -a]
            && again.orders[2].status == Completed && again.balances == map[7 := b - a]
            && again.ledger == refunded.ledger + [Tx(7, b, b - a, Payment, Some(2))]
  {
    var placed := Next(Opening(map[7 := 0]), PlaceOrder(1, PlanOrder(a)));
    assert placed.orders == map[1 := PlanOrder(a)];
    var paid := Next(placed, Webhook(1, a, true, false, {3}));
    assert paid.ledger == [Tx(7, a, a, Payment, Some(1)), Tx(7, -a, 0, Purchase, Some(1))];
    assert paid.balances == map[7 := 0];
    var refunded := Next(paid, DoRefund(1));
    assert refunded.balances == map[7 := -a];
    var placedAgain := Next(refunded, PlaceOrder(2, PlanOrder(b)));
    assert placedAgain.orders[2] == PlanOrder(b);
  }
}
