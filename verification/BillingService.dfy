/** The billing calls as they run: statement by statement inside one transaction. */
module BillingService {
  import opened Common
  import opened Billing

  datatype Outcome = Done | NotFound | AmountMismatch | AlreadyProcessed | OrderExpired | UserMissing
                   | WrongProvider | NotRefundable | InsufficientBalance | DuplicateOrder

  lemma AllTaken(ids: set<OrderId>, all: set<OrderId>)
    requires ids <= all && |ids| == |all|
    ensures ids == all
  {
    assert all == ids + (all - ids);
    assert |all| == |ids| + |all - ids|;
  }

  class BillingService {
    var orders: map<OrderId, Order>
    var balances: map<UserId, Money>
    var ledger: seq<Tx>

    ghost function View(): Db
      reads this
    {
      Db(orders, balances, ledger, {})
    }

    /** Balance update and log entry always go together, so balances stay what the log says. */
    method RecordTransaction(u: UserId, amount: Money, kind: TxKind, order: Option<OrderId>)
      requires u in balances
      modifies this
      ensures View() == Post(old(View()), u, amount, kind, order)
      ensures forall opening :: LedgerAgrees(opening, old(balances), old(ledger)) ==> LedgerAgrees(opening, balances, ledger)
    {
      forall opening | LedgerAgrees(opening, balances, ledger)
        ensures var db := Post(View(), u, amount, kind, order); LedgerAgrees(opening, db.balances, db.ledger)
      {
        PostAgrees(opening, View(), u, amount, kind, order);
      }
      var newBalance := balances[u] + amount;
      balances := balances[u := newBalance];
      ledger := ledger + [Tx(u, amount, newBalance, kind, order)];
    }

    method UpdateStatus(id: OrderId, s: Status)
      requires id in orders
      modifies this`orders
      ensures View() == SetStatus(old(View()), id, s)
    {
      orders := orders[id := orders[id].(status := s)];
    }

    /** The debit shared by plan and slot purchases; false when the balance is too small. */
    method ChargeBalance(id: OrderId, kind: TxKind) returns (charged: bool)
      requires id in orders && orders[id].user in balances
      modifies this
      ensures charged == (old(balances)[old(orders)[id].user] >= old(orders)[id].amount)
      ensures View() == BuyIfCovered(old(View()), id, kind)
    {
      var o := orders[id];
      if balances[o.user] < o.amount {
        return false;
      }
      RecordTransaction(o.user, -o.amount, kind, Some(id));
      return true;
    }

    method FulfillOrderLocked(id: OrderId, sellable: set<PlanId>) returns (r: Outcome)
      requires id in orders
      modifies this
      ensures View() == Fulfil(old(View()), id, sellable)
      ensures r == match old(orders)[id].status
                   case AwaitingPayment => if old(orders)[id].user in old(balances) then Done else UserMissing
                   case Expired => OrderExpired
                   case _ => AlreadyProcessed
      ensures r != Done ==> View() == old(View())
      ensures r == Done ==> Fulfilled(old(View()), View(), id, sellable)
    {
      FulfilExactly(View(), id, sellable);
      var o := orders[id];
      if IsFinal(o.status) { return AlreadyProcessed; }
      if o.status == Expired { return OrderExpired; }
      if o.user !in balances { return UserMissing; }
      UpdateStatus(id, Paid);
      RecordTransaction(o.user, o.amount, Payment, Some(id));
      if o.kind == DeviceSlots {
        var _ := ChargeBalance(id, SlotPurchase);
      } else if o.plan.Some? && o.plan.value in sellable {
        var _ := ChargeBalance(id, Purchase);
      }
      UpdateStatus(id, Completed);
      return Done;
    }

    /** `paid` tells a payment event from any other; `cancelled` a cancellation. */
    method ProcessWebhook(id: OrderId, amount: Money, paid: bool, cancelled: bool, sellable: set<PlanId>) returns (r: Outcome)
      modifies this
      ensures View() == OnWebhook(old(View()), id, amount, paid, cancelled, sellable)
      ensures r == NotFound <==> id !in old(orders)
      ensures r == AmountMismatch <==> id in old(orders) && amount > 0 && amount != old(orders)[id].amount
      ensures r == NotFound || r == AmountMismatch ==> View() == old(View())
      ensures r != NotFound && r != AmountMismatch && paid ==>
                if Payable(old(View()), id) then r == Done && Fulfilled(old(View()), View(), id, sellable)
                else r != Done && View() == old(View())
      ensures r != NotFound && r != AmountMismatch && !paid ==>
                && r == Done && balances == old(balances) && ledger == old(ledger)
                && orders == if cancelled && old(orders)[id].status == AwaitingPayment
                             then old(orders)[id := old(orders)[id].(status := Expired)] else old(orders)
    {
      if id !in orders { return NotFound; }
      if amount > 0 && amount != orders[id].amount { return AmountMismatch; }
      if !paid {
        if cancelled && orders[id].status == AwaitingPayment {
          UpdateStatus(id, Expired);
        }
        return Done;
      }
      r := FulfillOrderLocked(id, sellable);
    }

    method ConfirmStarsPayment(id: OrderId, sellable: set<PlanId>) returns (r: Outcome)
      modifies this
      ensures View() == Next(old(View()), ConfirmStars(id, sellable))
      ensures r == WrongProvider <==> id in old(orders) && old(orders)[id].provider != Stars
      ensures r == Done <==> Payable(old(View()), id) && old(orders)[id].provider == Stars
      ensures if r == Done then Fulfilled(old(View()), View(), id, sellable) else View() == old(View())
    {
      if id !in orders { return NotFound; }
      if orders[id].provider != Stars { return WrongProvider; }
      r := FulfillOrderLocked(id, sellable);
    }

    method Refund(id: OrderId) returns (r: Outcome)
      modifies this
      ensures View() == RefundOrder(old(View()), id)
      ensures r == Done <==>
                && id in old(orders) && (old(orders)[id].status == Paid || old(orders)[id].status == Completed)
                && old(orders)[id].user in old(balances)
      ensures r != Done ==> View() == old(View())
      ensures r == Done ==>
                var o := old(orders)[id]; var after := old(balances)[o.user] - o.amount;
                && orders == old(orders)[id := o.(status := Refunded)]
                && balances == old(balances)[o.user := after]
                && ledger == old(ledger) + [Tx(o.user, -o.amount, after, TxKind.Refund, Some(id))]
    {
      if id !in orders { return NotFound; }
      var o := orders[id];
      if !IsRefundable(o.status) { return NotRefundable; }
      if o.user !in balances { return UserMissing; }
      RecordTransaction(o.user, -o.amount, TxKind.Refund, Some(id));
      UpdateStatus(id, Refunded);
      return Done;
    }

    /** Creates the order as paid, charges strictly, completes; an insufficient balance rolls everything back. */
    method CreateBalanceOrder(id: OrderId, o: Order) returns (r: Outcome)
      modifies this
      ensures View() == PayFromBalance(old(View()), id, o)
      ensures r == Done <==> id !in old(orders) && o.user in old(balances) && old(balances)[o.user] >= o.amount
      ensures r != Done ==> View() == old(View())
      ensures r == Done ==>
                var after := old(balances)[o.user] - o.amount;
                && orders == old(orders)[id := o.(provider := Balance, status := Completed)]
                && balances == old(balances)[o.user := after]
                && ledger == old(ledger) + [Tx(o.user, -o.amount, after,
                                               if o.kind == DeviceSlots then SlotPurchase else Purchase, Some(id))]
    {
      if id in orders { return DuplicateOrder; }
      if o.user !in balances { return UserMissing; }
      var saved := orders;
      orders := orders[id := o.(provider := Balance, status := Paid)];
      var charged := ChargeBalance(id, PurchaseKind(o));
      if !charged {
        orders := saved;
        return InsufficientBalance;
      }
      UpdateStatus(id, Completed);
      return Done;
    }

    method CreditBalance(u: UserId, amount: Money) returns (r: Outcome)
      requires amount > 0
      modifies this
      ensures View() == Next(old(View()), Credit(u, amount, ManualCredit))
      ensures r == Done <==> u in old(balances)
      ensures orders == old(orders)
      ensures r != Done ==> View() == old(View())
      ensures r == Done ==>
                && balances == old(balances)[u := old(balances)[u] + amount]
                && ledger == old(ledger) + [Tx(u, amount, old(balances)[u] + amount, ManualCredit, None)]
    {
      if u !in balances { return UserMissing; }
      RecordTransaction(u, amount, ManualCredit, None);
      return Done;
    }

    method DebitBalance(u: UserId, amount: Money) returns (r: Outcome)
      requires amount > 0
      modifies this
      ensures View() == Next(old(View()), Debit(u, amount))
      ensures r == Done <==> u in old(balances) && old(balances)[u] >= amount
      ensures orders == old(orders)
      ensures r != Done ==> View() == old(View())
      ensures r == Done ==>
                && balances == old(balances)[u := old(balances)[u] - amount]
                && ledger == old(ledger) + [Tx(u, -amount, old(balances)[u] - amount, ManualDebit, None)]
    {
      if u !in balances { return UserMissing; }
      if balances[u] < amount { return InsufficientBalance; }
      RecordTransaction(u, -amount, ManualDebit, None);
      return Done;
    }

    /** The sweep's SELECT ... ORDER BY expires_at LIMIT. */
    method SelectOverdue(now: Time, limit: nat) returns (ids: set<OrderId>)
      ensures ids <= Overdue(View(), now)
      ensures |ids| == Min(limit, |Overdue(View(), now)|)
      ensures forall x, y :: x in ids && y in Overdue(View(), now) - ids ==>
                orders[x].expiresAt.value <= orders[y].expiresAt.value
      ensures forall id :: id in ids ==>
                && id in orders && orders[id].status == AwaitingPayment
                && orders[id].expiresAt.Some? && orders[id].expiresAt.value < now
      ensures |ids| < limit ==>
                forall id :: id in orders && id !in ids ==>
                  orders[id].status != AwaitingPayment || orders[id].expiresAt.None? || orders[id].expiresAt.value >= now
    {
      var due := map id | id in orders && orders[id].status == AwaitingPayment
                        && orders[id].expiresAt.Some? && orders[id].expiresAt.value < now :: orders[id].expiresAt.value;
      assert due.Keys == Overdue(View(), now);
      ids := EarliestFirst(due, limit);
      if |ids| < limit {
        AllTaken(ids, due.Keys);
      }
    }

    /** As many as the limit allows, always the earliest of those left. */
    method EarliestFirst(due: map<OrderId, Time>, limit: nat) returns (ids: set<OrderId>)
      ensures ids <= due.Keys && |ids| == Min(limit, |due.Keys|)
      ensures forall x, y :: x in ids && y in due.Keys - ids ==> due[x] <= due[y]
    {
      var rest := due.Keys;
      ids := {};
      while |ids| < limit && rest != {}
        invariant ids !! rest && ids + rest == due.Keys && |ids| <= limit
        invariant forall x, y :: x in ids && y in rest ==> due[x] <= due[y]
        decreases rest
      {
        var first := EarliestOf(rest, due);
        ids, rest := ids + {first}, rest - {first};
      }
      assert |due.Keys| == |ids| + |rest|;
    }

    method EarliestOf(ids: set<OrderId>, due: map<OrderId, Time>) returns (first: OrderId)
      requires ids != {} && ids <= due.Keys
      ensures first in ids
      ensures forall id :: id in ids ==> due[first] <= due[id]
    {
      var q := ListOf(ids);
      forall k | 0 <= k < |q| ensures q[k] in due {
        assert q[k] in Elements(q);
      }
      first := q[0];
      for n := 1 to |q|
        invariant first in q
        invariant forall k :: 0 <= k < n ==> due[first] <= due[q[k]]
      {
        if due[q[n]] < due[first] {
          first := q[n];
        }
      }
      assert first in Elements(q);
      assert forall id :: id in Elements(q) ==> id in q;
    }

    /** The sweep's UPDATE, by now possibly about orders that have moved on. */
    method ExpireSelected(ids: set<OrderId>) returns (count: nat)
      modifies this
      ensures View() == Expire(old(View()), ids)
      ensures balances == old(balances) && ledger == old(ledger)
      ensures orders.Keys == old(orders).Keys
      ensures forall id :: id in orders ==>
                orders[id] == if id in ids then old(orders)[id].(status := Expired) else old(orders)[id]
      ensures (forall id :: id in orders && old(orders)[id].status != AwaitingPayment ==> orders[id] == old(orders)[id])
          <==> (forall id :: id in ids && id in orders ==>
                  old(orders)[id].status == AwaitingPayment || old(orders)[id].status == Expired)
      ensures count == |ids|
    {
      SweepSparesSettled(View(), ids);
      orders := map id | id in orders :: if id in ids then orders[id].(status := Expired) else orders[id];
      count := |ids|;
    }
  }
}
