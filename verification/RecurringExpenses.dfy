/** Booking the expenses of recurring templates, however late and however often the job runs. */
module RecurringExpenses {
  import opened Common
  import opened Calendar

  type TemplateId = int
  type Money = int

  const CATCHUP_LIMIT: nat := 60

  /** Exchange rates are counted in millionths, amounts in hundredths. */
  datatype Template = Template(
    amount: Money,
    isRub: bool,
    fxRate: Option<int>,
    period: Period,
    nextRunAt: DateTime,
    active: bool)

  datatype Expense = Expense(amount: Money, amountRub: Money, incurredAt: DateTime)

  /** Booked expenses are kept by the template they came from, in order of creation. */
  datatype Books = Books(templates: map<TemplateId, Template>, expenses: map<TemplateId, seq<Expense>>)

  // ---- Conversion ------------------------------------------------------------------

  /** Decimal rounding ROUND_HALF_UP of n / d. */
  function RoundHalfUp(n: int, d: int): int
    requires d > 0
  {
    if n >= 0 then (2 * n + d) / (2 * d) else -((d - 2 * n) / (2 * d))
  }

  /** Foreign amounts need a positive rate; the result is the nearest hundredth. */
  function NormalizeToRub(amount: Money, isRub: bool, fxRate: Option<int>): (r: Option<Money>)
    ensures r.None? <==> !isRub && (fxRate.None? || fxRate.value <= 0)
    ensures r.Some? && isRub ==> r.value == amount
    ensures r.Some? && !isRub && amount >= 0 ==> -500000 < r.value * 1000000 - amount * fxRate.value <= 500000
    ensures r.Some? && !isRub && amount < 0 ==> -500000 <= r.value * 1000000 - amount * fxRate.value < 500000
  {
    if isRub then Some(amount)
    else if fxRate.None? || fxRate.value <= 0 then None
    else
      SignOfProduct(amount, fxRate.value);
      Some(RoundHalfUp(amount * fxRate.value, 1000000))
  }

  lemma SignOfProduct(a: int, b: int)
    requires b > 0
    ensures a * b >= 0 <==> a >= 0
  {
    if a < 0 { assert a * b < 0; }
  }

  function Rate(t: Template): Option<Money> {
    NormalizeToRub(t.amount, t.isRub, t.fxRate)
  }

  // ---- The orbit of a start date ---------------------------------------------------------

  function Orbit(d: DateTime, p: Period, k: nat): DateTime {
    if k == 0 then d else AdvancePeriod(Orbit(d, p, k - 1), p)
  }

  lemma {:induction false} OrbitIncreases(d: DateTime, p: Period, j: nat, k: nat)
    requires Valid(d) && j <= k
    ensures Valid(Orbit(d, p, k)) && Valid(Orbit(d, p, j))
    ensures j < k ==> Before(Orbit(d, p, j), Orbit(d, p, k))
    decreases k
  {
    if k > 0 {
      OrbitIncreases(d, p, if j < k then j else k - 1, k - 1);
      AdvanceIncreases(Orbit(d, p, k - 1), p);
      if j < k - 1 {
        BeforeTransitive(Orbit(d, p, j), Orbit(d, p, k - 1), Orbit(d, p, k));
      }
    }
  }

  lemma BeforeTransitive(a: DateTime, b: DateTime, c: DateTime)
    requires (!Before(b, a) && Before(b, c)) || (Before(a, b) && !Before(c, b))
    ensures Before(a, c)
  {
  }

  lemma {:induction false} OrbitShift(d: DateTime, p: Period, j: nat, k: nat)
    ensures Orbit(Orbit(d, p, j), p, k) == Orbit(d, p, j + k)
  {
    hide AdvancePeriod;
    if k > 0 { OrbitShift(d, p, j, k - 1); }
  }

  // ---- One template in one tick -------------------------------------------------------------

  function Due(t: Template, now: DateTime): bool {
    t.active && !Before(now, t.nextRunAt)
  }

  /** How many periods the loop books: those not after `now`, but no more than `room`. */
  function Backlog(runAt: DateTime, p: Period, now: DateTime, room: nat): nat
    decreases room
  {
    if room == 0 || Before(now, runAt) then 0 else 1 + Backlog(AdvancePeriod(runAt, p), p, now, room - 1)
  }

  /** The loop stops at the first date after `now` or at the limit, and everything it books is due. */
  lemma {:induction false} BacklogStops(runAt: DateTime, p: Period, now: DateTime, room: nat)
    ensures var n := Backlog(runAt, p, now, room);
            && n <= room
            && (n < room ==> Before(now, Orbit(runAt, p, n)))
            && (forall k :: 0 <= k < n ==> !Before(now, Orbit(runAt, p, k)))
    decreases room
  {
    hide AdvancePeriod;
    if room > 0 && !Before(now, runAt) {
      var next := AdvancePeriod(runAt, p);
      BacklogStops(next, p, now, room - 1);
      forall k: nat ensures Orbit(next, p, k) == Orbit(runAt, p, k + 1) {
        OrbitShift(runAt, p, 1, k);
        assert Orbit(runAt, p, 1) == next;
      }
      forall k | 0 <= k < Backlog(runAt, p, now, room) ensures !Before(now, Orbit(runAt, p, k)) {
        if k > 0 { assert Orbit(next, p, k - 1) == Orbit(runAt, p, k); }
      }
    }
  }

  function Booking(t: Template, k: nat): Expense
    requires Rate(t).Some?
  {
    Expense(t.amount, Rate(t).value, Orbit(t.nextRunAt, t.period, k))
  }

  /** The next n expenses of a template. */
  function Bookings(t: Template, n: nat): seq<Expense>
    requires Rate(t).Some?
  {
    seq(n, k requires 0 <= k < n => Booking(t, k))
  }

  function Advanced(t: Template, n: nat): Template {
    t.(nextRunAt := Orbit(t.nextRunAt, t.period, n))
  }

  // ---- A tick -----------------------------------------------------------------------------------

  /** Templates locked by another transaction are skipped. */
  function DueIds(b: Books, now: DateTime, locked: set<TemplateId>): set<TemplateId> {
    set i | i in b.templates && i !in locked && Due(b.templates[i], now)
  }

  function Booked(b: Books, i: TemplateId): seq<Expense> {
    if i in b.expenses then b.expenses[i] else []
  }

  function Owed(t: Template, now: DateTime): nat {
    Backlog(t.nextRunAt, t.period, now, CATCHUP_LIMIT)
  }

  /** What one tick does to the listed templates. */
  function Book(b: Books, ids: set<TemplateId>, now: DateTime): Books
    requires forall i :: i in ids ==> i in b.templates && Rate(b.templates[i]).Some?
  {
    Books(map i | i in b.templates :: if i in ids then Advanced(b.templates[i], Owed(b.templates[i], now)) else b.templates[i],
          map i | i in b.expenses.Keys + ids ::
            if i in ids then Booked(b, i) + Bookings(b.templates[i], Owed(b.templates[i], now)) else b.expenses[i])
  }

  /** The same for a single template. */
  function BookTemplate(b: Books, i: TemplateId, now: DateTime): Books
    requires i in b.templates && Rate(b.templates[i]).Some?
  {
    var t := b.templates[i];
    Books(b.templates[i := Advanced(t, Owed(t, now))], b.expenses[i := Booked(b, i) + Bookings(t, Owed(t, now))])
  }

  /** A due template without a usable rate makes the whole tick fail and roll back. */
  function Tick(b: Books, now: DateTime, locked: set<TemplateId>): Books {
    var due := DueIds(b, now, locked);
    if exists i :: i in due && Rate(b.templates[i]).None? then b else Book(b, due, now)
  }

  /** Every tick leaves a template alone, or books its next run of dates up to `now` or the limit. */
  lemma TickOfTemplate(b: Books, now: DateTime, locked: set<TemplateId>, i: TemplateId)
    requires i in b.templates
    ensures var b' := Tick(b, now, locked); var t := b.templates[i];
            && i in b'.templates
            && ( || (b'.templates[i] == t && Booked(b', i) == Booked(b, i))
                 || (&& Due(t, now) && Rate(t).Some?
                     && b'.templates[i] == Advanced(t, Owed(t, now))
                     && Booked(b', i) == Booked(b, i) + Bookings(t, Owed(t, now))
                     && (Before(now, b'.templates[i].nextRunAt) || Owed(t, now) == CATCHUP_LIMIT)))
  {
    hide AdvancePeriod;
    BacklogStops(b.templates[i].nextRunAt, b.templates[i].period, now, CATCHUP_LIMIT);
  }

  /** Template `i` is active, unlocked and due. */
  predicate Ready(b: Books, now: DateTime, locked: set<TemplateId>, i: TemplateId) {
    i in b.templates && i !in locked && b.templates[i].active && !Before(now, b.templates[i].nextRunAt)
  }

  /** Some due, unlocked template is in a foreign currency without a positive rate. */
  predicate Blocked(b: Books, now: DateTime, locked: set<TemplateId>) {
    exists i :: i in b.templates && Ready(b, now, locked, i) && !b.templates[i].isRub
                && (b.templates[i].fxRate == None || b.templates[i].fxRate.value <= 0)
  }

  lemma BlockedExactly(b: Books, now: DateTime, locked: set<TemplateId>)
    ensures Blocked(b, now, locked) <==> exists i :: i in DueIds(b, now, locked) && Rate(b.templates[i]).None?
  {
    if i :| i in b.templates && Ready(b, now, locked, i) && !b.templates[i].isRub
            && (b.templates[i].fxRate == None || b.templates[i].fxRate.value <= 0) {
      assert i in DueIds(b, now, locked) && Rate(b.templates[i]).None?;
    }
    if i :| i in DueIds(b, now, locked) && Rate(b.templates[i]).None? {
      assert Ready(b, now, locked, i);
    }
  }

  /** The n-th of a template's bookings: its amount, the converted amount, the n-th date; and only the date moves on. */
  lemma BookingsAre(t: Template, n: nat, k: nat)
    requires Rate(t).Some? && k < n
    ensures |Bookings(t, n)| == n
    ensures Bookings(t, n)[k] == Expense(t.amount, Rate(t).value, Orbit(t.nextRunAt, t.period, k))
    ensures t.isRub ==> Bookings(t, n)[k].amountRub == t.amount
    ensures Orbit(t.nextRunAt, t.period, 0) == t.nextRunAt
    ensures Orbit(t.nextRunAt, t.period, k + 1) == AdvancePeriod(Orbit(t.nextRunAt, t.period, k), t.period)
    ensures Advanced(t, n) == t.(nextRunAt := Orbit(t.nextRunAt, t.period, n))
  {
    hide AdvancePeriod;
  }

  /** A due, unlocked, usable template is booked by a tick if and only if no other due, unlocked one is unusable. */
  lemma BookedUnlessBlocked(b: Books, now: DateTime, locked: set<TemplateId>, i: TemplateId)
    requires Ready(b, now, locked, i) && Rate(b.templates[i]).Some?
    ensures |Booked(Tick(b, now, locked), i)| > |Booked(b, i)| <==> !Blocked(b, now, locked)
    ensures Blocked(b, now, locked) ==> Tick(b, now, locked) == b
    ensures !Blocked(b, now, locked) ==>
              var t, t' := b.templates[i], Tick(b, now, locked).templates[i];
              var n := |Booked(Tick(b, now, locked), i)| - |Booked(b, i)|;
              && 1 <= n <= 60 && t' == Advanced(t, n)
              && Booked(Tick(b, now, locked), i) == Booked(b, i) + Bookings(t, n)
              && (Before(now, t'.nextRunAt) || n == 60)
  {
    hide AdvancePeriod, Rate;
    assert i in DueIds(b, now, locked);
    BlockedExactly(b, now, locked);
    BacklogStops(b.templates[i].nextRunAt, b.templates[i].period, now, CATCHUP_LIMIT);
    assert Owed(b.templates[i], now) >= 1;
  }

  // ---- Exactly once over any ticks -----------------------------------------------------------------

  datatype TickAt = TickAt(now: DateTime, locked: set<TemplateId>)

  function Ticks(b: Books, ticks: seq<TickAt>): Books
    decreases |ticks|
  {
    if ticks == [] then b else Tick(Ticks(b, ticks[..|ticks| - 1]), ticks[|ticks| - 1].now, ticks[|ticks| - 1].locked)
  }

  /** No tick takes an expense back. */
  lemma TickGrows(b: Books, now: DateTime, locked: set<TemplateId>, i: TemplateId)
    ensures |Booked(b, i)| <= |Booked(Tick(b, now, locked), i)|
  {
    hide AdvancePeriod;
  }

  /** A tick changes nothing exactly when it is blocked or nothing is due. */
  lemma IdleExactly(b: Books, now: DateTime, locked: set<TemplateId>)
    ensures Tick(b, now, locked) == b <==> Blocked(b, now, locked) || forall i :: !Ready(b, now, locked, i)
    ensures Tick(b, now, locked) != b ==> exists i :: |Booked(b, i)| < |Booked(Tick(b, now, locked), i)|
  {
    hide Tick, Blocked;
    BlockedExactly(b, now, locked);
    if !Blocked(b, now, locked) {
      var due := DueIds(b, now, locked);
      if due != {} {
        var i := SomeOf(due);
        assert Ready(b, now, locked, i);
        BookedUnlessBlocked(b, now, locked, i);
      } else {
        forall i ensures !Ready(b, now, locked, i) {
          assert i !in due;
        }
        TickOutcome(b, now, locked);
        BookNothing(b, now);
      }
    } else {
      TickOutcome(b, now, locked);
    }
  }

  lemma {:induction false} GrownStays(b: Books, ticks: seq<TickAt>)
    ensures Ticks(b, ticks) == b || exists i :: |Booked(b, i)| < |Booked(Ticks(b, ticks), i)|
    decreases |ticks|
  {
    if ticks != [] {
      hide Tick, Booked;
      var init, last := ticks[..|ticks| - 1], ticks[|ticks| - 1];
      GrownStays(b, init);
      var b1 := Ticks(b, init);
      if b1 == b {
        IdleExactly(b, last.now, last.locked);
      } else {
        var i :| |Booked(b, i)| < |Booked(b1, i)|;
        TickGrows(b1, last.now, last.locked, i);
      }
    }
  }

  /**
    When bookkeeping stands still. Over any ticks nothing at all is booked, for any template, if and
    only if each of them finds nothing due or a due, unlocked template without a usable rate.
   */
  lemma {:induction false} StandsStillExactly(b: Books, ticks: seq<TickAt>)
    ensures Ticks(b, ticks) == b <==>
              forall k :: 0 <= k < |ticks| ==>
                Blocked(b, ticks[k].now, ticks[k].locked) || forall i :: !Ready(b, ticks[k].now, ticks[k].locked, i)
    decreases |ticks|
  {
    if ticks != [] {
      hide Tick, Blocked, Ready, Booked;
      var n := |ticks| - 1;
      var init, last := ticks[..n], ticks[n];
      StandsStillExactly(b, init);
      assert forall k :: 0 <= k < n ==> init[k] == ticks[k];
      IdleExactly(b, last.now, last.locked);
      var b1 := Ticks(b, init);
      if b1 != b {
        GrownStays(b, init);
        var i :| |Booked(b, i)| < |Booked(b1, i)|;
        TickGrows(b1, last.now, last.locked, i);
        assert Ticks(b, ticks) != b;
      }
    }
  }

  /** So one active template edited to a currency without a rate stops all the others for as long as it stays so. */
  lemma OneTemplateStopsAll(b: Books, ticks: seq<TickAt>, i: TemplateId)
    requires i in b.templates && b.templates[i].active && !b.templates[i].isRub
    requires b.templates[i].fxRate == None || b.templates[i].fxRate.value <= 0
    requires forall k :: 0 <= k < |ticks| ==> i !in ticks[k].locked && !Before(ticks[k].now, b.templates[i].nextRunAt)
    ensures Ticks(b, ticks) == b
  {
    forall k | 0 <= k < |ticks| ensures Blocked(b, ticks[k].now, ticks[k].locked) {
      assert Ready(b, ticks[k].now, ticks[k].locked, i);
    }
    StandsStillExactly(b, ticks);
  }

  /** Template `i` started at `t` and has booked exactly its first n dates. */
  ghost predicate BookedPrefix(t: Template, b: Books, i: TemplateId, n: nat) {
    && Rate(t).Some? && i in b.templates
    && b.templates[i] == Advanced(t, n)
    && Booked(b, i) == Bookings(t, n)
  }

  /** Every booked date was due at one of the ticks. */
  ghost predicate DueBy(t: Template, n: nat, ticks: seq<TickAt>) {
    forall k: nat :: k < n ==> DueAtSome(Orbit(t.nextRunAt, t.period, k), ticks)
  }

  ghost predicate DueAtSome(d: DateTime, ticks: seq<TickAt>) {
    exists j :: 0 <= j < |ticks| && !Before(ticks[j].now, d)
  }

  lemma BookingsContinue(t: Template, n: nat, m: nat)
    requires Rate(t).Some?
    ensures Rate(Advanced(t, n)).Some?
    ensures Bookings(t, n) + Bookings(Advanced(t, n), m) == Bookings(t, n + m)
    ensures Advanced(Advanced(t, n), m) == Advanced(t, n + m)
  {
    hide AdvancePeriod;
    OrbitShift(t.nextRunAt, t.period, n, m);
    forall k | 0 <= k < m ensures Booking(Advanced(t, n), k) == Booking(t, n + k) {
      OrbitShift(t.nextRunAt, t.period, n, k);
    }
  }

  /**
    Exactly once: after any ticks at any times, the expenses of an unedited template are precisely the
    first n dates of the orbit of its first run date, without gap or repetition, and its next run
    date is the one that follows.
   */
  lemma {:induction false} ExactlyOnce(b: Books, ticks: seq<TickAt>, i: TemplateId) returns (n: nat)
    requires i in b.templates && Booked(b, i) == [] && Rate(b.templates[i]).Some?
    ensures BookedPrefix(b.templates[i], Ticks(b, ticks), i, n)
    ensures DueBy(b.templates[i], n, ticks)
    decreases |ticks|
  {
    hide AdvancePeriod;
    var t := b.templates[i];
    if ticks == [] {
      n := 0;
    } else {
      var init, last := ticks[..|ticks| - 1], ticks[|ticks| - 1];
      n := ExactlyOnce(b, init, i);
      var b1 := Ticks(b, init);
      TickOfTemplate(b1, last.now, last.locked, i);
      DueByMore(t, n, init, last);
      if Tick(b1, last.now, last.locked).templates[i] != b1.templates[i]
         || Booked(Tick(b1, last.now, last.locked), i) != Booked(b1, i) {
        var m := Owed(b1.templates[i], last.now);
        BookingsContinue(t, n, m);
        NewlyDue(t, n, m, ticks);
        n := n + m;
      }
    }
  }

  lemma DueByMore(t: Template, n: nat, init: seq<TickAt>, last: TickAt)
    requires DueBy(t, n, init)
    ensures DueBy(t, n, init + [last])
  {
    hide AdvancePeriod;
    forall k: nat | k < n ensures DueAtSome(Orbit(t.nextRunAt, t.period, k), init + [last]) {
      assert DueAtSome(Orbit(t.nextRunAt, t.period, k), init);
      var j :| 0 <= j < |init| && !Before(init[j].now, Orbit(t.nextRunAt, t.period, k));
      assert (init + [last])[j] == init[j];
    }
  }

  lemma NewlyDue(t: Template, n: nat, m: nat, ticks: seq<TickAt>)
    requires ticks != [] && DueBy(t, n, ticks)
    requires m == Owed(Advanced(t, n), ticks[|ticks| - 1].now)
    ensures DueBy(t, n + m, ticks)
  {
    hide AdvancePeriod;
    var now := ticks[|ticks| - 1].now;
    BacklogStops(Orbit(t.nextRunAt, t.period, n), t.period, now, CATCHUP_LIMIT);
    forall k: nat | k < n + m ensures DueAtSome(Orbit(t.nextRunAt, t.period, k), ticks) {
      if k >= n {
        OrbitShift(t.nextRunAt, t.period, n, k - n);
        assert !Before(ticks[|ticks| - 1].now, Orbit(t.nextRunAt, t.period, k));
      }
    }
  }

  // ---- The order of the ticks does not matter once caught up ----------------------------------

  ghost predicate NoneAfter(ticks: seq<TickAt>, end: DateTime) {
    forall j :: 0 <= j < |ticks| ==> !Before(end, ticks[j].now)
  }

  /** With no tick after `end`, a template caught up to `end` has booked exactly its dates up to `end`. */
  lemma CaughtUpMeansAll(t: Template, n: nat, ticks: seq<TickAt>, end: DateTime, k: nat)
    requires Valid(t.nextRunAt) && DueBy(t, n, ticks) && NoneAfter(ticks, end)
    requires Before(end, Orbit(t.nextRunAt, t.period, n))
    ensures k < n <==> !Before(end, Orbit(t.nextRunAt, t.period, k))
  {
    var d := Orbit(t.nextRunAt, t.period, k);
    if k < n {
      assert DueAtSome(d, ticks);
      var j :| 0 <= j < |ticks| && !Before(ticks[j].now, d);
      assert !Before(end, ticks[j].now);
    } else {
      OrbitIncreases(t.nextRunAt, t.period, n, k);
    }
  }

  /** However the work is split into ticks, once caught up to the same moment the books are the same. */
  lemma SplittingTicksIsHarmless(b: Books, first: seq<TickAt>, second: seq<TickAt>, end: DateTime, i: TemplateId)
    requires i in b.templates && Booked(b, i) == [] && Rate(b.templates[i]).Some? && Valid(b.templates[i].nextRunAt)
    requires NoneAfter(first, end) && NoneAfter(second, end)
    requires i in Ticks(b, first).templates && Before(end, Ticks(b, first).templates[i].nextRunAt)
    requires i in Ticks(b, second).templates && Before(end, Ticks(b, second).templates[i].nextRunAt)
    ensures Booked(Ticks(b, first), i) == Booked(Ticks(b, second), i)
    ensures Ticks(b, first).templates[i] == Ticks(b, second).templates[i]
  {
    var t := b.templates[i];
    var n := ExactlyOnce(b, first, i);
    var m := ExactlyOnce(b, second, i);
    CaughtUpMeansAll(t, n, first, end, m);
    CaughtUpMeansAll(t, m, second, end, n);
    CaughtUpMeansAll(t, n, first, end, n);
    CaughtUpMeansAll(t, m, second, end, m);
  }

  /** The booked dates are strictly increasing. */
  lemma BookedDatesIncrease(t: Template, n: nat, j: nat, k: nat)
    requires Rate(t).Some? && Valid(t.nextRunAt) && j < k < n
    ensures Before(Bookings(t, n)[j].incurredAt, Bookings(t, n)[k].incurredAt)
  {
    OrbitIncreases(t.nextRunAt, t.period, j, k);
  }

  // ---- The job ------------------------------------------------------------------------------------

  class FinanceService {
    var templates: map<TemplateId, Template>
    var expenses: map<TemplateId, seq<Expense>>

    ghost function View(): Books
      reads this
    {
      Books(templates, expenses)
    }

    /** The inner catch-up loop of one template; `limit` guards against an endless backlog. */
    method CatchUp(t: Template, now: DateTime, limit: nat) returns (booked: seq<Expense>, runAt: DateTime)
      requires Rate(t).Some?
      ensures var n := Backlog(t.nextRunAt, t.period, now, limit);
              booked == Bookings(t, n) && runAt == Orbit(t.nextRunAt, t.period, n)
    {
      hide AdvancePeriod;
      booked, runAt := [], t.nextRunAt;
      var guard := 0;
      while !Before(now, runAt) && guard < limit
        invariant guard <= limit
        invariant booked == Bookings(t, guard) && runAt == Orbit(t.nextRunAt, t.period, guard)
        invariant Backlog(t.nextRunAt, t.period, now, limit) == guard + Backlog(runAt, t.period, now, limit - guard)
      {
        BookingsGrow(t, guard);
        booked := booked + [Expense(t.amount, Rate(t).value, runAt)];
        runAt := AdvancePeriod(runAt, t.period);
        guard := guard + 1;
      }
    }

    /** Books one template and moves its next run date. */
    method MaterializeTemplate(i: TemplateId, now: DateTime) returns (created: nat)
      requires i in templates && Rate(templates[i]).Some?
      modifies this
      ensures View() == BookTemplate(old(View()), i, now)
      ensures created == Owed(old(templates)[i], now)
    {
      hide AdvancePeriod;
      var t := templates[i];
      var booked, runAt := CatchUp(t, now, CATCHUP_LIMIT);
      expenses := expenses[i := (if i in expenses then expenses[i] else []) + booked];
      templates := templates[i := t.(nextRunAt := runAt)];
      created := |booked|;
    }

    method MaterializeDueTemplates(now: DateTime, locked: set<TemplateId>) returns (r: Result<nat, TemplateId>)
      modifies this
      ensures View() == Tick(old(View()), now, locked)
      ensures r.Err? <==> Blocked(old(View()), now, locked)
      ensures r.Ok? ==> exists due :: Distinct(due) && Elements(due) == DueIds(old(View()), now, locked)
                                      && r.value == TotalOwed(old(View()), due, now)
    {
      hide Book, BookTemplate, TotalOwed, Tick, Rate, Due, Blocked;
      ghost var b := View();
      BlockedExactly(b, now, locked);
      TickOutcome(b, now, locked);
      var savedTemplates, savedExpenses := templates, expenses;
      var due := ListOf(set i | i in templates && i !in locked && Due(templates[i], now));
      assert Elements(due) == DueIds(b, now, locked);
      var created: nat := 0;
      var n := 0;
      BookNothing(b, now);
      assert due[..0] == [] && Elements(due[..0]) == {};
      while n < |due|
        invariant 0 <= n <= |due|
        invariant Usable(b, Elements(due[..n]))
        invariant View() == Book(b, Elements(due[..n]), now)
        invariant created == TotalOwed(b, due[..n], now)
      {
        assert due[n] in Elements(due);
        BookOneMore(b, due, n, now);
        if Rate(templates[due[n]]).None? {
          templates, expenses := savedTemplates, savedExpenses;
          return Err(due[n]);
        }
        var booked := MaterializeTemplate(due[n], now);
        created := created + booked;
        n := n + 1;
      }
      assert due[..n] == due;
      return Ok(created);
    }
  }

  /** How many expenses the listed templates are owed together. */
  function TotalOwed(b: Books, ids: seq<TemplateId>, now: DateTime): nat {
    if ids == [] then 0
    else
      var i := ids[|ids| - 1];
      TotalOwed(b, ids[..|ids| - 1], now) + if i in b.templates then Owed(b.templates[i], now) else 0
  }

  ghost predicate Usable(b: Books, ids: set<TemplateId>) {
    forall i :: i in ids ==> i in b.templates && Rate(b.templates[i]).Some?
  }

  lemma TickOutcome(b: Books, now: DateTime, locked: set<TemplateId>)
    ensures var due := DueIds(b, now, locked);
            if exists i :: i in due && Rate(b.templates[i]).None? then Tick(b, now, locked) == b
            else Usable(b, due) && Tick(b, now, locked) == Book(b, due, now)
  {
  }

  lemma BookNothing(b: Books, now: DateTime)
    ensures Book(b, {}, now) == b && TotalOwed(b, [], now) == 0
  {
    assert Book(b, {}, now).expenses == b.expenses;
  }

  lemma BookingsGrow(t: Template, n: nat)
    requires Rate(t).Some?
    ensures Bookings(t, n + 1) == Bookings(t, n) + [Booking(t, n)]
  {
  }

  lemma BookAdd(b: Books, ids: set<TemplateId>, i: TemplateId, now: DateTime)
    requires Usable(b, ids) && i in b.templates && i !in ids && Rate(b.templates[i]).Some?
    ensures Usable(b, ids + {i})
    ensures i in Book(b, ids, now).templates && Book(b, ids, now).templates[i] == b.templates[i]
    ensures Book(b, ids + {i}, now) == BookTemplate(Book(b, ids, now), i, now)
  {
    hide AdvancePeriod;
    var before, after, t := Book(b, ids, now), Book(b, ids + {i}, now), b.templates[i];
    assert after.templates == before.templates[i := Advanced(t, Owed(t, now))];
    assert after.expenses == before.expenses[i := Booked(before, i) + Bookings(t, Owed(t, now))];
  }

  lemma BookOneMore(b: Books, due: seq<TemplateId>, n: nat, now: DateTime)
    requires n < |due| && Distinct(due) && due[n] in b.templates && Usable(b, Elements(due[..n]))
    ensures var i := due[n]; var before := Book(b, Elements(due[..n]), now);
            && i in before.templates && before.templates[i] == b.templates[i]
            && (Rate(b.templates[i]).Some? ==>
                  && Usable(b, Elements(due[..n + 1]))
                  && Book(b, Elements(due[..n + 1]), now) == BookTemplate(before, i, now)
                  && TotalOwed(b, due[..n + 1], now) == TotalOwed(b, due[..n], now) + Owed(b.templates[i], now))
  {
    hide AdvancePeriod, Backlog;
    assert due[..n + 1] == due[..n] + [due[n]] && due[..n + 1][..n] == due[..n];
    assert due[n] !in Elements(due[..n]);
    if Rate(b.templates[due[n]]).Some? {
      BookAdd(b, Elements(due[..n]), due[n], now);
      assert Elements(due[..n + 1]) == Elements(due[..n]) + {due[n]};
    }
  }
}
