/** The sliding window of payment failures per provider and its rate-limited alerts. */
module FailureMonitor {
  import opened Common

  /** Provider names, which are only ever compared. */
  type Provider = int

  /** Drops outdated events from the front, as the pop loop does. */
  function DropOld(events: seq<real>, cutoff: real): seq<real> {
    if events == [] || events[0] >= cutoff then events else DropOld(events[1..], cutoff)
  }

  /** The events of a history that lie in the window, in order. */
  function Recent(history: seq<real>, cutoff: real): seq<real> {
    if history == [] then []
    else
      var n := |history| - 1;
      Recent(history[..n], cutoff) + if history[n] >= cutoff then [history[n]] else []
  }

  predicate Ascending(s: seq<real>) {
    forall i, j :: 0 <= i < j < |s| ==> s[i] <= s[j]
  }

  /** Dropping from the front of an ascending sequence is filtering it. */
  lemma {:induction false} DropOldIsFilter(events: seq<real>, cutoff: real)
    requires Ascending(events)
    ensures DropOld(events, cutoff) == Recent(events, cutoff)
    decreases |events|
  {
    if events == [] {
    } else if events[0] >= cutoff {
      RecentKeepsAll(events, cutoff);
    } else {
      DropOldIsFilter(events[1..], cutoff);
      RecentDropsFirst(events, cutoff);
    }
  }

  lemma {:induction false} RecentKeepsAll(events: seq<real>, cutoff: real)
    requires forall i :: 0 <= i < |events| ==> events[i] >= cutoff
    ensures Recent(events, cutoff) == events
  {
    if events != [] {
      var n := |events| - 1;
      RecentKeepsAll(events[..n], cutoff);
      assert events == events[..n] + [events[n]];
    }
  }

  lemma {:induction false} RecentDropsFirst(events: seq<real>, cutoff: real)
    requires events != [] && events[0] < cutoff
    ensures Recent(events, cutoff) == Recent(events[1..], cutoff)
    decreases |events|
  {
    var n := |events| - 1;
    if n > 0 {
      RecentDropsFirst(events[..n], cutoff);
      assert events[..n][1..] == events[1..][..n - 1];
    }
  }

  /** Narrowing the window in two steps is narrowing it once. */
  lemma {:induction false} RecentOfRecent(history: seq<real>, c: real, d: real)
    requires c <= d
    ensures Recent(Recent(history, c), d) == Recent(history, d)
  {
    if history != [] {
      var n := |history| - 1;
      RecentOfRecent(history[..n], c, d);
      var kept := Recent(history[..n], c);
      if history[n] >= c {
        assert (kept + [history[n]])[..|kept|] == kept;
      } else {
        assert kept + [] == kept;
      }
    }
  }

  lemma {:induction false} RecentMembers(history: seq<real>, c: real)
    requires Ascending(history)
    ensures Ascending(Recent(history, c))
    ensures forall x :: x in Recent(history, c) ==> x in history
  {
    if history != [] {
      var n := |history| - 1;
      RecentMembers(history[..n], c);
      forall i | 0 <= i < |Recent(history[..n], c)| ensures Recent(history[..n], c)[i] <= history[n] {
        assert Recent(history[..n], c)[i] in Recent(history[..n], c);
      }
    }
  }

  /** How often an event at `x` is listed. */
  function Times(s: seq<real>, x: real): nat {
    multiset(s)[x]
  }

  /** The window holds exactly the events at or after the cutoff, each as often as it happened. */
  lemma {:induction false} RecentExactly(history: seq<real>, c: real, x: real)
    ensures Times(Recent(history, c), x) == if x >= c then Times(history, x) else 0
  {
    if history != [] {
      var n := |history| - 1;
      RecentExactly(history[..n], c, x);
      assert history == history[..n] + [history[n]];
    }
  }

  /** Alerts of one provider since its last reset: in order, and any two at least a cooldown apart. */
  predicate Spaced(alerts: seq<real>, cooldown: real) {
    forall i, j :: 0 <= i < j < |alerts| ==> alerts[i] <= alerts[j] && alerts[j] - alerts[i] >= cooldown
  }

  /** Everything that happened to a provider since its last reset, and the window start last used. */
  datatype Log = Log(history: seq<real>, alerts: seq<real>, cutoff: real)

  /** The stored window and last alert reflect the log, and the alerts are spaced out. */
  ghost predicate Tracks(window: seq<real>, last: Option<real>, log: Log, clock: real, span: real, cooldown: real) {
    && Ascending(log.history) && UpTo(log.history, clock)
    && log.cutoff <= clock - span
    && window == Recent(log.history, log.cutoff)
    && Spaced(log.alerts, cooldown) && UpTo(log.alerts, clock)
    && (last.Some? <==> log.alerts != [])
    && (last.Some? ==> last.value == log.alerts[|log.alerts| - 1])
  }

  predicate UpTo(s: seq<real>, clock: real) {
    forall i :: 0 <= i < |s| ==> s[i] <= clock
  }

  /** One more failure at `now`, seen through the log. */
  function Extended(log: Log, now: real, span: real, alert: bool): Log {
    Log(log.history + [now], log.alerts + if alert then [now] else [], now - span)
  }

  lemma WindowIsFilter(history: seq<real>, c: real, now: real, cutoff: real)
    requires Ascending(history) && UpTo(history, now) && c <= cutoff
    ensures DropOld(Recent(history, c) + [now], cutoff) == Recent(history + [now], cutoff)
  {
    RecentMembers(history, c);
    var kept := Recent(history, c);
    forall i | 0 <= i < |kept| ensures kept[i] <= now {
      assert kept[i] in kept;
    }
    DropOldIsFilter(kept + [now], cutoff);
    RecentOfRecent(history, c, cutoff);
    assert (kept + [now])[..|kept|] == kept && (history + [now])[..|history|] == history;
  }

  lemma AscendingAppend(s: seq<real>, now: real)
    requires Ascending(s) && UpTo(s, now)
    ensures Ascending(s + [now]) && UpTo(s + [now], now)
  {
  }

  lemma SpacedAppend(alerts: seq<real>, now: real, cooldown: real)
    requires Spaced(alerts, cooldown) && UpTo(alerts, now)
    requires alerts != [] ==> now - alerts[|alerts| - 1] >= cooldown
    ensures Spaced(alerts + [now], cooldown) && UpTo(alerts + [now], now)
  {
  }

  /** Recording keeps the window equal to the filtered history and the alerts a cooldown apart. */
  lemma RecordTracks(window: seq<real>, kept: seq<real>, last: Option<real>, log: Log, clock: real, now: real,
                     span: real, cooldown: real, alert: bool)
    requires Tracks(window, last, log, clock, span, cooldown) && clock <= now
    requires kept == DropOld(window + [now], now - span)
    requires alert && last.Some? ==> now - last.value >= cooldown
    ensures Tracks(kept, if alert then Some(now) else last, Extended(log, now, span, alert), now, span, cooldown)
  {
    assert UpTo(log.history, now) && UpTo(log.alerts, now);
    WindowIsFilter(log.history, log.cutoff, now, now - span);
    AscendingAppend(log.history, now);
    if alert {
      SpacedAppend(log.alerts, now, cooldown);
    } else {
      assert log.alerts + [] == log.alerts;
    }
  }

  function Lookup<V>(m: map<Provider, V>, p: Provider): Option<V> {
    if p in m then Some(m[p]) else None
  }

  ghost predicate AllTrack(events: map<Provider, seq<real>>, last: map<Provider, real>, logs: map<Provider, Log>,
                           clock: real, span: real, cooldown: real)
  {
    && events.Keys == logs.Keys && last.Keys <= events.Keys
    && forall p :: p in events ==> Tracks(events[p], Lookup(last, p), logs[p], clock, span, cooldown)
  }

  function LogOf(logs: map<Provider, Log>, p: Provider, clock: real, span: real): Log {
    if p in logs then logs[p] else Log([], [], clock - span)
  }

  /** A provider that tracks its log again leaves the others in step. */
  lemma RecordAll(events: map<Provider, seq<real>>, last: map<Provider, real>, logs: map<Provider, Log>,
                  p: Provider, kept: seq<real>, last': map<Provider, real>, log: Log,
                  clock: real, now: real, span: real, cooldown: real)
    requires AllTrack(events, last, logs, clock, span, cooldown) && clock <= now
    requires last' == last || (p in last' && last' == last[p := last'[p]])
    requires Tracks(kept, Lookup(last', p), log, now, span, cooldown)
    ensures AllTrack(events[p := kept], last', logs[p := log], now, span, cooldown)
  {
    forall q | q in events && q != p ensures Tracks(events[q], Lookup(last', q), logs[q], now, span, cooldown) {
      TracksLater(events[q], Lookup(last, q), logs[q], clock, now, span, cooldown);
    }
  }

  lemma CurrentTracks(events: map<Provider, seq<real>>, last: map<Provider, real>, logs: map<Provider, Log>,
                      p: Provider, clock: real, span: real, cooldown: real)
    requires AllTrack(events, last, logs, clock, span, cooldown)
    ensures Tracks(if p in events then events[p] else [], Lookup(last, p), LogOf(logs, p, clock, span), clock, span, cooldown)
  {
  }

  function LastAfter(last: map<Provider, real>, p: Provider, now: real, alert: bool): map<Provider, real> {
    if alert then last[p := now] else last
  }

  /** One recorded failure, for the whole monitor. */
  lemma RecordStep(events: map<Provider, seq<real>>, last: map<Provider, real>, logs: map<Provider, Log>, p: Provider,
                   window: seq<real>, kept: seq<real>, clock: real, now: real, span: real, cooldown: real, alert: bool)
    requires AllTrack(events, last, logs, clock, span, cooldown) && clock <= now
    requires window == if p in events then events[p] else []
    requires kept == DropOld(window + [now], now - span)
    requires alert && p in last ==> now - last[p] >= cooldown
    ensures var log := Extended(LogOf(logs, p, clock, span), now, span, alert);
            && kept == Recent(log.history, now - span)
            && AllTrack(events[p := kept], LastAfter(last, p, now, alert), logs[p := log], now, span, cooldown)
  {
    hide DropOld, Recent, AllTrack;
    var log := Extended(LogOf(logs, p, clock, span), now, span, alert);
    CurrentTracks(events, last, logs, p, clock, span, cooldown);
    RecordTracks(window, kept, Lookup(last, p), LogOf(logs, p, clock, span), clock, now, span, cooldown, alert);
    RecordAll(events, last, logs, p, kept, LastAfter(last, p, now, alert), log, clock, now, span, cooldown);
  }

  lemma TracksLater(window: seq<real>, last: Option<real>, log: Log, clock: real, now: real, span: real, cooldown: real)
    requires Tracks(window, last, log, clock, span, cooldown) && clock <= now
    ensures Tracks(window, last, log, now, span, cooldown)
  {
  }

  class ProviderFailureMonitor {
    const windowSeconds: real
    const threshold: int
    const cooldown: real
    var events: map<Provider, seq<real>>
    var lastAlertAt: map<Provider, real>

    /** What happened since each provider's last reset, and the clock's latest reading. */
    ghost var logs: map<Provider, Log>
    ghost var clock: real

    ghost predicate Valid()
      reads this
    {
      AllTrack(events, lastAlertAt, logs, clock, windowSeconds, cooldown)
    }

    constructor (windowSeconds: real, threshold: int, cooldown: real, now: real)
      ensures Valid() && events == map[] && lastAlertAt == map[] && clock == now
      ensures this.windowSeconds == windowSeconds && this.threshold == threshold && this.cooldown == cooldown
    {
      this.windowSeconds, this.threshold, this.cooldown := windowSeconds, threshold, cooldown;
      events, lastAlertAt, logs, clock := map[], map[], map[], now;
    }

    /** The pop loop. */
    method PopOld(window: seq<real>, cutoff: real) returns (kept: seq<real>)
      ensures kept == DropOld(window, cutoff)
    {
      kept := window;
      while kept != [] && kept[0] < cutoff
        invariant DropOld(kept, cutoff) == DropOld(window, cutoff)
      {
        kept := kept[1..];
      }
    }

    /**
      With a clock that does not run backwards the window is exactly the filtered history, and an
      alert is raised when, and only when, the window is full enough and the cooldown is over.
     */
    method Record(p: Provider, now: real) returns (alert: bool, count: nat)
      requires Valid() && clock <= now
      modifies this
      ensures Valid() && clock == now
      ensures logs == old(logs)[p := Extended(LogOf(old(logs), p, old(clock), windowSeconds), now, windowSeconds, alert)]
      ensures events == old(events)[p := Recent(logs[p].history, now - windowSeconds)] && count == |events[p]|
      ensures alert <==> count >= threshold && now - (if p in old(lastAlertAt) then old(lastAlertAt)[p] else 0.0) >= cooldown
      ensures lastAlertAt == LastAfter(old(lastAlertAt), p, now, alert)
    {
      hide DropOld, Recent, AllTrack, Extended;
      var window := if p in events then events[p] else [];
      var last := if p in lastAlertAt then lastAlertAt[p] else 0.0;
      var kept := PopOld(window + [now], now - windowSeconds);
      count := |kept|;
      alert := count >= threshold && now - last >= cooldown;
      RecordStep(events, lastAlertAt, logs, p, window, kept, clock, now, windowSeconds, cooldown, alert);
      logs := logs[p := Extended(LogOf(logs, p, clock, windowSeconds), now, windowSeconds, alert)];
      clock := now;
      events := events[p := kept];
      lastAlertAt := LastAfter(lastAlertAt, p, now, alert);
    }

    /** A success forgets the provider's failures and its last alert. */
    method Reset(p: Provider)
      requires Valid()
      modifies this
      ensures Valid() && clock == old(clock)
      ensures events == old(events) - {p} && lastAlertAt == old(lastAlertAt) - {p} && logs == old(logs) - {p}
    {
      events, lastAlertAt := events - {p}, lastAlertAt - {p};
      logs := logs - {p};
      forall q | q in events ensures Tracks(events[q], Lookup(lastAlertAt, q), logs[q], clock, windowSeconds, cooldown) {
        assert Tracks(old(events)[q], Lookup(old(lastAlertAt), q), old(logs)[q], clock, windowSeconds, cooldown);
      }
    }
  }
}
