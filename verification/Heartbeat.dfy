/** Heartbeat hysteresis: when a node is set draining, when it is restored, and how often that can happen. */
module Heartbeat {
  import opened Common

  type Time = int

  datatype DrainSource = Admin | Auto
  datatype DrainReason = UnhealthyHeartbeat | ProbeFailure(detail: string) | EntryAutoDrain | OtherReason(text: string)

  /** The heartbeat section of the stored agent state. */
  datatype Meta = Meta(unhealthy: nat, healthy: nat, reason: Option<DrainReason>, drainedAt: Option<Time>)

  const NO_META := Meta(0, 0, None, None)

  /** The drain columns of a node row. */
  datatype Flags = Flags(active: bool, enabled: bool, draining: bool, source: Option<DrainSource>)

  datatype Upstream = Upstream(configured: bool, applyFailures: nat)

  datatype Payload = Payload(isHealthy: bool, runtimeReady: bool, poolFailures: Option<nat>, upstream: Option<Upstream>)

  datatype Policy = Policy(drainAfter: int, undrainAfter: int, applyFailUnhealthy: bool, applyFailThreshold: int) {
    function DrainThreshold(): nat { Max(1, drainAfter) }
    function UndrainThreshold(): nat { Max(1, undrainAfter) }
  }

  predicate EffectiveHealth(p: Payload, policy: Policy) {
    && p.isHealthy && p.runtimeReady
    && (policy.applyFailUnhealthy ==>
          var threshold := Max(1, policy.applyFailThreshold);
          && !(p.poolFailures.Some? && p.poolFailures.value >= threshold)
          && !(p.upstream.Some? && p.upstream.value.configured && p.upstream.value.applyFailures >= threshold))
  }

  /** Counters step, the reason is carried over, the moment of draining is not. */
  function NextMeta(m: Meta, healthy: bool): Meta {
    if healthy then Meta(0, m.healthy + 1, m.reason, None) else Meta(m.unhealthy + 1, 0, m.reason, None)
  }

  predicate ShouldDrain(f: Flags, m: Meta, healthy: bool, policy: Policy) {
    !healthy && !f.draining && m.unhealthy >= policy.DrainThreshold()
  }

  predicate ShouldUndrain(f: Flags, m: Meta, healthy: bool, policy: Policy) {
    && healthy && f.draining && f.active && f.enabled && f.source != Some(Admin)
    && (m.reason == Some(UnhealthyHeartbeat) || m.reason == None)
    && m.healthy >= policy.UndrainThreshold()
  }

  datatype Beaten = Beaten(flags: Flags, meta: Meta, drained: bool, undrained: bool)

  /** One heartbeat. */
  function Beat(f: Flags, m: Meta, healthy: bool, policy: Policy, now: Time): Beaten {
    var next := NextMeta(m, healthy);
    if ShouldDrain(f, next, healthy, policy) then
      Beaten(f.(draining := true, source := Some(Auto)),
             next.(reason := Some(UnhealthyHeartbeat), drainedAt := Some(now)), true, false)
    else if ShouldUndrain(f, next, healthy, policy) then
      Beaten(f.(draining := false, source := None), next.(reason := None, drainedAt := None), false, true)
    else Beaten(f, next, false, false)
  }

  // ---- Runs of heartbeats ------------------------------------------------------

  datatype History = History(flags: Flags, meta: Meta, drains: nat, undrains: nat)

  /** The outcome of a heartbeat-only run; `at[k]` is when the k-th heartbeat arrives. */
  function After(f: Flags, m: Meta, beats: seq<bool>, at: seq<Time>, policy: Policy): History
    requires |beats| == |at|
  {
    if beats == [] then History(f, m, 0, 0)
    else
      var n := |beats| - 1;
      var h := After(f, m, beats[..n], at[..n], policy);
      var b := Beat(h.flags, h.meta, beats[n], policy, at[n]);
      History(b.flags, b.meta, h.drains + (if b.drained then 1 else 0), h.undrains + (if b.undrained then 1 else 0))
  }

  /** The length of the final stretch of heartbeats equal to `healthy`. */
  function Streak(beats: seq<bool>, healthy: bool): nat {
    if beats == [] || beats[|beats| - 1] != healthy then 0 else 1 + Streak(beats[..|beats| - 1], healthy)
  }

  /** The stored counters are exactly the trailing streaks of the history, continued while the whole run is one streak. */
  lemma {:induction false} CountersAreStreaks(f: Flags, m: Meta, beats: seq<bool>, at: seq<Time>, policy: Policy)
    requires |beats| == |at|
    ensures Streak(beats, false) <= |beats| && Streak(beats, true) <= |beats|
    ensures After(f, m, beats, at, policy).meta.unhealthy
         == Streak(beats, false) + if Streak(beats, false) == |beats| then m.unhealthy else 0
    ensures After(f, m, beats, at, policy).meta.healthy
         == Streak(beats, true) + if Streak(beats, true) == |beats| then m.healthy else 0
  {
    if beats != [] {
      var n := |beats| - 1;
      CountersAreStreaks(f, m, beats[..n], at[..n], policy);
    }
  }

  /** A heartbeat counts as unhealthy exactly on the node's own word, or on too many failed applications when those count. */
  lemma HealthExactly(p: Payload, policy: Policy)
    ensures !EffectiveHealth(p, policy) <==>
              || !p.isHealthy || !p.runtimeReady
              || (policy.applyFailUnhealthy && p.poolFailures.Some? && p.poolFailures.value >= Max(1, policy.applyFailThreshold))
              || (policy.applyFailUnhealthy && p.upstream.Some? && p.upstream.value.configured
                  && p.upstream.value.applyFailures >= Max(1, policy.applyFailThreshold))
  {
  }

  /** The unhealthy streak at the end of the run, continued into the stored counter while the whole run is one. */
  function RunningStreak(stored: nat, beats: seq<bool>, healthy: bool): nat {
    Streak(beats, healthy) + if Streak(beats, healthy) == |beats| then stored else 0
  }

  /**
    Exactly when. Over every run the last heartbeat drains the node if and only if it is unhealthy, the
    node was not draining and the streak has reached the threshold; it restores the node if and only if it
    is healthy, the node was draining, active, enabled, not held by an administrator and drained for no
    other reason, and the streak has reached the threshold. Otherwise the node's flags stay.
   */
  lemma TransitionsExactly(f: Flags, m: Meta, beats: seq<bool>, at: seq<Time>, policy: Policy)
    requires |beats| == |at| > 0
    ensures var n := |beats| - 1;
            var before := After(f, m, beats[..n], at[..n], policy);
            var h := After(f, m, beats, at, policy);
            var drains := !beats[n] && !before.flags.draining && RunningStreak(m.unhealthy, beats, false) >= Max(1, policy.drainAfter);
            var restores := && beats[n] && before.flags.draining && before.flags.active && before.flags.enabled
                            && before.flags.source != Some(Admin)
                            && (before.meta.reason == None || before.meta.reason == Some(UnhealthyHeartbeat))
                            && RunningStreak(m.healthy, beats, true) >= Max(1, policy.undrainAfter);
            && h.drains == before.drains + (if drains then 1 else 0)
            && h.undrains == before.undrains + (if restores then 1 else 0)
            && h.flags == (if drains then before.flags.(draining := true, source := Some(Auto))
                           else if restores then before.flags.(draining := false, source := None)
                           else before.flags)
            && h.meta.reason == (if drains then Some(UnhealthyHeartbeat) else if restores then None else before.meta.reason)
            && h.meta.drainedAt == (if drains then Some(at[n]) else None)
  {
    CountersAreStreaks(f, m, beats, at, policy);
    var n := |beats| - 1;
    var before := After(f, m, beats[..n], at[..n], policy);
    var b := Beat(before.flags, before.meta, beats[n], policy, at[n]);
    assert b.meta.unhealthy == NextMeta(before.meta, beats[n]).unhealthy;
    assert b.meta.healthy == NextMeta(before.meta, beats[n]).healthy;
  }

  /** The counter that is running up to the node's next transition. */
  function Pressure(f: Flags, m: Meta): nat {
    if f.draining then m.healthy else m.unhealthy
  }

  /** One heartbeat adds at most one to the running counter, and a transition uses it up. */
  lemma BeatPressure(f: Flags, m: Meta, healthy: bool, policy: Policy, now: Time)
    ensures var b := Beat(f, m, healthy, policy, now);
            && (if b.drained then policy.DrainThreshold() else 0) + (if b.undrained then policy.UndrainThreshold() else 0)
               + Pressure(b.flags, b.meta) <= Pressure(f, m) + 1
            && (b.drained <==> !f.draining && b.flags.draining)
            && (b.undrained <==> f.draining && !b.flags.draining)
  {
  }

  lemma OneMore(a: int, n: nat)
    ensures a * (n + 1) == a * n + a
  {
  }

  /** Heartbeats not yet spent on a transition are bounded by the running counter; drains and restores take turns. */
  lemma {:induction false} FlapPotential(f: Flags, m: Meta, beats: seq<bool>, at: seq<Time>, policy: Policy)
    requires |beats| == |at|
    ensures var h := After(f, m, beats, at, policy);
            && policy.DrainThreshold() * h.drains + policy.UndrainThreshold() * h.undrains + Pressure(h.flags, h.meta)
               <= Pressure(f, m) + |beats|
            && h.drains + (if f.draining then 1 else 0) == h.undrains + (if h.flags.draining then 1 else 0)
  {
    if beats != [] {
      var n := |beats| - 1;
      FlapPotential(f, m, beats[..n], at[..n], policy);
      var h := After(f, m, beats[..n], at[..n], policy);
      hide Beat, Pressure;
      BeatPressure(h.flags, h.meta, beats[n], policy, at[n]);
      OneMore(policy.DrainThreshold(), h.drains);
      OneMore(policy.UndrainThreshold(), h.undrains);
    }
  }

  /**
    Anti-flap bound: from any stored state, every drain costs its threshold in heartbeats, and so does
    every restore; and the two alternate, so a node that starts and ends in service had as many of each.
   */
  lemma AntiFlap(f: Flags, m: Meta, beats: seq<bool>, at: seq<Time>, policy: Policy)
    requires |beats| == |at|
    ensures var h := After(f, m, beats, at, policy);
            && policy.DrainThreshold() * h.drains + policy.UndrainThreshold() * h.undrains
               <= (if f.draining then m.healthy else m.unhealthy) + |beats|
            && (f.draining == h.flags.draining ==> h.drains == h.undrains)
  {
    FlapPotential(f, m, beats, at, policy);
  }

  // ---- Availability and the drain cooldown ------------------------------------------

  datatype AgentState = AgentState(healthy: bool, lastSeen: Option<Time>, meta: Meta)

  datatype Unavailable = MissingNode | NodeInactive | NodeDisabled | NodeDraining
                       | StateMissing | StateUnhealthy | StateMissingLastSeen | StateStale

  function Freshness(state: Option<AgentState>, now: Time): Option<int> {
    if state.None? || state.value.lastSeen.None? then None else Some(Max(0, now - state.value.lastSeen.value))
  }

  predicate WithinDrainCooldown(state: Option<AgentState>, cooldown: int, now: Time) {
    && cooldown > 0 && state.Some?
    && state.value.meta.reason == Some(UnhealthyHeartbeat)
    && state.value.meta.drainedAt.Some?
    && now - state.value.meta.drainedAt.value < cooldown
  }

  function UnavailabilityReason(node: Option<Flags>, state: Option<AgentState>, staleAfter: int, cooldown: int, now: Time)
    : Option<Unavailable>
  {
    if node.None? then Some(MissingNode)
    else if !node.value.active then Some(NodeInactive)
    else if !node.value.enabled then Some(NodeDisabled)
    else if node.value.draining then
      if WithinDrainCooldown(state, cooldown, now) then None else Some(NodeDraining)
    else if state.None? then Some(StateMissing)
    else if !state.value.healthy then Some(StateUnhealthy)
    else
      var freshness := Freshness(state, now);
      if freshness.None? then Some(StateMissingLastSeen)
      else if freshness.value > staleAfter then Some(StateStale)
      else None
  }

  /**
    What auto-heal makes of a node after any run of heartbeats: it leaves the node alone if and only if
    the node is in service and its last heartbeat was healthy and recent, or that very heartbeat drained
    it a moment ago.
   */
  lemma LeftAloneAfterBeats(f: Flags, m: Meta, beats: seq<bool>, at: seq<Time>, policy: Policy,
                            staleAfter: int, cooldown: int, now: Time)
    requires |beats| == |at| > 0
    ensures var n := |beats| - 1;
            var before := After(f, m, beats[..n], at[..n], policy);
            var h := After(f, m, beats, at, policy);
            var state := Some(AgentState(beats[n], Some(at[n]), h.meta));
            UnavailabilityReason(Some(h.flags), state, staleAfter, cooldown, now) == None <==>
              && f.active && f.enabled
              && (if h.flags.draining then !before.flags.draining && cooldown > 0 && now - at[n] < cooldown
                  else beats[n] && now - at[n] <= staleAfter && 0 <= staleAfter)
  {
    var n := |beats| - 1;
    var before := After(f, m, beats[..n], at[..n], policy);
    BeatsKeepService(f, m, beats, at, policy);
    CooldownNeedsDrainingBeat(before.flags, before.meta, beats[n], policy, at[n], cooldown, staleAfter, now, Some(at[n]));
  }

  lemma {:induction false} BeatsKeepService(f: Flags, m: Meta, beats: seq<bool>, at: seq<Time>, policy: Policy)
    requires |beats| == |at|
    ensures var h := After(f, m, beats, at, policy); h.flags.active == f.active && h.flags.enabled == f.enabled
  {
    if beats != [] {
      BeatsKeepService(f, m, beats[..|beats| - 1], at[..|beats| - 1], policy);
    }
  }

  /**
    The cooldown does not survive the next heartbeat: after any heartbeat the node is inside a
    cooldown only if that very heartbeat drained it.
   */
  lemma CooldownNeedsDrainingBeat(f: Flags, m: Meta, healthy: bool, policy: Policy, at: Time,
                                  cooldown: int, staleAfter: int, now: Time, seen: Option<Time>)
    ensures var b := Beat(f, m, healthy, policy, at);
            var state := Some(AgentState(healthy, seen, b.meta));
            && (WithinDrainCooldown(state, cooldown, now) <==> b.drained && cooldown > 0 && now - at < cooldown)
            && (b.flags.draining && b.flags.active && b.flags.enabled && !b.drained ==>
                  UnavailabilityReason(Some(b.flags), state, staleAfter, cooldown, now) == Some(NodeDraining))
  {
  }
}
