/** Bringing transport profiles and routes in line with the published artifact. */
module RouteBootstrap {
  import opened Common

  type Time = int
  type NodeId = int
  type TransportId = int

  /** Names are only ever compared. */
  type TransportName = int
  type RouteName = int

  const FIRST_WARMUP_WEIGHT := 10

  datatype TransportSpec = TransportSpec(
    protocol: string,
    network: string,
    security: string,
    flow: Option<string>,
    realityPublicKey: Option<string>,
    realityShortId: Option<string>,
    realityServerName: Option<string>,
    tlsFingerprint: string,
    grpcServiceName: Option<string>,
    port: int)

  datatype Transport = Transport(id: TransportId, spec: TransportSpec, active: bool)

  /** A stored status may be a text the current version does not know. */
  datatype Health = Healthy | Degraded | Suspected | Blocked | WarmingUp | Unknown(text: string)

  datatype Route = Route(
    node: NodeId,
    entry: Option<NodeId>,
    transport: TransportId,
    health: Health,
    baseWeight: int,
    effectiveWeight: int,
    cooldownUntil: Option<Time>,
    warmupStage: Option<int>,
    warmupStartedAt: Option<Time>,
    active: bool)

  type Transports = map<TransportName, Transport>
  type Routes = map<RouteName, Route>

  datatype Profile = Profile(name: TransportName, spec: TransportSpec)

  /** One combination of backend, entry and transport, in the order the nested loops visit them. */
  datatype Cell = Cell(name: RouteName, node: NodeId, entry: Option<NodeId>, transport: TransportName)

  datatype Counters = Counters(created: nat, updated: nat, reactivated: nat)

  const ZERO := Counters(0, 0, 0)

  // ---- Transports ---------------------------------------------------------------------

  /** Column by column, as the update check compares them. */
  predicate TransportNeedsUpdate(existing: Transport, desired: TransportSpec) {
    if existing.spec.protocol != desired.protocol then true
    else if existing.spec.network != desired.network then true
    else if existing.spec.security != desired.security then true
    else if existing.spec.flow != desired.flow then true
    else if existing.spec.realityPublicKey != desired.realityPublicKey then true
    else if existing.spec.realityShortId != desired.realityShortId then true
    else if existing.spec.realityServerName != desired.realityServerName then true
    else if existing.spec.tlsFingerprint != desired.tlsFingerprint then true
    else if existing.spec.grpcServiceName != desired.grpcServiceName then true
    else if existing.spec.port != desired.port then true
    else !existing.active
  }

  /** No column is forgotten. */
  lemma NeedsUpdateExactly(existing: Transport, desired: TransportSpec)
    ensures TransportNeedsUpdate(existing, desired) <==> existing.spec != desired || !existing.active
  {
  }

  datatype TransportStep = TransportStep(table: Transports, counters: Counters)

  function PutTransport(s: TransportStep, p: Profile, newId: TransportId, dryRun: bool): TransportStep {
    if p.name !in s.table then
      TransportStep(if dryRun then s.table else s.table[p.name := Transport(newId, p.spec, true)],
                    s.counters.(created := s.counters.created + 1))
    else
      var existing := s.table[p.name];
      var counted := if existing.active then s.counters else s.counters.(reactivated := s.counters.reactivated + 1);
      if !TransportNeedsUpdate(existing, p.spec) && existing.active then TransportStep(s.table, counted)
      else TransportStep(if dryRun then s.table else s.table[p.name := Transport(existing.id, p.spec, true)],
                         counted.(updated := counted.updated + 1))
  }

  function PutTransports(t: Transports, ps: seq<Profile>, newIds: seq<TransportId>, dryRun: bool): TransportStep
    requires |newIds| == |ps|
    decreases |ps|
  {
    if ps == [] then TransportStep(t, ZERO)
    else
      var n := |ps| - 1;
      PutTransport(PutTransports(t, ps[..n], newIds[..n], dryRun), ps[n], newIds[n], dryRun)
  }

  // ---- Routes -----------------------------------------------------------------------------

  function InitialWarmupWeight(base: int): int {
    if base <= 0 then 0 else Min(base, FIRST_WARMUP_WEIGHT)
  }

  predicate NeedsRecovery(h: Health, effective: int) {
    h == Blocked || h == Degraded || h == Suspected || effective <= 0
  }

  /** The row a route should have; `now` only matters when an unhealthy route is sent back to warm-up. */
  function DesiredRoute(r: Route, node: NodeId, entry: Option<NodeId>, transport: Option<TransportId>,
                        base: int, recover: bool, now: Time): Route
  {
    var target := if transport.Some? then transport.value else r.transport;
    var rebuilt := r.node != node || r.entry != entry || r.transport != target || !r.active;
    var health := if r.health.Unknown? then Healthy else r.health;
    var effective := if r.baseWeight != base && !rebuilt then Min(Max(0, r.effectiveWeight), base) else r.effectiveWeight;
    if rebuilt then
      Route(node, entry, target, Healthy, base, Max(0, Min(base, base)), None, None, None, true)
    else if recover && NeedsRecovery(health, effective) then
      Route(node, entry, target, WarmingUp, base, Max(0, Min(base, InitialWarmupWeight(base))), None, Some(0), Some(now), true)
    else
      Route(node, entry, target, health, base, Max(0, Min(base, effective)), r.cooldownUntil, r.warmupStage, r.warmupStartedAt, true)
  }

  /** None when the row already is as desired. */
  function BuildRouteUpdate(r: Route, node: NodeId, entry: Option<NodeId>, transport: Option<TransportId>,
                            base: int, recover: bool, now: Time): Option<Route>
  {
    var desired := DesiredRoute(r, node, entry, transport, base, recover, now);
    if r == desired then None else Some(desired)
  }

  /** Every update it emits is active, carries the requested base weight and an effective weight within it. */
  lemma UpdatesAreWellWeighted(r: Route, node: NodeId, entry: Option<NodeId>, transport: Option<TransportId>,
                               base: int, recover: bool, now: Time)
    requires 0 <= base
    ensures var u := BuildRouteUpdate(r, node, entry, transport, base, recover, now);
            u.Some? ==> && u.value.active && u.value.node == node && u.value.entry == entry
                        && (transport.Some? ==> u.value.transport == transport.value)
                        && u.value.baseWeight == base && 0 <= u.value.effectiveWeight <= base
                        && !u.value.health.Unknown? && u.value != r
  {
  }

  /**
    The row a route gets. Moved, re-pointed or switched on again it starts afresh with its full weight; an
    unhealthy or weightless one goes back to warm-up when recovery is on; any other keeps its health and
    its timers, its weight cut to the base.
   */
  lemma DesiredExactly(r: Route, node: NodeId, entry: Option<NodeId>, transport: Option<TransportId>,
                       base: int, recover: bool, now: Time)
    requires 0 <= base
    ensures var d := DesiredRoute(r, node, entry, transport, base, recover, now);
            var target := if transport.Some? then transport.value else r.transport;
            var weight := if r.baseWeight == base then r.effectiveWeight else Min(Max(0, r.effectiveWeight), base);
            && d.node == node && d.entry == entry && d.transport == target && d.baseWeight == base && d.active
            && (if r.node != node || r.entry != entry || r.transport != target || !r.active then
                  && d.health == Healthy && d.effectiveWeight == base
                  && d.cooldownUntil == None && d.warmupStage == None && d.warmupStartedAt == None
                else if recover && (r.health in {Blocked, Degraded, Suspected} || weight <= 0) then
                  && d.health == WarmingUp && d.effectiveWeight == Min(base, 10)
                  && d.cooldownUntil == None && d.warmupStage == Some(0) && d.warmupStartedAt == Some(now)
                else
                  && d.health == (if r.health.Unknown? then Healthy else r.health)
                  && d.effectiveWeight == Max(0, Min(base, weight))
                  && d.cooldownUntil == r.cooldownUntil && d.warmupStage == r.warmupStage && d.warmupStartedAt == r.warmupStartedAt)
  {
  }

  function NewRoute(c: Cell, transport: TransportId, base: int): Route {
    Route(c.node, c.entry, transport, Healthy, base, base, None, None, None, true)
  }

  datatype Settings = Settings(base: int, recover: bool, dryRun: bool)

  datatype RouteStep = RouteStep(table: Routes, counters: Counters)

  function IdOf(t: Transports, name: TransportName): Option<TransportId> {
    if name in t then Some(t[name].id) else None
  }

  function PutRoute(s: RouteStep, t: Transports, c: Cell, cfg: Settings, now: Time): RouteStep {
    var id := IdOf(t, c.transport);
    if c.name !in s.table then
      RouteStep(if cfg.dryRun || id.None? then s.table else s.table[c.name := NewRoute(c, id.value, cfg.base)],
                s.counters.(created := s.counters.created + 1))
    else
      var existing := s.table[c.name];
      var update := BuildRouteUpdate(existing, c.node, c.entry, id, cfg.base, cfg.recover, now);
      if update.None? then s
      else
        RouteStep(if cfg.dryRun then s.table else s.table[c.name := update.value],
                  s.counters.(updated := s.counters.updated + 1,
                              reactivated := s.counters.reactivated + if existing.active then 0 else 1))
  }

  function PutRoutes(r: Routes, t: Transports, cs: seq<Cell>, cfg: Settings, now: Time): RouteStep
    decreases |cs|
  {
    if cs == [] then RouteStep(r, ZERO)
    else PutRoute(PutRoutes(r, t, cs[..|cs| - 1], cfg, now), t, cs[|cs| - 1], cfg, now)
  }

  // ---- A second run finds nothing to do -------------------------------------------------------

  predicate DistinctProfiles(ps: seq<Profile>) {
    forall i, j :: 0 <= i < j < |ps| ==> ps[i].name != ps[j].name
  }

  predicate DistinctCells(cs: seq<Cell>) {
    forall i, j :: 0 <= i < j < |cs| ==> cs[i].name != cs[j].name
  }

  predicate TransportSettled(t: Transports, p: Profile) {
    p.name in t && t[p.name].spec == p.spec && t[p.name].active
  }

  lemma {:induction false} TransportsSettle(t: Transports, ps: seq<Profile>, newIds: seq<TransportId>)
    requires |newIds| == |ps| && DistinctProfiles(ps)
    ensures forall i :: 0 <= i < |ps| ==> TransportSettled(PutTransports(t, ps, newIds, false).table, ps[i])
    decreases |ps|
  {
    if ps != [] {
      var n := |ps| - 1;
      TransportsSettle(t, ps[..n], newIds[..n]);
      var before := PutTransports(t, ps[..n], newIds[..n], false).table;
      assert forall i :: 0 <= i < n ==> ps[..n][i] == ps[i];
      assert forall i :: 0 <= i < n ==> TransportSettled(before, ps[i]);
      if ps[n].name in before { NeedsUpdateExactly(before[ps[n].name], ps[n].spec); }
    }
  }

  lemma {:induction false} SettledTransportsStay(t: Transports, ps: seq<Profile>, newIds: seq<TransportId>, dryRun: bool)
    requires |newIds| == |ps| && forall i :: 0 <= i < |ps| ==> TransportSettled(t, ps[i])
    ensures PutTransports(t, ps, newIds, dryRun) == TransportStep(t, ZERO)
    decreases |ps|
  {
    if ps != [] {
      var n := |ps| - 1;
      SettledTransportsStay(t, ps[..n], newIds[..n], dryRun);
      NeedsUpdateExactly(t[ps[n].name], ps[n].spec);
    }
  }

  /** A route is settled when no later run would change it, at whatever time. */
  ghost predicate RouteSettled(r: Routes, t: Transports, c: Cell, cfg: Settings) {
    && c.name in r && c.transport in t
    && forall now :: DesiredRoute(r[c.name], c.node, c.entry, Some(t[c.transport].id), cfg.base, cfg.recover, now) == r[c.name]
  }

  /** Recovery off, or a base weight that leaves a recovered route some weight. */
  predicate Converges(cfg: Settings) {
    !cfg.recover || cfg.base > 0
  }

  lemma DesiredIsStable(r: Route, c: Cell, id: TransportId, cfg: Settings, now: Time, later: Time)
    requires 0 <= cfg.base && Converges(cfg)
    ensures var d := DesiredRoute(r, c.node, c.entry, Some(id), cfg.base, cfg.recover, now);
            DesiredRoute(d, c.node, c.entry, Some(id), cfg.base, cfg.recover, later) == d
  {
  }

  lemma PutRouteSettles(s: RouteStep, t: Transports, c: Cell, cfg: Settings, now: Time)
    requires 0 <= cfg.base && Converges(cfg) && !cfg.dryRun && c.transport in t
    ensures RouteSettled(PutRoute(s, t, c, cfg, now).table, t, c, cfg)
  {
    var id := t[c.transport].id;
    var r := PutRoute(s, t, c, cfg, now).table[c.name];
    forall later ensures DesiredRoute(r, c.node, c.entry, Some(id), cfg.base, cfg.recover, later) == r {
      if c.name in s.table {
        DesiredIsStable(s.table[c.name], c, id, cfg, now, later);
      }
    }
  }

  lemma {:induction false} RoutesSettle(r: Routes, t: Transports, cs: seq<Cell>, cfg: Settings, now: Time)
    requires 0 <= cfg.base && Converges(cfg) && !cfg.dryRun && DistinctCells(cs)
    requires forall i :: 0 <= i < |cs| ==> cs[i].transport in t
    ensures forall i :: 0 <= i < |cs| ==> RouteSettled(PutRoutes(r, t, cs, cfg, now).table, t, cs[i], cfg)
    decreases |cs|
  {
    if cs != [] {
      var n := |cs| - 1;
      RoutesSettle(r, t, cs[..n], cfg, now);
      var before := PutRoutes(r, t, cs[..n], cfg, now);
      PutRouteSettles(before, t, cs[n], cfg, now);
      forall i | 0 <= i < n ensures RouteSettled(PutRoutes(r, t, cs, cfg, now).table, t, cs[i], cfg) {
        assert cs[..n][i] == cs[i] && RouteSettled(before.table, t, cs[i], cfg);
      }
    }
  }

  lemma {:induction false} SettledRoutesStay(r: Routes, t: Transports, cs: seq<Cell>, cfg: Settings, now: Time)
    requires forall i :: 0 <= i < |cs| ==> RouteSettled(r, t, cs[i], cfg)
    ensures PutRoutes(r, t, cs, cfg, now) == RouteStep(r, ZERO)
    decreases |cs|
  {
    if cs != [] {
      var n := |cs| - 1;
      SettledRoutesStay(r, t, cs[..n], cfg, now);
      assert RouteSettled(r, t, cs[n], cfg);
    }
  }

  /**
    Idempotence. With distinct names, and with recovery off or a positive base weight, a second run of
    the same payload changes no row and counts nothing, whenever it happens.
   */
  lemma BootstrapIdempotent(t: Transports, r: Routes, ps: seq<Profile>, cs: seq<Cell>, cfg: Settings,
                            newIds: seq<TransportId>, newIds': seq<TransportId>, now: Time, later: Time)
    requires |newIds| == |ps| == |newIds'| && DistinctProfiles(ps) && DistinctCells(cs)
    requires forall i :: 0 <= i < |cs| ==> exists k :: 0 <= k < |ps| && ps[k].name == cs[i].transport
    requires 0 <= cfg.base && !cfg.dryRun && Converges(cfg)
    ensures var t1 := PutTransports(t, ps, newIds, false).table;
            var r1 := PutRoutes(r, t1, cs, cfg, now).table;
            && PutTransports(t1, ps, newIds', false) == TransportStep(t1, ZERO)
            && PutRoutes(r1, t1, cs, cfg, later) == RouteStep(r1, ZERO)
  {
    TransportsSettle(t, ps, newIds);
    var t1 := PutTransports(t, ps, newIds, false).table;
    SettledTransportsStay(t1, ps, newIds', false);
    forall i | 0 <= i < |cs| ensures cs[i].transport in t1 {
      var k :| 0 <= k < |ps| && ps[k].name == cs[i].transport;
      assert TransportSettled(t1, ps[k]);
    }
    RoutesSettle(r, t1, cs, cfg, now);
    SettledRoutesStay(PutRoutes(r, t1, cs, cfg, now).table, t1, cs, cfg, later);
  }

  // ---- What one run writes and counts -------------------------------------------------------------

  /** How many of the flags are set. */
  function Tally(flags: seq<bool>): nat {
    if flags == [] then 0 else Tally(flags[..|flags| - 1]) + if flags[|flags| - 1] then 1 else 0
  }

  function NewProfiles(t: Transports, ps: seq<Profile>): seq<bool> {
    seq(|ps|, i requires 0 <= i < |ps| => ps[i].name !in t)
  }

  function ChangedProfiles(t: Transports, ps: seq<Profile>): seq<bool> {
    seq(|ps|, i requires 0 <= i < |ps| => ps[i].name in t && (t[ps[i].name].spec != ps[i].spec || !t[ps[i].name].active))
  }

  function SleepingProfiles(t: Transports, ps: seq<Profile>): seq<bool> {
    seq(|ps|, i requires 0 <= i < |ps| => ps[i].name in t && !t[ps[i].name].active)
  }

  lemma OneProfileMore(t: Transports, ps: seq<Profile>)
    requires ps != []
    ensures var n := |ps| - 1; var init, p := ps[..n], ps[n];
            && Tally(NewProfiles(t, ps)) == Tally(NewProfiles(t, init)) + (if p.name !in t then 1 else 0)
            && Tally(ChangedProfiles(t, ps)) == Tally(ChangedProfiles(t, init))
                 + (if p.name in t && (t[p.name].spec != p.spec || !t[p.name].active) then 1 else 0)
            && Tally(SleepingProfiles(t, ps)) == Tally(SleepingProfiles(t, init)) + (if p.name in t && !t[p.name].active then 1 else 0)
  {
    var n := |ps| - 1;
    assert NewProfiles(t, ps)[..n] == NewProfiles(t, ps[..n]);
    assert ChangedProfiles(t, ps)[..n] == ChangedProfiles(t, ps[..n]);
    assert SleepingProfiles(t, ps)[..n] == SleepingProfiles(t, ps[..n]);
  }

  /** The counters say how many transports were new, how many differed or were inactive, and how many were inactive. */
  lemma {:induction false} TransportsCounted(t: Transports, ps: seq<Profile>, newIds: seq<TransportId>, dryRun: bool)
    requires |newIds| == |ps| && DistinctProfiles(ps)
    ensures PutTransports(t, ps, newIds, dryRun).counters
         == Counters(Tally(NewProfiles(t, ps)), Tally(ChangedProfiles(t, ps)), Tally(SleepingProfiles(t, ps)))
    decreases |ps|
  {
    if ps != [] {
      hide TransportNeedsUpdate, NewProfiles, ChangedProfiles, SleepingProfiles;
      var n := |ps| - 1;
      var init, p := ps[..n], ps[n];
      assert forall i :: 0 <= i < n ==> init[i] == ps[i];
      TransportsCounted(t, init, newIds[..n], dryRun);
      UntouchedSoFar(t, init, newIds[..n], dryRun, p.name);
      OneProfileMore(t, ps);
      if p.name in t { NeedsUpdateExactly(t[p.name], p.spec); }
    }
  }

  lemma {:induction false} UntouchedSoFar(t: Transports, ps: seq<Profile>, newIds: seq<TransportId>, dryRun: bool, name: TransportName)
    requires |newIds| == |ps| && forall i :: 0 <= i < |ps| ==> ps[i].name != name
    ensures var t1 := PutTransports(t, ps, newIds, dryRun).table;
            (name in t1 <==> name in t) && (name in t ==> t1[name] == t[name])
    decreases |ps|
  {
    if ps != [] {
      hide TransportNeedsUpdate;
      UntouchedSoFar(t, ps[..|ps| - 1], newIds[..|ps| - 1], dryRun, name);
    }
  }

  function NewCells(r: Routes, cs: seq<Cell>): seq<bool> {
    seq(|cs|, i requires 0 <= i < |cs| => cs[i].name !in r)
  }

  /** The cell's route is not the one it should be. */
  predicate Off(r: Routes, t: Transports, c: Cell, cfg: Settings, now: Time) {
    c.name in r && DesiredRoute(r[c.name], c.node, c.entry, IdOf(t, c.transport), cfg.base, cfg.recover, now) != r[c.name]
  }

  function OffCells(r: Routes, t: Transports, cs: seq<Cell>, cfg: Settings, now: Time): seq<bool> {
    seq(|cs|, i requires 0 <= i < |cs| => Off(r, t, cs[i], cfg, now))
  }

  function SleepingCells(r: Routes, cs: seq<Cell>): seq<bool> {
    seq(|cs|, i requires 0 <= i < |cs| => cs[i].name in r && !r[cs[i].name].active)
  }

  lemma OneCellMore(r: Routes, t: Transports, cs: seq<Cell>, cfg: Settings, now: Time)
    requires cs != []
    ensures var n := |cs| - 1; var init, c := cs[..n], cs[n];
            && Tally(NewCells(r, cs)) == Tally(NewCells(r, init)) + (if c.name !in r then 1 else 0)
            && Tally(OffCells(r, t, cs, cfg, now)) == Tally(OffCells(r, t, init, cfg, now)) + (if Off(r, t, c, cfg, now) then 1 else 0)
            && Tally(SleepingCells(r, cs)) == Tally(SleepingCells(r, init)) + (if c.name in r && !r[c.name].active then 1 else 0)
  {
    hide Off;
    var n := |cs| - 1;
    assert NewCells(r, cs)[..n] == NewCells(r, cs[..n]);
    assert OffCells(r, t, cs, cfg, now)[..n] == OffCells(r, t, cs[..n], cfg, now);
    assert SleepingCells(r, cs)[..n] == SleepingCells(r, cs[..n]);
  }

  /** The same for routes: new ones, those that were not as desired, and those that were inactive. */
  lemma {:induction false} RoutesCounted(r: Routes, t: Transports, cs: seq<Cell>, cfg: Settings, now: Time)
    requires DistinctCells(cs)
    ensures PutRoutes(r, t, cs, cfg, now).counters
         == Counters(Tally(NewCells(r, cs)), Tally(OffCells(r, t, cs, cfg, now)), Tally(SleepingCells(r, cs)))
    decreases |cs|
  {
    if cs != [] {
      var n := |cs| - 1;
      var init, c := cs[..n], cs[n];
      if c.name in r { SleepersAreOff(r[c.name], t, c, cfg, now); }
      hide DesiredRoute, PutRoute, NewCells, OffCells, SleepingCells, IdOf;
      assert forall i :: 0 <= i < n ==> init[i] == cs[i];
      RoutesCounted(r, t, init, cfg, now);
      RouteUntouchedSoFar(r, t, init, cfg, now, c.name);
      OneCellMore(r, t, cs, cfg, now);
      OneRouteCounted(PutRoutes(r, t, init, cfg, now), t, c, cfg, now,
                      Off(r, t, c, cfg, now), c.name in r && !r[c.name].active);
    }
  }

  lemma SleepersAreOff(x: Route, t: Transports, c: Cell, cfg: Settings, now: Time)
    ensures !x.active ==> DesiredRoute(x, c.node, c.entry, IdOf(t, c.transport), cfg.base, cfg.recover, now) != x
  {
  }

  lemma OneRouteCounted(s: RouteStep, t: Transports, c: Cell, cfg: Settings, now: Time, off: bool, sleeping: bool)
    requires off <==> c.name in s.table
                      && DesiredRoute(s.table[c.name], c.node, c.entry, IdOf(t, c.transport), cfg.base, cfg.recover, now) != s.table[c.name]
    requires sleeping <==> c.name in s.table && !s.table[c.name].active
    requires sleeping ==> off
    ensures var k, k' := s.counters, PutRoute(s, t, c, cfg, now).counters;
            && k'.created == k.created + (if c.name !in s.table then 1 else 0)
            && k'.updated == k.updated + (if off then 1 else 0)
            && k'.reactivated == k.reactivated + (if sleeping then 1 else 0)
  {
    hide DesiredRoute;
  }

  lemma {:induction false} RouteUntouchedSoFar(r: Routes, t: Transports, cs: seq<Cell>, cfg: Settings, now: Time, name: RouteName)
    requires forall i :: 0 <= i < |cs| ==> cs[i].name != name
    ensures var r1 := PutRoutes(r, t, cs, cfg, now).table;
            (name in r1 <==> name in r) && (name in r ==> r1[name] == r[name])
    decreases |cs|
  {
    if cs != [] {
      hide DesiredRoute;
      RouteUntouchedSoFar(r, t, cs[..|cs| - 1], cfg, now, name);
    }
  }

  lemma {:induction false} RoutesWritten(r: Routes, t: Transports, cs: seq<Cell>, cfg: Settings, now: Time, i: nat)
    requires DistinctCells(cs) && i < |cs| && !cfg.dryRun && cs[i].transport in t
    ensures var r1 := PutRoutes(r, t, cs, cfg, now).table; var c := cs[i]; var id := t[c.transport].id;
            && c.name in r1
            && r1[c.name] == if c.name in r then DesiredRoute(r[c.name], c.node, c.entry, Some(id), cfg.base, cfg.recover, now)
                             else Route(c.node, c.entry, id, Healthy, cfg.base, cfg.base, None, None, None, true)
    decreases |cs|
  {
    hide DesiredRoute;
    var n := |cs| - 1;
    var init := cs[..n];
    assert forall k :: 0 <= k < n ==> init[k] == cs[k];
    if i < n {
      RoutesWritten(r, t, init, cfg, now, i);
    } else {
      RouteUntouchedSoFar(r, t, init, cfg, now, cs[n].name);
    }
  }

  // ---- The remaining case ------------------------------------------------------------------------

  /** The check constraints on route weights. */
  ghost predicate WellWeighted(r: Routes) {
    forall n :: n in r ==> 0 <= r[n].effectiveWeight <= r[n].baseWeight
  }

  /** A route of the cell without any weight, last sent to warm-up at `now` or never. */
  predicate Weightless(r: Routes, t: Transports, c: Cell, now: Time) {
    && c.name in r && c.transport in t
    && var x := r[c.name];
       && x.node == c.node && x.entry == c.entry && x.transport == t[c.transport].id && x.active
       && x.baseWeight == 0 && x.effectiveWeight == 0
       && (x.warmupStartedAt == None || x.warmupStartedAt == Some(now))
  }

  lemma PutRouteWeightless(s: RouteStep, t: Transports, c: Cell, cfg: Settings, now: Time)
    requires cfg.base == 0 && cfg.recover && !cfg.dryRun && WellWeighted(s.table) && c.transport in t
    ensures Weightless(PutRoute(s, t, c, cfg, now).table, t, c, now)
    ensures WellWeighted(PutRoute(s, t, c, cfg, now).table)
    ensures forall m :: m != c.name ==>
              && (m in PutRoute(s, t, c, cfg, now).table <==> m in s.table)
              && (m in s.table ==> PutRoute(s, t, c, cfg, now).table[m] == s.table[m])
  {
  }

  lemma {:induction false} RoutesWeightless(r: Routes, t: Transports, cs: seq<Cell>, cfg: Settings, now: Time)
    requires cfg.base == 0 && cfg.recover && !cfg.dryRun && DistinctCells(cs) && WellWeighted(r)
    requires forall i :: 0 <= i < |cs| ==> cs[i].transport in t
    ensures WellWeighted(PutRoutes(r, t, cs, cfg, now).table)
    ensures forall i :: 0 <= i < |cs| ==> Weightless(PutRoutes(r, t, cs, cfg, now).table, t, cs[i], now)
    decreases |cs|
  {
    if cs != [] {
      var n := |cs| - 1;
      hide PutRoute;
      RoutesWeightless(r, t, cs[..n], cfg, now);
      assert forall i :: 0 <= i < n ==> cs[..n][i] == cs[i];
      PutRouteWeightless(PutRoutes(r, t, cs[..n], cfg, now), t, cs[n], cfg, now);
    }
  }

  lemma {:induction false} WeightlessAllChange(r: Routes, t: Transports, cs: seq<Cell>, cfg: Settings, now: Time, later: Time)
    requires cfg.base == 0 && cfg.recover && !cfg.dryRun && DistinctCells(cs) && now != later
    requires forall i :: 0 <= i < |cs| ==> Weightless(r, t, cs[i], now)
    ensures PutRoutes(r, t, cs, cfg, later).counters == Counters(0, |cs|, 0)
    ensures forall n :: n in r && (forall i :: 0 <= i < |cs| ==> cs[i].name != n) ==>
              n in PutRoutes(r, t, cs, cfg, later).table && PutRoutes(r, t, cs, cfg, later).table[n] == r[n]
    decreases |cs|
  {
    if cs != [] {
      var n := |cs| - 1;
      var init := cs[..n];
      assert forall i :: 0 <= i < n ==> init[i] == cs[i];
      WeightlessAllChange(r, t, init, cfg, now, later);
      assert Weightless(r, t, cs[n], now);
    }
  }

  /**
    The condition is exact: with recovery on and base weight zero every route is weightless after the
    first run, so a second run at another time sends each of them to warm-up again.
   */
  lemma ZeroWeightNeverSettles(t: Transports, r: Routes, ps: seq<Profile>, cs: seq<Cell>, cfg: Settings,
                               newIds: seq<TransportId>, now: Time, later: Time)
    requires |newIds| == |ps| && DistinctProfiles(ps) && DistinctCells(cs) && WellWeighted(r) && now != later
    requires forall i :: 0 <= i < |cs| ==> exists k :: 0 <= k < |ps| && ps[k].name == cs[i].transport
    requires cfg.base == 0 && !cfg.dryRun && !Converges(cfg)
    ensures var t1 := PutTransports(t, ps, newIds, false).table;
            var r1 := PutRoutes(r, t1, cs, cfg, now).table;
            PutRoutes(r1, t1, cs, cfg, later).counters == Counters(0, |cs|, 0)
  {
    TransportsSettle(t, ps, newIds);
    var t1 := PutTransports(t, ps, newIds, false).table;
    forall i | 0 <= i < |cs| ensures cs[i].transport in t1 {
      var k :| 0 <= k < |ps| && ps[k].name == cs[i].transport;
      assert TransportSettled(t1, ps[k]);
    }
    RoutesWeightless(r, t1, cs, cfg, now);
    WeightlessAllChange(PutRoutes(r, t1, cs, cfg, now).table, t1, cs, cfg, now, later);
  }

  // ---- Dry runs ------------------------------------------------------------------------------------

  /** One profile, really written or only forecast, onto tables that agree on its row. */
  lemma ForecastOne(t: Transports, s: TransportStep, p: Profile, newId: TransportId)
    requires (p.name in s.table <==> p.name in t) && (p.name in t ==> s.table[p.name] == t[p.name])
    ensures PutTransport(TransportStep(t, s.counters), p, newId, true)
            == TransportStep(t, PutTransport(s, p, newId, false).counters)
    ensures var t1 := PutTransport(s, p, newId, false).table;
            && p.name in t1 && t1[p.name].id == (if p.name in t then t[p.name].id else newId)
            && forall n :: n != p.name ==> (n in t1 <==> n in s.table) && (n in t1 ==> t1[n] == s.table[n])
  {
  }

  /** A dry run counts what a real run counts, and the real run keeps every known identifier. */
  lemma {:induction false} DryTransportsForecast(t: Transports, ps: seq<Profile>, newIds: seq<TransportId>)
    requires |newIds| == |ps| && DistinctProfiles(ps)
    ensures PutTransports(t, ps, newIds, true) == TransportStep(t, PutTransports(t, ps, newIds, false).counters)
    ensures var t1 := PutTransports(t, ps, newIds, false).table;
            && (forall n :: n in t ==> n in t1 && t1[n].id == t[n].id)
            && (forall n :: n in t1 && n !in t ==> t1[n].id in newIds)
            && (forall n :: (forall i :: 0 <= i < |ps| ==> ps[i].name != n) ==> (n in t1 <==> n in t) && (n in t ==> t1[n] == t[n]))
    decreases |ps|
  {
    if ps != [] {
      var n := |ps| - 1;
      assert forall i :: 0 <= i < n ==> ps[..n][i] == ps[i];
      hide PutTransport;
      DryTransportsForecast(t, ps[..n], newIds[..n]);
      assert forall i :: 0 <= i < n ==> ps[..n][i].name != ps[n].name;
      ForecastOne(t, PutTransports(t, ps[..n], newIds[..n], false), ps[n], newIds[n]);
    }
  }

  /** A settled route that will move to a transport still to be created: the dry run has no identifier to compare. */
  predicate Missed(r: Routes, t: Transports, c: Cell, cfg: Settings, now: Time) {
    && c.name in r && c.transport !in t
    && DesiredRoute(r[c.name], c.node, c.entry, None, cfg.base, cfg.recover, now) == r[c.name]
  }

  function CountMissed(r: Routes, t: Transports, cs: seq<Cell>, cfg: Settings, now: Time): nat
    decreases |cs|
  {
    if cs == [] then 0
    else CountMissed(r, t, cs[..|cs| - 1], cfg, now) + if Missed(r, t, cs[|cs| - 1], cfg, now) then 1 else 0
  }

  /** What the real run finds for the cell: the same identifier, or a new one no route uses yet. */
  predicate Provides(r: Routes, t: Transports, t1: Transports, c: Cell) {
    && c.transport in t1
    && (c.transport in t ==> t1[c.transport].id == t[c.transport].id)
    && (c.transport !in t && c.name in r ==> t1[c.transport].id != r[c.name].transport)
  }

  predicate SameRow(r: Routes, r1: Routes, n: RouteName) {
    (n in r1 <==> n in r) && (n in r ==> r1[n] == r[n])
  }

  lemma CellForecast(r: Routes, dry: Counters, s: RouteStep, t: Transports, t1: Transports, c: Cell, cfg: Settings, now: Time)
    requires SameRow(r, s.table, c.name) && Provides(r, t, t1, c)
    ensures var d := PutRoute(RouteStep(r, dry), t, c, cfg.(dryRun := true), now);
            var a := PutRoute(s, t1, c, cfg.(dryRun := false), now);
            && d.table == r
            && a.counters.created - s.counters.created == d.counters.created - dry.created
            && a.counters.reactivated - s.counters.reactivated == d.counters.reactivated - dry.reactivated
            && a.counters.updated - s.counters.updated
               == d.counters.updated - dry.updated + (if Missed(r, t, c, cfg, now) then 1 else 0)
            && forall n :: n != c.name ==> SameRow(s.table, a.table, n)
  {
  }

  lemma {:induction false} RoutesForecast(r: Routes, t: Transports, t1: Transports, cs: seq<Cell>, cfg: Settings, now: Time)
    requires DistinctCells(cs)
    requires forall i :: 0 <= i < |cs| ==> Provides(r, t, t1, cs[i])
    ensures var d := PutRoutes(r, t, cs, cfg.(dryRun := true), now);
            var a := PutRoutes(r, t1, cs, cfg.(dryRun := false), now);
            && d.table == r
            && a.counters == d.counters.(updated := d.counters.updated + CountMissed(r, t, cs, cfg, now))
            && forall n :: (forall i :: 0 <= i < |cs| ==> cs[i].name != n) ==> SameRow(r, a.table, n)
    decreases |cs|
  {
    if cs != [] {
      hide PutRoute, Missed, Provides;
      var n := |cs| - 1;
      var init, c := cs[..n], cs[n];
      assert forall i :: 0 <= i < n ==> init[i] == cs[i];
      RoutesForecast(r, t, t1, init, cfg, now);
      var d := PutRoutes(r, t, init, cfg.(dryRun := true), now);
      var a := PutRoutes(r, t1, init, cfg.(dryRun := false), now);
      assert SameRow(r, a.table, c.name);
      CellForecast(r, d.counters, a, t, t1, c, cfg, now);
      assert d == RouteStep(r, d.counters);
      assert PutRoutes(r, t, cs, cfg.(dryRun := true), now) == PutRoute(d, t, c, cfg.(dryRun := true), now);
      forall m | forall i :: 0 <= i < |cs| ==> cs[i].name != m
        ensures SameRow(r, PutRoutes(r, t1, cs, cfg.(dryRun := false), now).table, m)
      {
        assert SameRow(r, a.table, m);
      }
    }
  }

  lemma {:induction false} NothingMissed(r: Routes, t: Transports, cs: seq<Cell>, cfg: Settings, now: Time)
    ensures CountMissed(r, t, cs, cfg, now) == 0 <==> forall i :: 0 <= i < |cs| ==> !Missed(r, t, cs[i], cfg, now)
    decreases |cs|
  {
    if cs != [] {
      var n := |cs| - 1;
      var init := cs[..n];
      NothingMissed(r, t, init, cfg, now);
      assert forall i :: 0 <= i < n ==> init[i] == cs[i];
      if Missed(r, t, cs[n], cfg, now) {
        assert CountMissed(r, t, cs, cfg, now) > 0;
      } else {
        assert CountMissed(r, t, cs, cfg, now) == CountMissed(r, t, init, cfg, now);
      }
    }
  }

  /**
    What a dry run is worth. It changes nothing, and its counters are the real run's, except that the
    routes it reports as updated fall short by the missed ones; so the forecast is exact if and only if
    no settled route waits for a transport still to be created.
   */
  lemma DryRunForecasts(t: Transports, r: Routes, ps: seq<Profile>, cs: seq<Cell>, cfg: Settings,
                        newIds: seq<TransportId>, now: Time)
    requires |newIds| == |ps| && DistinctProfiles(ps) && DistinctCells(cs)
    requires forall i :: 0 <= i < |cs| ==> exists k :: 0 <= k < |ps| && ps[k].name == cs[i].transport
    requires forall n :: n in r ==> r[n].transport !in newIds
    ensures var actual := PutTransports(t, ps, newIds, false);
            var dry := PutRoutes(r, t, cs, cfg.(dryRun := true), now);
            var counted := PutRoutes(r, actual.table, cs, cfg.(dryRun := false), now).counters;
            && PutTransports(t, ps, newIds, true) == TransportStep(t, actual.counters)
            && dry.table == r
            && counted == dry.counters.(updated := dry.counters.updated + CountMissed(r, t, cs, cfg, now))
            && (dry.counters == counted <==> forall i :: 0 <= i < |cs| ==> !Missed(r, t, cs[i], cfg, now))
  {
    DryTransportsForecast(t, ps, newIds);
    TransportsSettle(t, ps, newIds);
    var t1 := PutTransports(t, ps, newIds, false).table;
    forall i | 0 <= i < |cs| ensures Provides(r, t, t1, cs[i]) {
      var k :| 0 <= k < |ps| && ps[k].name == cs[i].transport;
      assert TransportSettled(t1, ps[k]);
    }
    RoutesForecast(r, t, t1, cs, cfg, now);
    NothingMissed(r, t, cs, cfg, now);
  }

  /** A settled route and a payload whose transport is new: the dry run foresees no update, the real run makes one. */
  lemma DryRunMisses(spec: TransportSpec, current: TransportId, newId: TransportId, now: Time)
    requires current != newId
    ensures var r := map[1 := Route(2, None, current, Healthy, 100, 100, None, None, None, true)];
            var cs := [Cell(1, 2, None, 9)];
            var t1 := PutTransports(map[], [Profile(9, spec)], [newId], false).table;
            && PutRoutes(r, map[], cs, Settings(100, true, true), now).counters == ZERO
            && PutRoutes(r, t1, cs, Settings(100, true, false), now).counters == Counters(0, 1, 0)
  {
    var r := map[1 := Route(2, None, current, Healthy, 100, 100, None, None, None, true)];
    var c, cfg := Cell(1, 2, None, 9), Settings(100, true, true);
    var ps: seq<Profile> := [Profile(9, spec)];
    assert [c][..0] == [] && CountMissed(r, map[], [], cfg, now) == 0;
    assert Missed(r, map[], c, cfg, now);
    assert CountMissed(r, map[], [c], cfg, now) == 1;
    assert PutRoutes(r, map[], [c], cfg, now) == PutRoute(RouteStep(r, ZERO), map[], c, cfg, now);
    assert ps[0].name == c.transport;
    DryRunForecasts(map[], r, ps, [c], cfg, [newId], now);
  }

  // ---- The run --------------------------------------------------------------------------------------

  class ProfileArtifactService {
    var transports: Transports
    var routes: Routes

    method SyncTransports(ps: seq<Profile>, newIds: seq<TransportId>, dryRun: bool) returns (c: Counters)
      requires |newIds| == |ps|
      modifies this`transports
      ensures TransportStep(transports, c) == PutTransports(old(transports), ps, newIds, dryRun)
      ensures dryRun ==> transports == old(transports)
    {
      ghost var t := transports;
      c := ZERO;
      for n := 0 to |ps|
        invariant TransportStep(transports, c) == PutTransports(t, ps[..n], newIds[..n], dryRun)
        invariant dryRun ==> transports == t
      {
        assert ps[..n + 1][..n] == ps[..n] && newIds[..n + 1][..n] == newIds[..n];
        var p := ps[n];
        if p.name !in transports {
          c := c.(created := c.created + 1);
          if !dryRun { transports := transports[p.name := Transport(newIds[n], p.spec, true)]; }
        } else {
          var existing := transports[p.name];
          var changed := TransportNeedsUpdate(existing, p.spec);
          if !existing.active { c := c.(reactivated := c.reactivated + 1); }
          if changed || !existing.active {
            c := c.(updated := c.updated + 1);
            if !dryRun { transports := transports[p.name := existing.(spec := p.spec, active := true)]; }
          }
        }
      }
      assert ps[..|ps|] == ps && newIds[..|ps|] == newIds;
    }

    method SyncRoutes(cs: seq<Cell>, cfg: Settings, now: Time) returns (c: Counters)
      modifies this`routes
      ensures RouteStep(routes, c) == PutRoutes(old(routes), transports, cs, cfg, now)
    {
      ghost var r := routes;
      c := ZERO;
      for n := 0 to |cs|
        invariant RouteStep(routes, c) == PutRoutes(r, transports, cs[..n], cfg, now)
      {
        assert cs[..n + 1][..n] == cs[..n];
        var cell := cs[n];
        var id := IdOf(transports, cell.transport);
        if cell.name !in routes {
          c := c.(created := c.created + 1);
          if !cfg.dryRun && id.Some? { routes := routes[cell.name := NewRoute(cell, id.value, cfg.base)]; }
        } else {
          var existing := routes[cell.name];
          var update := BuildRouteUpdate(existing, cell.node, cell.entry, id, cfg.base, cfg.recover, now);
          if update.Some? {
            if !existing.active { c := c.(reactivated := c.reactivated + 1); }
            c := c.(updated := c.updated + 1);
            if !cfg.dryRun { routes := routes[cell.name := update.value]; }
          }
        }
      }
      assert cs[..|cs|] == cs;
    }

    method BootstrapRoutes(ps: seq<Profile>, cs: seq<Cell>, cfg: Settings, newIds: seq<TransportId>, now: Time)
      returns (forTransports: Counters, forRoutes: Counters)
      requires |newIds| == |ps|
      modifies this
      ensures TransportStep(transports, forTransports) == PutTransports(old(transports), ps, newIds, cfg.dryRun)
      ensures RouteStep(routes, forRoutes) == PutRoutes(old(routes), transports, cs, cfg, now)
    {
      forTransports := SyncTransports(ps, newIds, cfg.dryRun);
      forRoutes := SyncRoutes(cs, cfg, now);
    }
  }
}
