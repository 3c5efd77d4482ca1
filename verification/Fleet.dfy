/**
  Nodes, entry assignments and the pool snapshots sent to entry nodes. Every flip
  of a backend's flags, whoever makes it, has to be followed by new snapshots for
  the entries in front of it. Calls that raise roll their transaction back.
 */
module Fleet {
  import opened Common
  import opened Heartbeat

  type NodeId = int

  /** A role is free text; three values mean something. */
  datatype Role = Backend | Entry | WhitelistEntry | OtherRole(text: string)

  datatype Node = Node(role: Role, flags: Flags, realityIp: Option<string>, wgIp: string)

  datatype Assignment = Assignment(weight: int, enabled: bool, rank: int, active: bool, updatedAt: Time)

  type Nodes = map<NodeId, Node>

  /** Keyed by (entry, backend), which the table keeps unique. */
  type Assignments = map<(NodeId, NodeId), Assignment>

  datatype RelayBackend = RelayBackend(id: NodeId, address: string, weight: int, enabled: bool, rank: int)

  /** A pool up to the order of its list. */
  datatype Pool = Pool(generation: int, backends: set<RelayBackend>)

  // ---- The relay pool ----------------------------------------------------------

  predicate Blank(c: char) {
    c == ' ' || '\t' <= c <= '\r' || 28 <= c as int <= 31
  }

  function Strip(s: string): string
    decreases |s|
  {
    if s == "" then ""
    else if Blank(s[0]) then Strip(s[1..])
    else if Blank(s[|s| - 1]) then Strip(s[..|s| - 1])
    else s
  }

  ghost predicate AllBlank(s: string) {
    forall k :: 0 <= k < |s| ==> Blank(s[k])
  }

  /** `out` is what remains of `s` between positions `i` and `j`, with only blanks outside. */
  ghost predicate CutsTo(s: string, out: string, i: nat, j: nat) {
    i <= j <= |s| && out == s[i..j] && AllBlank(s[..i]) && AllBlank(s[j..])
  }

  /** `out` is `s` without blanks at either end. */
  ghost predicate IsStripped(s: string, out: string) {
    && (exists i: nat, j: nat :: CutsTo(s, out, i, j))
    && (out != "" ==> !Blank(out[0]) && !Blank(out[|out| - 1]))
  }

  lemma CutFront(s: string, out: string, i: nat, j: nat)
    requires s != "" && Blank(s[0]) && CutsTo(s[1..], out, i, j)
    ensures CutsTo(s, out, i + 1, j + 1)
  {
    var t := s[1..];
    assert s[i + 1..j + 1] == t[i..j] && s[j + 1..] == t[j..];
    assert s[..i + 1] == [s[0]] + t[..i];
  }

  lemma CutBack(s: string, out: string, i: nat, j: nat)
    requires s != "" && Blank(s[|s| - 1]) && CutsTo(s[..|s| - 1], out, i, j)
    ensures CutsTo(s, out, i, j)
  {
    var t := s[..|s| - 1];
    assert s[i..j] == t[i..j] && s[..i] == t[..i];
    assert s[j..] == t[j..] + [s[|s| - 1]];
  }

  lemma {:induction false} StripMeans(s: string)
    ensures IsStripped(s, Strip(s))
    decreases |s|
  {
    hide CutsTo;
    if s == "" || (!Blank(s[0]) && !Blank(s[|s| - 1])) {
      CutsNothing(s);
    } else if Blank(s[0]) {
      StripMeans(s[1..]);
      var i: nat, j: nat :| CutsTo(s[1..], Strip(s[1..]), i, j);
      CutFront(s, Strip(s[1..]), i, j);
    } else {
      var t := s[..|s| - 1];
      StripMeans(t);
      var i: nat, j: nat :| CutsTo(t, Strip(t), i, j);
      CutBack(s, Strip(t), i, j);
    }
  }

  lemma CutsNothing(s: string)
    ensures CutsTo(s, s, 0, |s|)
  {
    assert s[0..|s|] == s;
  }

  /** `reality_ip or internal_wg_ip`, stripped; nothing left means no address. */
  function Address(n: Node): Option<string> {
    var candidate := Strip(if n.realityIp.Some? && n.realityIp.value != "" then n.realityIp.value else n.wgIp);
    if candidate == "" then None else Some(candidate)
  }

  predicate IsEntryRole(r: Role) {
    r == Entry || r == WhitelistEntry
  }

  predicate ValidEntry(nodes: Nodes, e: NodeId) {
    e in nodes && nodes[e].flags.active && IsEntryRole(nodes[e].role)
  }

  predicate Relayed(nodes: Nodes, a: Assignments, e: NodeId, b: NodeId) {
    && (e, b) in a && a[(e, b)].active
    && b in nodes && nodes[b].flags.active && Address(nodes[b]).Some?
  }

  function RelayOf(nodes: Nodes, a: Assignments, e: NodeId, b: NodeId): RelayBackend
    requires Relayed(nodes, a, e, b)
  {
    var f := nodes[b].flags;
    RelayBackend(b, Address(nodes[b]).value, a[(e, b)].weight, a[(e, b)].enabled && f.enabled && !f.draining, a[(e, b)].rank)
  }

  function ActivePairs(a: Assignments, e: NodeId): set<(NodeId, NodeId)> {
    set p | p in a && p.0 == e && a[p].active
  }

  /** The time of the latest change among the entry's active assignments. */
  ghost predicate IsGeneration(a: Assignments, e: NodeId, g: int) {
    && (ActivePairs(a, e) == {} ==> g == 0)
    && (ActivePairs(a, e) != {} ==> exists p :: p in ActivePairs(a, e) && a[p].updatedAt == g)
    && (forall p :: p in ActivePairs(a, e) ==> a[p].updatedAt <= g)
  }

  ghost predicate IsPool(nodes: Nodes, a: Assignments, e: NodeId, pool: Pool) {
    && IsGeneration(a, e, pool.generation)
    && pool.backends == set b | b in nodes && Relayed(nodes, a, e, b) :: RelayOf(nodes, a, e, b)
  }

  lemma PoolUnique(nodes: Nodes, a: Assignments, e: NodeId, p: Pool, q: Pool)
    requires IsPool(nodes, a, e, p) && IsPool(nodes, a, e, q)
    ensures p == q
  {
  }

  lemma {:induction false} LatestExists(a: Assignments, ps: set<(NodeId, NodeId)>) returns (latest: (NodeId, NodeId))
    requires ps != {} && forall p :: p in ps ==> p in a
    ensures latest in ps && forall p :: p in ps ==> a[p].updatedAt <= a[latest].updatedAt
    decreases |ps|
  {
    latest :| latest in ps;
    var rest := ps - {latest};
    if rest != {} {
      var other := LatestExists(a, rest);
      if a[latest].updatedAt < a[other].updatedAt {
        latest := other;
      }
    }
  }

  lemma PoolExists(nodes: Nodes, a: Assignments, e: NodeId)
    ensures exists pool :: IsPool(nodes, a, e, pool)
  {
    var g := 0;
    if ActivePairs(a, e) != {} {
      var p := LatestExists(a, ActivePairs(a, e));
      g := a[p].updatedAt;
    }
    assert IsPool(nodes, a, e, Pool(g, set b | b in nodes && Relayed(nodes, a, e, b) :: RelayOf(nodes, a, e, b)));
  }

  /** What `get_relay_pool` computes for a valid entry. */
  ghost function PoolOf(nodes: Nodes, a: Assignments, e: NodeId): (pool: Pool)
    ensures IsPool(nodes, a, e, pool)
  {
    PoolExists(nodes, a, e);
    var pool :| IsPool(nodes, a, e, pool);
    pool
  }

  /** The address configured for a node: the Reality address if one is set, else the internal one. */
  function Configured(n: Node): string {
    if n.realityIp == None || n.realityIp == Some("") then n.wgIp else n.realityIp.value
  }

  predicate LinkedTo(a: Assignments, e: NodeId, b: NodeId) {
    (e, b) in a && a[(e, b)].active
  }

  /** Entry `e` is to hear of backend `b`: assigned, active and with an address. */
  ghost predicate Reachable(nodes: Nodes, a: Assignments, e: NodeId, b: NodeId) {
    && (e, b) in a && a[(e, b)].active
    && b in nodes && nodes[b].flags.active && !AllBlank(Configured(nodes[b]))
  }

  /**
    Relay `x` tells entry `e` the truth about its backend: where it is, with what weight and rank, and
    enabled exactly when the assignment and the node are both switched on and the node is not draining.
   */
  ghost predicate Truthful(nodes: Nodes, a: Assignments, e: NodeId, x: RelayBackend) {
    && (e, x.id) in a && a[(e, x.id)].active
    && x.id in nodes && nodes[x.id].flags.active
    && x.address != "" && IsStripped(Configured(nodes[x.id]), x.address)
    && x.weight == a[(e, x.id)].weight && x.rank == a[(e, x.id)].rank
    && (x.enabled <==> a[(e, x.id)].enabled && nodes[x.id].flags.enabled && !nodes[x.id].flags.draining)
  }

  lemma RelayIsTruthful(nodes: Nodes, a: Assignments, e: NodeId, b: NodeId)
    requires Relayed(nodes, a, e, b)
    ensures RelayOf(nodes, a, e, b).id == b && Truthful(nodes, a, e, RelayOf(nodes, a, e, b))
  {
    StripMeans(Configured(nodes[b]));
  }

  /**
    What a pool tells its entry: one truthful relay for each active assignment to an active node whose
    configured address is not blank, and nothing else; its generation is the latest change among the
    entry's active assignments.
   */
  lemma PoolIsTruthful(nodes: Nodes, a: Assignments, e: NodeId, pool: Pool)
    requires IsPool(nodes, a, e, pool)
    ensures forall x :: x in pool.backends ==> Truthful(nodes, a, e, x)
    ensures forall x, y :: x in pool.backends && y in pool.backends && x.id == y.id ==> x == y
    ensures forall b :: Reachable(nodes, a, e, b) ==> exists x :: x in pool.backends && x.id == b
    ensures forall b :: (e, b) in a && a[(e, b)].active ==> a[(e, b)].updatedAt <= pool.generation
    ensures if exists b :: LinkedTo(a, e, b) then exists b :: LinkedTo(a, e, b) && a[(e, b)].updatedAt == pool.generation
            else pool.generation == 0
  {
    forall x | x in pool.backends ensures Truthful(nodes, a, e, x) && Relayed(nodes, a, e, x.id) && x == RelayOf(nodes, a, e, x.id) {
      var b :| b in nodes && Relayed(nodes, a, e, b) && x == RelayOf(nodes, a, e, b);
      RelayIsTruthful(nodes, a, e, b);
    }
    forall b | Reachable(nodes, a, e, b)
      ensures exists x :: x in pool.backends && x.id == b
    {
      NotBlankStays(Configured(nodes[b]));
      assert Relayed(nodes, a, e, b);
      assert RelayOf(nodes, a, e, b) in pool.backends && RelayOf(nodes, a, e, b).id == b;
    }
    forall b | (e, b) in a && a[(e, b)].active ensures a[(e, b)].updatedAt <= pool.generation {
      assert (e, b) in ActivePairs(a, e);
    }
    forall p | p in ActivePairs(a, e) ensures LinkedTo(a, e, p.1) && a[(e, p.1)] == a[p] {
      assert p == (e, p.1);
    }
    if b :| LinkedTo(a, e, b) {
      assert (e, b) in ActivePairs(a, e);
      var p :| p in ActivePairs(a, e) && a[p].updatedAt == pool.generation;
      assert LinkedTo(a, e, p.1) && a[(e, p.1)].updatedAt == pool.generation;
    } else {
      assert ActivePairs(a, e) == {};
    }
  }

  lemma NotBlankStays(s: string)
    requires !AllBlank(s)
    ensures Strip(s) != ""
  {
    StripMeans(s);
    if Strip(s) == "" {
      var i: nat, j: nat :| CutsTo(s, Strip(s), i, j);
      forall k | 0 <= k < |s| ensures Blank(s[k]) {
        if k < i { assert s[k] == s[..i][k]; } else { assert s[k] == s[j..][k - j]; }
      }
    }
  }

  // ---- The machine ----------------------------------------------------------------

  /** `last` holds the latest snapshot enqueued for each entry, `metas` the stored heartbeat sections. */
  datatype State = State(nodes: Nodes, links: Assignments, metas: map<NodeId, Meta>, last: map<NodeId, Pool>)

  function EntriesOf(a: Assignments, b: NodeId): set<NodeId> {
    set p | p in a && p.1 == b && a[p].active :: p.0
  }

  ghost function PoolsOf(nodes: Nodes, a: Assignments, entries: set<NodeId>): map<NodeId, Pool> {
    map e | e in entries :: PoolOf(nodes, a, e)
  }

  /** Enqueues a snapshot for each listed entry; an entry that is no longer valid raises. */
  ghost function Snapshot(s: State, entries: set<NodeId>): Option<State> {
    if exists e :: e in entries && !ValidEntry(s.nodes, e) then None
    else Some(s.(last := s.last + PoolsOf(s.nodes, s.links, entries)))
  }

  ghost function Commit(before: State, after: Option<State>): State {
    if after.Some? then after.value else before
  }

  ghost function Notify(s: State, b: NodeId): Option<State> {
    Snapshot(s, EntriesOf(s.links, b))
  }

  function SetFlags(s: State, n: NodeId, f: Flags): State
    requires n in s.nodes
  {
    s.(nodes := s.nodes[n := s.nodes[n].(flags := f)])
  }

  /** A flag change, followed by a notification when the node is a backend. */
  ghost function Flip(s: State, n: NodeId, f: Flags): Option<State>
    requires n in s.nodes
  {
    var s' := SetFlags(s, n, f);
    if s.nodes[n].role == Backend then Notify(s', n) else Some(s')
  }

  function MetaOf(s: State, n: NodeId): Meta {
    if n in s.metas then s.metas[n] else NO_META
  }

  /** The fields of an administrator's PATCH that a pool or a drain depends on; those not given stay. */
  datatype NodePatch = NodePatch(
    role: Option<Role>,
    realityIp: Option<Option<string>>,
    enabled: Option<bool>,
    draining: Option<bool>)

  function PatchedNode(x: Node, p: NodePatch): Node {
    x.(role := if p.role.Some? then p.role.value else x.role,
       realityIp := if p.realityIp.Some? then p.realityIp.value else x.realityIp,
       flags := x.flags.(enabled := if p.enabled.Some? then p.enabled.value else x.flags.enabled,
                         draining := if p.draining.Some? then p.draining.value else x.flags.draining))
  }

  function PutNode(s: State, n: NodeId, x: Node): State {
    s.(nodes := s.nodes[n := x])
  }

  datatype Step =
    | Assign(entry: NodeId, backend: NodeId, zonesMatch: bool, weight: int, enabled: bool, rank: int, now: Time)
    | UpdateAssignment(entry: NodeId, backend: NodeId, newWeight: Option<int>, newEnabled: Option<bool>,
                       newRank: Option<int>, now: Time)
    | RemoveAssignment(entry: NodeId, backend: NodeId, now: Time)
    | AdminDrain(node: NodeId)
    | AdminEnable(node: NodeId)
    | Heartbeat(node: NodeId, payload: Payload, policy: Policy, now: Time)
    | AutoHealDrain(node: NodeId, now: Time)
    | AutoHealRecover(node: NodeId, healthyAndFresh: bool, hasPlacements: bool, probeRecovered: bool)
    | ProbeDrain(node: NodeId, reason: string, migrated: bool, now: Time)
    | EntryTick(node: NodeId, failing: bool, undrainAllowed: bool, recoverAfter: int, now: Time)
    | AdminPatch(node: NodeId, patch: NodePatch)

  /** `assign_backend` */
  ghost function OnAssign(s: State, e: NodeId, b: NodeId, zonesMatch: bool, a: Assignment): State {
    if !ValidEntry(s.nodes, e) || b !in s.nodes || !s.nodes[b].flags.active || s.nodes[b].role != Backend || !zonesMatch
    then s
    else Commit(s, Snapshot(s.(links := s.links[(e, b) := a]), {e}))
  }

  /** `update_assignment`: only fields that were given change, and nothing at all without any. */
  function Patched(a: Assignment, w: Option<int>, en: Option<bool>, r: Option<int>, now: Time): Assignment {
    a.(weight := if w.Some? then w.value else a.weight,
       enabled := if en.Some? then en.value else a.enabled,
       rank := if r.Some? then r.value else a.rank,
       updatedAt := now)
  }

  /** What may keep a drained node from being taken back by the auto-heal tick. */
  predicate Recoverable(f: Flags, m: Meta, healthyAndFresh: bool, hasPlacements: bool, probeRecovered: bool) {
    && f.active && f.enabled && f.draining && f.source != Some(Admin) && healthyAndFresh
    && (hasPlacements ==>
          || m.reason == None || m.reason == Some(UnhealthyHeartbeat)
          || (m.reason.value.ProbeFailure? && probeRecovered))
  }

  /** Reason and moment of a drain are stored only for a node that has reported before. */
  function Annotate(s: State, n: NodeId, reason: Option<DrainReason>, at: Option<Time>): State {
    if n in s.metas then s.(metas := s.metas[n := s.metas[n].(reason := reason, drainedAt := at)]) else s
  }

  /** The probe drain notifies without looking at the role; a failed migration is compensated before it is reported. */
  ghost function OnProbeDrain(s: State, n: NodeId, reason: string, migrated: bool, now: Time): State
    requires n in s.nodes
  {
    var f := s.nodes[n].flags;
    if f.draining then s
    else
      var drained := Notify(Annotate(SetFlags(s, n, f.(draining := true, source := Some(Auto))), n,
                                     Some(ProbeFailure(reason)), Some(now)), n);
      if drained.None? then s
      else if migrated then drained.value
      else Commit(s, Notify(Annotate(SetFlags(drained.value, n, f.(draining := false, source := None)), n, None, None), n))
  }

  function BackendsOf(a: Assignments, e: NodeId): set<NodeId> {
    set p | p in a && p.0 == e && a[p].active :: p.1
  }

  /** Notifying the entries of backend `b` goes through. */
  ghost predicate Tellable(s: State, b: NodeId) {
    forall e :: e in EntriesOf(s.links, b) ==> ValidEntry(s.nodes, e)
  }

  /** The entries in front of these backends; a backend whose notification fails is passed over. */
  ghost function ToldFor(s: State, backends: set<NodeId>): set<NodeId> {
    set b, e | b in backends && Tellable(s, b) && e in EntriesOf(s.links, b) :: e
  }

  /** New snapshots for every entry that shares a backend with `n`. */
  ghost function TellColleagues(s: State, n: NodeId): State {
    s.(last := s.last + PoolsOf(s.nodes, s.links, ToldFor(s, BackendsOf(s.links, n))))
  }

  /** What lets the entry tick take a drained entry back: its own drain, and enough healthy heartbeats since. */
  predicate Undrainable(s: State, n: NodeId, recoverAfter: int) {
    && n in s.nodes && s.nodes[n].flags.draining
    && n in s.metas && s.metas[n].reason == Some(EntryAutoDrain) && s.metas[n].healthy >= Max(1, recoverAfter)
  }

  predicate TickCandidate(s: State, n: NodeId) {
    n in s.nodes && s.nodes[n].flags.active && s.nodes[n].flags.enabled && IsEntryRole(s.nodes[n].role)
  }

  /** One entry of an auto-drain tick. Neither branch looks at who drained the node, or says who did. */
  ghost function OnEntryTick(s: State, n: NodeId, failing: bool, undrainAllowed: bool, recoverAfter: int, now: Time): State {
    if !TickCandidate(s, n) then s
    else if failing then
      if s.nodes[n].flags.draining then TellColleagues(s, n)
      else TellColleagues(Annotate(SetFlags(s, n, s.nodes[n].flags.(draining := true)), n, Some(EntryAutoDrain), Some(now)), n)
    else if undrainAllowed && Undrainable(s, n, recoverAfter) then
      TellColleagues(Annotate(SetFlags(s, n, s.nodes[n].flags.(draining := false)), n, None, None), n)
    else s
  }

  ghost function Next(s: State, step: Step): State {
    match step
    case Assign(e, b, zonesMatch, w, en, r, now) => OnAssign(s, e, b, zonesMatch, Assignment(w, en, r, true, now))
    case UpdateAssignment(e, b, w, en, r, now) =>
      if (e, b) !in s.links || !s.links[(e, b)].active || (w.None? && en.None? && r.None?) then s
      else Commit(s, Snapshot(s.(links := s.links[(e, b) := Patched(s.links[(e, b)], w, en, r, now)]), {e}))
    case RemoveAssignment(e, b, now) =>
      if (e, b) !in s.links || !s.links[(e, b)].active then s
      else Commit(s, Snapshot(s.(links := s.links[(e, b) := s.links[(e, b)].(active := false, updatedAt := now)]), {e}))
    case AdminDrain(n) =>
      if n !in s.nodes then s
      else Commit(s, Flip(s, n, s.nodes[n].flags.(draining := true, source := Some(Admin))))
    case AdminEnable(n) =>
      if n !in s.nodes then s
      else Commit(s, Flip(s, n, s.nodes[n].flags.(draining := false, enabled := true, source := None)))
    case Heartbeat(n, payload, policy, now) =>
      if n !in s.nodes then s
      else
        var b := Beat(s.nodes[n].flags, MetaOf(s, n), EffectiveHealth(payload, policy), policy, now);
        var flipped := if b.drained || b.undrained then Flip(s, n, b.flags) else Some(s);
        if flipped.None? then s else flipped.value.(metas := flipped.value.metas[n := b.meta])
    case AutoHealDrain(n, now) =>
      if n !in s.nodes || s.nodes[n].flags.draining then s
      else Commit(s, Flip(Annotate(s, n, Some(UnhealthyHeartbeat), Some(now)), n,
                          s.nodes[n].flags.(draining := true, source := Some(Auto))))
    case AutoHealRecover(n, healthyAndFresh, hasPlacements, probeRecovered) =>
      if n !in s.nodes || n !in s.metas
         || !Recoverable(s.nodes[n].flags, s.metas[n], healthyAndFresh, hasPlacements, probeRecovered) then s
      else Commit(s, Flip(Annotate(s, n, None, None), n, s.nodes[n].flags.(draining := false, source := None)))
    case ProbeDrain(n, reason, migrated, now) =>
      if n !in s.nodes then s else OnProbeDrain(s, n, reason, migrated, now)
    case EntryTick(n, failing, undrainAllowed, recoverAfter, now) =>
      OnEntryTick(s, n, failing, undrainAllowed, recoverAfter, now)
    case AdminPatch(n, patch) => if n !in s.nodes then s else PutNode(s, n, PatchedNode(s.nodes[n], patch))
  }

  ghost function Run(s: State, steps: seq<Step>): State
    decreases |steps|
  {
    if steps == [] then s else Run(Next(s, steps[0]), steps[1..])
  }

  // ---- Snapshot agreement ------------------------------------------------------------

  /** Active assignments join valid entries to backends, and their entries have been told. */
  ghost predicate WellAssigned(s: State) {
    forall p :: p in s.links && s.links[p].active ==>
      && ValidEntry(s.nodes, p.0) && p.1 in s.nodes && s.nodes[p.1].role == Backend && p.0 in s.last
  }

  /** The last snapshot of every entry is the pool the tables give now. */
  ghost predicate Agreement(s: State) {
    forall e :: e in s.last ==> IsPool(s.nodes, s.links, e, s.last[e])
  }

  ghost predicate Inv(s: State) {
    WellAssigned(s) && Agreement(s)
  }

  /** Only the active assignments of an entry and the nodes they name matter to its pool. */
  lemma PoolFrame(nodes: Nodes, nodes': Nodes, a: Assignments, a': Assignments, e: NodeId, pool: Pool)
    requires IsPool(nodes, a, e, pool)
    requires forall b :: (((e, b) in a && a[(e, b)].active) || ((e, b) in a' && a'[(e, b)].active)) ==>
               && (e, b) in a && (e, b) in a' && a[(e, b)] == a'[(e, b)]
               && (b in nodes <==> b in nodes') && (b in nodes ==> nodes[b] == nodes'[b])
    ensures IsPool(nodes', a', e, pool)
  {
    forall p: (NodeId, NodeId) | p.0 == e
      ensures p in ActivePairs(a, e) <==> p in ActivePairs(a', e)
      ensures p in ActivePairs(a, e) ==> a[p] == a'[p]
    {
      var b := p.1;
      assert p == (e, b);
    }
    assert ActivePairs(a, e) == ActivePairs(a', e);
    forall b ensures Relayed(nodes, a, e, b) <==> Relayed(nodes', a', e, b) {
    }
  }

  lemma SnapshotInv(s: State, entries: set<NodeId>)
    requires forall e :: e in entries ==> ValidEntry(s.nodes, e)
    requires forall p :: p in s.links && s.links[p].active ==>
               && ValidEntry(s.nodes, p.0) && p.1 in s.nodes && s.nodes[p.1].role == Backend
               && (p.0 in s.last || p.0 in entries)
    requires forall e :: e in s.last && e !in entries ==> IsPool(s.nodes, s.links, e, s.last[e])
    ensures var r := Snapshot(s, entries);
            r.Some? && Inv(r.value) && r.value == s.(last := r.value.last)
  {
    var r := Snapshot(s, entries);
    forall e | e in r.value.last ensures IsPool(s.nodes, s.links, e, r.value.last[e]) {
      if e in entries {
        assert r.value.last[e] == PoolOf(s.nodes, s.links, e);
      }
    }
  }

  /** Changing a node's flags and telling every entry in front of it keeps the agreement, and never raises. */
  lemma NotifyInv(s: State, n: NodeId, f: Flags)
    requires Inv(s) && n in s.nodes && f.active == s.nodes[n].flags.active
    ensures var r := Notify(SetFlags(s, n, f), n);
            r.Some? && Inv(r.value) && r.value == SetFlags(s, n, f).(last := r.value.last)
  {
    var s' := SetFlags(s, n, f);
    var entries := EntriesOf(s.links, n);
    forall e | e in entries ensures ValidEntry(s'.nodes, e) {
      var p :| p in s.links && p.1 == n && s.links[p].active && p.0 == e;
      assert ValidEntry(s.nodes, p.0);
    }
    forall p | p in s'.links && s'.links[p].active
      ensures ValidEntry(s'.nodes, p.0) && p.1 in s'.nodes && s'.nodes[p.1].role == Backend && p.0 in s'.last
    {
      assert ValidEntry(s.nodes, p.0);
    }
    forall e | e in s.last && e !in entries ensures IsPool(s'.nodes, s'.links, e, s.last[e]) {
      assert (e, n) in s.links ==> !s.links[(e, n)].active;
      PoolFrame(s.nodes, s'.nodes, s.links, s'.links, e, s.last[e]);
    }
    SnapshotInv(s', entries);
  }

  lemma FlipInv(s: State, n: NodeId, f: Flags)
    requires Inv(s) && n in s.nodes && f.active == s.nodes[n].flags.active
    ensures var r := Flip(s, n, f);
            r.Some? && Inv(r.value) && r.value == SetFlags(s, n, f).(last := r.value.last)
  {
    NotifyInv(s, n, f);
    if s.nodes[n].role != Backend {
      var s' := SetFlags(s, n, f);
      forall p | p in s'.links && s'.links[p].active
        ensures ValidEntry(s'.nodes, p.0) && p.1 in s'.nodes && s'.nodes[p.1].role == Backend && p.0 in s'.last
      {
        assert ValidEntry(s.nodes, p.0);
      }
      forall e | e in s.last ensures IsPool(s'.nodes, s'.links, e, s'.last[e]) {
        assert forall b :: (e, b) in s.links && s.links[(e, b)].active ==> b != n;
        PoolFrame(s.nodes, s'.nodes, s.links, s'.links, e, s.last[e]);
      }
    }
  }

  /** Rewriting one assignment of a valid entry and telling that entry keeps the agreement. */
  lemma LinkInv(s: State, e: NodeId, b: NodeId, a: Assignment)
    requires Inv(s) && ValidEntry(s.nodes, e) && b in s.nodes && s.nodes[b].role == Backend
    ensures var r := Snapshot(s.(links := s.links[(e, b) := a]), {e});
            r.Some? && Inv(r.value) && r.value == s.(links := s.links[(e, b) := a], last := r.value.last)
  {
    var s' := s.(links := s.links[(e, b) := a]);
    forall x | x in s.last && x != e ensures IsPool(s'.nodes, s'.links, x, s.last[x]) {
      PoolFrame(s.nodes, s'.nodes, s.links, s'.links, x, s.last[x]);
    }
    SnapshotInv(s', {e});
  }

  lemma MetasIrrelevant(s: State, metas: map<NodeId, Meta>)
    requires Inv(s)
    ensures Inv(s.(metas := metas))
  {
  }

  lemma ProbeDrainInv(s: State, n: NodeId, reason: string, migrated: bool, now: Time)
    requires Inv(s) && n in s.nodes
    ensures Inv(OnProbeDrain(s, n, reason, migrated, now))
    ensures s.nodes[n].flags.draining || !migrated ==>
              OnProbeDrain(s, n, reason, migrated, now).nodes[n].flags
                == s.nodes[n].flags.(source := if s.nodes[n].flags.draining then s.nodes[n].flags.source else None)
  {
    var f := s.nodes[n].flags;
    if !f.draining {
      var s1 := Annotate(s, n, Some(ProbeFailure(reason)), Some(now));
      MetasIrrelevant(s, s1.metas);
      NotifyInv(s1, n, f.(draining := true, source := Some(Auto)));
      var drained := Notify(SetFlags(s1, n, f.(draining := true, source := Some(Auto))), n);
      if !migrated {
        var s2 := Annotate(drained.value, n, None, None);
        MetasIrrelevant(drained.value, s2.metas);
        NotifyInv(s2, n, f.(draining := false, source := None));
      }
    }
  }

  lemma TellInv(s: State, n: NodeId)
    requires Inv(s)
    ensures Inv(TellColleagues(s, n)) && TellColleagues(s, n) == s.(last := TellColleagues(s, n).last)
  {
    var told := ToldFor(s, BackendsOf(s.links, n));
    forall e | e in told ensures ValidEntry(s.nodes, e) {
    }
    SnapshotInv(s, told);
    assert Snapshot(s, told) == Some(TellColleagues(s, n));
  }

  lemma EntryTickInv(s: State, n: NodeId, failing: bool, undrainAllowed: bool, recoverAfter: int, now: Time)
    requires Inv(s)
    ensures Inv(OnEntryTick(s, n, failing, undrainAllowed, recoverAfter, now))
  {
    hide TellColleagues;
    if TickCandidate(s, n) {
      var f := s.nodes[n].flags.(draining := failing);
      FlipInv(s, n, f);
      var flipped := SetFlags(s, n, f);
      var marked := if failing then Annotate(flipped, n, Some(EntryAutoDrain), Some(now)) else Annotate(flipped, n, None, None);
      MetasIrrelevant(flipped, marked.metas);
      TellInv(s, n);
      TellInv(marked, n);
    }
  }

  // ---- Rows written without a snapshot ----------------------------------------------------

  /** Every told entry with an active assignment to the node shows it alike before and after. */
  ghost predicate ShownAlike(s: State, n: NodeId, x: Node) {
    var nodes' := s.nodes[n := x];
    forall e :: e in s.last && (e, n) in s.links && s.links[(e, n)].active ==>
      && (Relayed(s.nodes, s.links, e, n) <==> Relayed(nodes', s.links, e, n))
      && (Relayed(s.nodes, s.links, e, n) ==> RelayOf(s.nodes, s.links, e, n) == RelayOf(nodes', s.links, e, n))
  }

  /**
    An administrator's PATCH writes a node row and tells nobody. Whatever it writes, the agreement
    survives exactly when every told entry shows the node alike before and after.
   */
  lemma SilentChangeKeepsAgreement(s: State, n: NodeId, x: Node)
    requires Agreement(s) && n in s.nodes
    ensures Agreement(PutNode(s, n, x)) <==> ShownAlike(s, n, x)
  {
    var s' := PutNode(s, n, x);
    if ShownAlike(s, n, x) {
      forall e | e in s'.last ensures IsPool(s'.nodes, s'.links, e, s'.last[e]) {
        forall b
          ensures Relayed(s.nodes, s.links, e, b) <==> Relayed(s'.nodes, s'.links, e, b)
          ensures Relayed(s.nodes, s.links, e, b) ==> RelayOf(s.nodes, s.links, e, b) == RelayOf(s'.nodes, s'.links, e, b)
        {
        }
        SameRelays(s.nodes, s'.nodes, s.links, e);
      }
    } else {
      var e :| e in s.last && (e, n) in s.links && s.links[(e, n)].active
               && !(&& (Relayed(s.nodes, s.links, e, n) <==> Relayed(s'.nodes, s.links, e, n))
                    && (Relayed(s.nodes, s.links, e, n) ==> RelayOf(s.nodes, s.links, e, n) == RelayOf(s'.nodes, s.links, e, n)));
      DifferentRelay(s, s', e, n);
    }
  }

  /** A pool holds one relay per backend, so a node shown differently makes a different pool. */
  lemma DifferentRelay(s: State, s': State, e: NodeId, n: NodeId)
    requires Agreement(s) && e in s.last && n in s.nodes && s'.last == s.last && s'.links == s.links
    requires s'.nodes.Keys == s.nodes.Keys
    requires !(&& (Relayed(s.nodes, s.links, e, n) <==> Relayed(s'.nodes, s.links, e, n))
               && (Relayed(s.nodes, s.links, e, n) ==> RelayOf(s.nodes, s.links, e, n) == RelayOf(s'.nodes, s.links, e, n)))
    ensures !Agreement(s')
  {
    if Relayed(s.nodes, s.links, e, n) {
      var shown := RelayOf(s.nodes, s.links, e, n);
      assert shown in s.last[e].backends;
      assert forall b :: Relayed(s'.nodes, s'.links, e, b) ==> RelayOf(s'.nodes, s'.links, e, b) != shown;
    } else {
      var shown := RelayOf(s'.nodes, s.links, e, n);
      assert forall b :: Relayed(s.nodes, s.links, e, b) ==> RelayOf(s.nodes, s.links, e, b) != shown;
      assert shown !in s.last[e].backends;
    }
    assert !IsPool(s'.nodes, s'.links, e, s'.last[e]);
  }

  /** Active assignments of the node still join a valid entry to a backend. */
  ghost predicate RolesFit(s: State, n: NodeId, x: Node) {
    forall p :: p in s.links && s.links[p].active ==>
      && (p.0 == n ==> x.flags.active && IsEntryRole(x.role))
      && (p.1 == n ==> x.role == Backend)
  }

  lemma PatchInv(s: State, n: NodeId, x: Node)
    requires Inv(s) && n in s.nodes
    ensures Inv(PutNode(s, n, x)) <==> ShownAlike(s, n, x) && RolesFit(s, n, x)
  {
    SilentChangeKeepsAgreement(s, n, x);
    var s' := PutNode(s, n, x);
    assert WellAssigned(s') <==> RolesFit(s, n, x) by {
      hide Agreement;
      forall p | p in s.links && s.links[p].active ensures ValidEntry(s.nodes, p.0) && s.nodes[p.1].role == Backend {
      }
      if !RolesFit(s, n, x) {
        var p :| p in s.links && s.links[p].active && !((p.0 == n ==> x.flags.active && IsEntryRole(x.role)) && (p.1 == n ==> x.role == Backend));
        assert !(ValidEntry(s'.nodes, p.0) && s'.nodes[p.1].role == Backend);
      }
    }
  }

  /** All steps but the PATCH tell whom they must; a PATCH may only change what no entry sees. */
  ghost predicate Harmless(s: State, step: Step) {
    step.AdminPatch? && step.node in s.nodes ==>
      var x := PatchedNode(s.nodes[step.node], step.patch);
      ShownAlike(s, step.node, x) && RolesFit(s, step.node, x)
  }

  lemma StepInv(s: State, step: Step)
    requires Inv(s)
    ensures Inv(Next(s, step)) <==> Harmless(s, step)
  {
    match step
    case Assign(e, b, _, w, en, r, now) =>
      if ValidEntry(s.nodes, e) && b in s.nodes && s.nodes[b].role == Backend {
        LinkInv(s, e, b, Assignment(w, en, r, true, now));
      }
    case UpdateAssignment(e, b, w, en, r, now) =>
      if (e, b) in s.links && s.links[(e, b)].active { LinkInv(s, e, b, Patched(s.links[(e, b)], w, en, r, now)); }
    case RemoveAssignment(e, b, now) =>
      if (e, b) in s.links && s.links[(e, b)].active { LinkInv(s, e, b, s.links[(e, b)].(active := false, updatedAt := now)); }
    case AdminDrain(n) =>
      if n in s.nodes { FlipInv(s, n, s.nodes[n].flags.(draining := true, source := Some(Admin))); }
    case AdminEnable(n) =>
      if n in s.nodes { FlipInv(s, n, s.nodes[n].flags.(draining := false, enabled := true, source := None)); }
    case Heartbeat(n, payload, policy, now) =>
      if n in s.nodes {
        var b := Beat(s.nodes[n].flags, MetaOf(s, n), EffectiveHealth(payload, policy), policy, now);
        FlipInv(s, n, b.flags);
        MetasIrrelevant(s, s.metas[n := b.meta]);
        MetasIrrelevant(Flip(s, n, b.flags).value, s.metas[n := b.meta]);
      }
    case AutoHealDrain(n, now) =>
      if n in s.nodes {
        var s1 := Annotate(s, n, Some(UnhealthyHeartbeat), Some(now));
        MetasIrrelevant(s, s1.metas);
        FlipInv(s1, n, s.nodes[n].flags.(draining := true, source := Some(Auto)));
      }
    case AutoHealRecover(n, _, _, _) =>
      if n in s.nodes {
        var s1 := Annotate(s, n, None, None);
        MetasIrrelevant(s, s1.metas);
        FlipInv(s1, n, s.nodes[n].flags.(draining := false, source := None));
      }
    case ProbeDrain(n, reason, migrated, now) =>
      if n in s.nodes { ProbeDrainInv(s, n, reason, migrated, now); }
    case EntryTick(n, failing, undrainAllowed, recoverAfter, now) =>
      EntryTickInv(s, n, failing, undrainAllowed, recoverAfter, now);
    case AdminPatch(n, patch) =>
      if n in s.nodes { PatchInv(s, n, PatchedNode(s.nodes[n], patch)); }
  }

  ghost predicate AgreesThroughout(s: State, steps: seq<Step>)
    decreases |steps|
  {
    Inv(s) && (steps != [] ==> AgreesThroughout(Next(s, steps[0]), steps[1..]))
  }

  ghost predicate HarmlessRun(s: State, steps: seq<Step>)
    decreases |steps|
  {
    steps != [] ==> Harmless(s, steps[0]) && HarmlessRun(Next(s, steps[0]), steps[1..])
  }

  /** Each entry's last snapshot is its pool, and each entry with an active assignment has one. */
  ghost predicate WellInformed(s: State) {
    && (forall e :: e in s.last ==> s.last[e] == PoolOf(s.nodes, s.links, e))
    && (forall p :: p in s.links && s.links[p].active ==> p.0 in s.last && ValidEntry(s.nodes, p.0))
  }

  /**
    Snapshot agreement: over every run of assignments, administrator, heartbeat, auto-heal, probe and
    entry-tick steps, the last snapshot enqueued for each entry is at all times the pool
    `get_relay_pool` gives, and every assigned entry is valid and has one, if and only if every PATCH
    among the steps is harmless when it is made.
   */
  lemma {:induction false} SnapshotAgreement(s: State, steps: seq<Step>)
    requires Inv(s)
    ensures AgreesThroughout(s, steps) <==> HarmlessRun(s, steps)
    ensures HarmlessRun(s, steps) ==> WellInformed(Run(s, steps))
    decreases |steps|
  {
    if steps != [] {
      StepInv(s, steps[0]);
      if Harmless(s, steps[0]) {
        SnapshotAgreement(Next(s, steps[0]), steps[1..]);
      }
    } else {
      forall e | e in s.last ensures s.last[e] == PoolOf(s.nodes, s.links, e) {
        PoolUnique(s.nodes, s.links, e, s.last[e], PoolOf(s.nodes, s.links, e));
      }
    }
  }

  /** One entry in front of one backend, the entry told. */
  function SmallFleet(): State {
    var up := Flags(true, true, false, None);
    State(map[1 := Node(Entry, up, None, "e"), 2 := Node(Backend, up, None, "b")],
          map[(1, 2) := Assignment(1, true, 0, true, 5)], map[],
          map[1 := Pool(5, {RelayBackend(2, "b", 1, true, 0)})])
  }

  lemma SmallFleetAgrees()
    ensures Inv(SmallFleet())
    ensures Relayed(SmallFleet().nodes, SmallFleet().links, 1, 2)
    ensures RelayOf(SmallFleet().nodes, SmallFleet().links, 1, 2) == RelayBackend(2, "b", 1, true, 0)
  {
    var s := SmallFleet();
    assert ActivePairs(s.links, 1) == {(1, 2)};
    assert Address(s.nodes[2]) == Some("b");
    var relays := set b | b in s.nodes && Relayed(s.nodes, s.links, 1, b) :: RelayOf(s.nodes, s.links, 1, b);
    assert relays == {RelayOf(s.nodes, s.links, 1, 2)};
  }

  /** In it, a PATCH that drains the backend and one that moves its address both leave the entry misinformed. */
  lemma PatchBreaksAgreement(patch: NodePatch)
    requires patch == NodePatch(None, None, None, Some(true)) || patch == NodePatch(None, Some(Some("c")), None, None)
    ensures Inv(SmallFleet()) && !Agreement(Next(SmallFleet(), AdminPatch(2, patch)))
  {
    var s := SmallFleet();
    SmallFleetAgrees();
    hide Inv, Agreement, Relayed;
    var x := PatchedNode(s.nodes[2], patch);
    assert Agreement(s) by { assert Inv(s); }
    SilentChangeKeepsAgreement(s, 2, x);
    assert !ShownAlike(s, 2, x) by {
      assert 1 in s.last && (1, 2) in s.links;
      assert Address(x) == Some(if patch.draining.Some? then "b" else "c");
    }
  }

  lemma SameRelays(nodes: Nodes, nodes': Nodes, a: Assignments, e: NodeId)
    requires nodes.Keys == nodes'.Keys
    requires forall b :: Relayed(nodes, a, e, b) <==> Relayed(nodes', a, e, b)
    requires forall b :: Relayed(nodes, a, e, b) ==> RelayOf(nodes, a, e, b) == RelayOf(nodes', a, e, b)
    ensures (set b | b in nodes && Relayed(nodes, a, e, b) :: RelayOf(nodes, a, e, b))
         == (set b | b in nodes' && Relayed(nodes', a, e, b) :: RelayOf(nodes', a, e, b))
  {
    var p := set b | b in nodes && Relayed(nodes, a, e, b) :: RelayOf(nodes, a, e, b);
    var q := set b | b in nodes' && Relayed(nodes', a, e, b) :: RelayOf(nodes', a, e, b);
    forall r ensures r in p <==> r in q {
      if r in p {
        var b :| b in nodes && Relayed(nodes, a, e, b) && RelayOf(nodes, a, e, b) == r;
        assert RelayOf(nodes', a, e, b) == r;
      }
      if r in q {
        var b :| b in nodes' && Relayed(nodes', a, e, b) && RelayOf(nodes', a, e, b) == r;
        assert RelayOf(nodes, a, e, b) == r;
      }
    }
  }

  // ---- What each step writes, column by column -----------------------------------------------

  lemma LinkStepsWrite(s: State, step: Step)
    requires Inv(s) && (step.Assign? || step.UpdateAssignment? || step.RemoveAssignment?)
    ensures var s' := Next(s, step);
            && s' == s.(links := s'.links, last := s'.last)
            && match step
               case Assign(e, b, zonesMatch, w, en, r, now) =>
                 s'.links == if && e in s.nodes && s.nodes[e].flags.active
                                && (s.nodes[e].role == Entry || s.nodes[e].role == WhitelistEntry)
                                && b in s.nodes && s.nodes[b].flags.active && s.nodes[b].role == Backend && zonesMatch
                             then s.links[(e, b) := Assignment(w, en, r, true, now)] else s.links
               case UpdateAssignment(e, b, w, en, r, now) =>
                 if (e, b) in s.links && s.links[(e, b)].active && (w.Some? || en.Some? || r.Some?)
                 then var old' := s.links[(e, b)];
                      s'.links == s.links[(e, b) := Assignment(if w.Some? then w.value else old'.weight,
                                                               if en.Some? then en.value else old'.enabled,
                                                               if r.Some? then r.value else old'.rank, true, now)]
                 else s'.links == s.links
               case RemoveAssignment(e, b, now) =>
                 if (e, b) in s.links && s.links[(e, b)].active
                 then s'.links == s.links[(e, b) := s.links[(e, b)].(active := false, updatedAt := now)]
                 else s'.links == s.links
               case _ => true
  {
    match step
    case Assign(e, b, _, w, en, r, now) =>
      if ValidEntry(s.nodes, e) && b in s.nodes && s.nodes[b].role == Backend {
        LinkInv(s, e, b, Assignment(w, en, r, true, now));
      }
    case UpdateAssignment(e, b, w, en, r, now) =>
      if (e, b) in s.links && s.links[(e, b)].active { LinkInv(s, e, b, Patched(s.links[(e, b)], w, en, r, now)); }
    case RemoveAssignment(e, b, now) =>
      if (e, b) in s.links && s.links[(e, b)].active {
        LinkInv(s, e, b, s.links[(e, b)].(active := false, updatedAt := now));
      }
    case _ =>
  }

  /** A node with new flags and, if it has reported before, a new drain reason. */
  ghost predicate Rewritten(s: State, s': State, n: NodeId, f: Flags, reason: Option<DrainReason>, at: Option<Time>)
    requires n in s.nodes
  {
    && s'.nodes == s.nodes[n := s.nodes[n].(flags := f)] && s'.links == s.links
    && s'.metas == if n in s.metas then s.metas[n := s.metas[n].(reason := reason, drainedAt := at)] else s.metas
  }

  lemma AdminStepsWrite(s: State, step: Step)
    requires Inv(s) && (step.AdminDrain? || step.AdminEnable? || step.AdminPatch?)
    ensures var s' := Next(s, step);
            if step.node !in s.nodes then s' == s
            else
              var x := s.nodes[step.node];
              && s' == s.(nodes := s'.nodes, last := s'.last)
              && s'.nodes == s.nodes[step.node :=
                   match step
                   case AdminDrain(_) => x.(flags := x.flags.(draining := true, source := Some(Admin)))
                   case AdminEnable(_) => x.(flags := x.flags.(draining := false, enabled := true, source := None))
                   case AdminPatch(_, p) =>
                     Node(if p.role.Some? then p.role.value else x.role,
                          Flags(x.flags.active, if p.enabled.Some? then p.enabled.value else x.flags.enabled,
                                if p.draining.Some? then p.draining.value else x.flags.draining, x.flags.source),
                          if p.realityIp.Some? then p.realityIp.value else x.realityIp, x.wgIp)
                   case _ => x]
  {
    if step.node in s.nodes {
      var f := s.nodes[step.node].flags;
      if step.AdminDrain? { FlipInv(s, step.node, f.(draining := true, source := Some(Admin))); }
      if step.AdminEnable? { FlipInv(s, step.node, f.(draining := false, enabled := true, source := None)); }
    }
  }

  lemma AutoHealStepsWrite(s: State, step: Step)
    requires Inv(s) && (step.AutoHealDrain? || step.AutoHealRecover?) && step.node in s.nodes
    ensures var s' := Next(s, step); var f := s.nodes[step.node].flags;
            match step
            case AutoHealDrain(n, now) =>
              if f.draining then s' == s
              else Rewritten(s, s', n, f.(draining := true, source := Some(Auto)), Some(UnhealthyHeartbeat), Some(now))
            case AutoHealRecover(n, healthyAndFresh, hasPlacements, probeRecovered) =>
              if && n in s.metas && f.active && f.enabled && f.draining && f.source != Some(Admin) && healthyAndFresh
                 && (!hasPlacements || match s.metas[n].reason
                                       case None => true
                                       case Some(UnhealthyHeartbeat) => true
                                       case Some(ProbeFailure(_)) => probeRecovered
                                       case _ => false)
              then Rewritten(s, s', n, f.(draining := false, source := None), None, None)
              else s' == s
            case _ => true
  {
    var n, f := step.node, s.nodes[step.node].flags;
    match step
    case AutoHealDrain(_, now) =>
      var s1 := Annotate(s, n, Some(UnhealthyHeartbeat), Some(now));
      MetasIrrelevant(s, s1.metas);
      FlipInv(s1, n, f.(draining := true, source := Some(Auto)));
    case AutoHealRecover(_, _, _, _) =>
      var s1 := Annotate(s, n, None, None);
      MetasIrrelevant(s, s1.metas);
      FlipInv(s1, n, f.(draining := false, source := None));
    case _ =>
  }

  lemma ProbeStepWrites(s: State, n: NodeId, reason: string, migrated: bool, now: Time)
    requires Inv(s) && n in s.nodes
    ensures var s' := Next(s, ProbeDrain(n, reason, migrated, now)); var f := s.nodes[n].flags;
            if f.draining then s' == s
            else if migrated then Rewritten(s, s', n, f.(draining := true, source := Some(Auto)), Some(ProbeFailure(reason)), Some(now))
            else Rewritten(s, s', n, f.(source := None), None, None)
  {
    hide Notify, Inv;
    var f := s.nodes[n].flags;
    if !f.draining {
      var s1 := Annotate(s, n, Some(ProbeFailure(reason)), Some(now));
      MetasIrrelevant(s, s1.metas);
      NotifyInv(s1, n, f.(draining := true, source := Some(Auto)));
      var drained := Notify(SetFlags(s1, n, f.(draining := true, source := Some(Auto))), n);
      if !migrated {
        var s2 := Annotate(drained.value, n, None, None);
        MetasIrrelevant(drained.value, s2.metas);
        NotifyInv(s2, n, f.(draining := false, source := None));
      }
    }
  }

  lemma EntryTickWrites(s: State, step: Step)
    requires step.EntryTick?
    ensures var s' := Next(s, step); var n := step.node;
            if && n in s.nodes && s.nodes[n].flags.active && s.nodes[n].flags.enabled
               && (s.nodes[n].role == Entry || s.nodes[n].role == WhitelistEntry)
            then
              var f := s.nodes[n].flags;
              if step.failing && !f.draining then
                Rewritten(s, s', n, f.(draining := true), Some(EntryAutoDrain), Some(step.now))
              else if && !step.failing && step.undrainAllowed && f.draining && n in s.metas
                      && s.metas[n].reason == Some(EntryAutoDrain) && s.metas[n].healthy >= Max(1, step.recoverAfter)
              then Rewritten(s, s', n, f.(draining := false), None, None)
              else s' == s.(last := s'.last)
            else s' == s
  {
    hide PoolsOf, ToldFor;
  }

  lemma HeartbeatWrites(s: State, n: NodeId, payload: Payload, policy: Policy, now: Time)
    requires Inv(s) && n in s.nodes
    ensures var s' := Next(s, Heartbeat(n, payload, policy, now));
            var healthy := EffectiveHealth(payload, policy);
            var h := After(s.nodes[n].flags, if n in s.metas then s.metas[n] else NO_META, [healthy], [now], policy);
            && s'.nodes == s.nodes[n := s.nodes[n].(flags := h.flags)] && s'.links == s.links
            && s'.metas == s.metas[n := h.meta]
  {
    var healthy := EffectiveHealth(payload, policy);
    var m := MetaOf(s, n);
    var b := Beat(s.nodes[n].flags, m, healthy, policy, now);
    assert [healthy][..0] == [] && [now][..0] == [];
    assert After(s.nodes[n].flags, m, [], [], policy) == History(s.nodes[n].flags, m, 0, 0);
    FlipInv(s, n, b.flags);
  }

  // ---- Administrators keep the last word ----------------------------------------------

  predicate HeldByAdmin(s: State, n: NodeId) {
    n in s.nodes && s.nodes[n].flags.draining && s.nodes[n].flags.source == Some(Admin)
  }

  /** The steps that end an administrator's drain: the enable, a PATCH of the flag, and the entry tick's undrain. */
  ghost predicate EndsHold(s: State, step: Step, n: NodeId)
    requires n in s.nodes
  {
    match step
    case AdminEnable(m) => m == n && (s.nodes[n].role == Backend ==> Tellable(s, n))
    case AdminPatch(m, patch) => m == n && patch.draining == Some(false)
    case EntryTick(m, failing, undrainAllowed, recoverAfter, _) =>
      m == n && !failing && undrainAllowed && TickCandidate(s, n) && Undrainable(s, n, recoverAfter)
    case _ => false
  }

  lemma EnableGoesThrough(s: State, n: NodeId, f: Flags)
    requires n in s.nodes && f.active == s.nodes[n].flags.active && s.nodes[n].role == Backend
    ensures Flip(s, n, f).Some? <==> Tellable(s, n)
  {
    var s' := SetFlags(s, n, f);
    assert forall e :: ValidEntry(s'.nodes, e) <==> ValidEntry(s.nodes, e);
  }

  lemma NotifyFrame(s: State, n: NodeId, f: Flags)
    requires n in s.nodes
    ensures Notify(s, n).Some? ==> Notify(s, n).value == s.(last := Notify(s, n).value.last)
    ensures Flip(s, n, f).Some? ==> Flip(s, n, f).value == SetFlags(s, n, f).(last := Flip(s, n, f).value.last)
    ensures s.nodes[n].role != Backend ==> Flip(s, n, f).Some?
  {
  }

  /** What one step makes of node `n` while an administrator holds it. */
  ghost predicate HoldOutcome(s: State, step: Step, n: NodeId)
    requires n in s.nodes
  {
    var s' := Next(s, step);
    && (HeldByAdmin(s', n) <==> !EndsHold(s, step, n))
    && (HandsOff([step], n) && !AutoDrainedEntry(s, n) ==> !AutoDrainedEntry(s', n))
  }

  lemma LinkStepsKeepHold(s: State, step: Step, n: NodeId)
    requires HeldByAdmin(s, n) && (step.Assign? || step.UpdateAssignment? || step.RemoveAssignment? || step.AdminPatch?)
    ensures HoldOutcome(s, step, n)
  {
    hide PoolsOf, EntriesOf, Tellable;
    assert [step][0] == step;
  }

  lemma FlipStepsKeepHold(s: State, step: Step, n: NodeId)
    requires HeldByAdmin(s, n)
    requires step.AdminDrain? || step.AdminEnable? || step.AutoHealDrain? || step.AutoHealRecover?
    ensures HoldOutcome(s, step, n)
  {
    hide Flip, Notify, Tellable;
    assert [step][0] == step;
    if step.node in s.nodes {
      var m, f := step.node, s.nodes[step.node].flags;
      if step.AdminDrain? { NotifyFrame(s, m, f.(draining := true, source := Some(Admin))); }
      if step.AdminEnable? {
        NotifyFrame(s, m, f.(draining := false, enabled := true, source := None));
        if f.draining && s.nodes[m].role == Backend {
          EnableGoesThrough(s, m, f.(draining := false, enabled := true, source := None));
        }
      }
      if step.AutoHealDrain? {
        NotifyFrame(Annotate(s, m, Some(UnhealthyHeartbeat), Some(step.now)), m, f.(draining := true, source := Some(Auto)));
      }
      if step.AutoHealRecover? {
        NotifyFrame(Annotate(s, m, None, None), m, f.(draining := false, source := None));
      }
    }
  }

  lemma HeartbeatKeepsHold(s: State, step: Step, n: NodeId)
    requires HeldByAdmin(s, n) && step.Heartbeat?
    ensures HoldOutcome(s, step, n)
  {
    hide Flip, Tellable, EffectiveHealth;
    if step.node in s.nodes {
      var m := step.node;
      NotifyFrame(s, m, Beat(s.nodes[m].flags, MetaOf(s, m), EffectiveHealth(step.payload, step.policy), step.policy, step.now).flags);
    }
  }

  lemma ProbeKeepsHold(s: State, step: Step, n: NodeId)
    requires HeldByAdmin(s, n) && step.ProbeDrain?
    ensures HoldOutcome(s, step, n)
  {
    hide Notify, Tellable;
    if step.node in s.nodes {
      var m, f := step.node, s.nodes[step.node].flags;
      var s1 := Annotate(SetFlags(s, m, f.(draining := true, source := Some(Auto))), m,
                         Some(ProbeFailure(step.reason)), Some(step.now));
      NotifyFrame(s1, m, f);
      if Notify(s1, m).Some? {
        NotifyFrame(Annotate(SetFlags(Notify(s1, m).value, m, f.(draining := false, source := None)), m, None, None), m, f);
      }
    }
  }

  lemma EntryTickAndHold(s: State, step: Step, n: NodeId)
    requires HeldByAdmin(s, n) && step.EntryTick?
    ensures HoldOutcome(s, step, n)
  {
    hide PoolsOf, ToldFor, Tellable;
  }

  lemma StepEndsHold(s: State, step: Step, n: NodeId)
    requires HeldByAdmin(s, n)
    ensures HeldByAdmin(Next(s, step), n) <==> !EndsHold(s, step, n)
    ensures HandsOff([step], n) && !AutoDrainedEntry(s, n) ==> !AutoDrainedEntry(Next(s, step), n)
  {
    hide Next, EndsHold;
    match step
    case Assign(_, _, _, _, _, _, _) => LinkStepsKeepHold(s, step, n);
    case UpdateAssignment(_, _, _, _, _, _) => LinkStepsKeepHold(s, step, n);
    case RemoveAssignment(_, _, _) => LinkStepsKeepHold(s, step, n);
    case AdminPatch(_, _) => LinkStepsKeepHold(s, step, n);
    case Heartbeat(_, _, _, _) => HeartbeatKeepsHold(s, step, n);
    case ProbeDrain(_, _, _, _) => ProbeKeepsHold(s, step, n);
    case EntryTick(_, _, _, _, _) => EntryTickAndHold(s, step, n);
    case _ => FlipStepsKeepHold(s, step, n);
  }

  ghost predicate HeldThroughout(s: State, steps: seq<Step>, n: NodeId)
    decreases |steps|
  {
    HeldByAdmin(s, n) && (steps != [] ==> HeldThroughout(Next(s, steps[0]), steps[1..], n))
  }

  ghost predicate NothingEndsHold(s: State, steps: seq<Step>, n: NodeId)
    decreases |steps|
  {
    steps != [] ==> n in s.nodes && !EndsHold(s, steps[0], n) && NothingEndsHold(Next(s, steps[0]), steps[1..], n)
  }

  /** Along every run the hold lasts exactly until one of those steps. */
  lemma {:induction false} HoldLasts(s: State, steps: seq<Step>, n: NodeId)
    requires HeldByAdmin(s, n)
    ensures HeldThroughout(s, steps, n) <==> NothingEndsHold(s, steps, n)
    decreases |steps|
  {
    if steps != [] {
      StepEndsHold(s, steps[0], n);
      if HeldByAdmin(Next(s, steps[0]), n) {
        HoldLasts(Next(s, steps[0]), steps[1..], n);
      }
    }
  }

  /** An entry in use whose stored drain reason is the entry tick's own. */
  predicate AutoDrainedEntry(s: State, n: NodeId) {
    TickCandidate(s, n) && n in s.metas && s.metas[n].reason == Some(EntryAutoDrain)
  }

  /** No administrator enables or patches the node. */
  predicate HandsOff(steps: seq<Step>, n: NodeId) {
    forall k :: 0 <= k < |steps| ==> steps[k] != AdminEnable(n) && !(steps[k].AdminPatch? && steps[k].node == n)
  }

  /** While the node is held nobody writes the entry tick's reason for it. */
  lemma StaysOutOfReach(s: State, step: Step, n: NodeId)
    requires HeldByAdmin(s, n) && !AutoDrainedEntry(s, n) && HandsOff([step], n)
    ensures HeldByAdmin(Next(s, step), n) && !AutoDrainedEntry(Next(s, step), n)
  {
    hide Next;
    assert [step][0] == step;
    StepEndsHold(s, step, n);
    assert !EndsHold(s, step, n);
  }

  lemma {:induction false} HeldOutOfReach(s: State, steps: seq<Step>, n: NodeId)
    requires HeldByAdmin(s, n) && !AutoDrainedEntry(s, n) && HandsOff(steps, n)
    ensures HeldByAdmin(Run(s, steps), n)
    decreases |steps|
  {
    if steps != [] {
      StaysOutOfReach(s, steps[0], n);
      HeldOutOfReach(Next(s, steps[0]), steps[1..], n);
    }
  }

  // ---- The run that ends a hold ----------------------------------------------------------

  function HealthyBeats(n: NodeId, policy: Policy, k: nat): seq<Step> {
    seq(k, _ => Heartbeat(n, Payload(true, true, None, None), policy, 0))
  }

  lemma {:induction false} BeatsAddUp(s: State, n: NodeId, policy: Policy, k: nat)
    requires HeldByAdmin(s, n) && AutoDrainedEntry(s, n)
    ensures var s' := Run(s, HealthyBeats(n, policy, k));
            HeldByAdmin(s', n) && AutoDrainedEntry(s', n) && s'.metas[n].healthy == s.metas[n].healthy + k
    decreases k
  {
    if k > 0 {
      var beats := HealthyBeats(n, policy, k);
      assert beats[1..] == HealthyBeats(n, policy, k - 1);
      var s1 := Next(s, beats[0]);
      assert s1 == s.(metas := s.metas[n := NextMeta(s.metas[n], true)]);
      BeatsAddUp(s1, n, policy, k - 1);
    }
  }

  lemma {:induction false} RunSplit(s: State, a: seq<Step>, b: seq<Step>)
    ensures Run(s, a + b) == Run(Run(s, a), b)
    decreases |a|
  {
    if a == [] {
      assert a + b == b;
    } else {
      assert (a + b)[1..] == a[1..] + b;
      RunSplit(Next(s, a[0]), a[1..], b);
    }
  }

  /** As many healthy heartbeats as the tick asks for, then the tick. */
  function Escape(n: NodeId, policy: Policy, recoverAfter: int): seq<Step> {
    HealthyBeats(n, policy, Max(1, recoverAfter)) + [EntryTick(n, false, true, recoverAfter, 0)]
  }

  lemma EscapeEndsHold(s: State, n: NodeId, policy: Policy, recoverAfter: int)
    requires HeldByAdmin(s, n) && AutoDrainedEntry(s, n)
    ensures HandsOff(Escape(n, policy, recoverAfter), n)
    ensures var s' := Run(s, Escape(n, policy, recoverAfter)); n in s'.nodes && !s'.nodes[n].flags.draining
  {
    var k := Max(1, recoverAfter);
    var tick := EntryTick(n, false, true, recoverAfter, 0);
    BeatsAddUp(s, n, policy, k);
    RunSplit(s, HealthyBeats(n, policy, k), [tick]);
    var s1 := Run(s, HealthyBeats(n, policy, k));
    assert [tick][1..] == [];
    assert Run(s1, [tick]) == Next(s1, tick);
    assert Undrainable(s1, n, recoverAfter);
    assert OnEntryTick(s1, n, false, true, recoverAfter, 0).nodes == SetFlags(s1, n, s1.nodes[n].flags.(draining := false)).nodes;
  }

  /**
    When an administrator's drain can be relied on. It outlasts every run in which no administrator
    enables or patches the node if and only if the node is not an entry in use that the entry tick had
    drained before.
   */
  lemma AdminDrainSticks(s: State, n: NodeId)
    requires HeldByAdmin(s, n)
    ensures (forall steps :: HandsOff(steps, n) ==> HeldByAdmin(Run(s, steps), n)) <==> !AutoDrainedEntry(s, n)
  {
    if AutoDrainedEntry(s, n) {
      var policy := Policy(1, 1, false, 1);
      EscapeEndsHold(s, n, policy, 3);
      assert HandsOff(Escape(n, policy, 3), n) && !HeldByAdmin(Run(s, Escape(n, policy, 3)), n);
    } else {
      forall steps | HandsOff(steps, n) ensures HeldByAdmin(Run(s, steps), n) {
        HeldOutOfReach(s, steps, n);
      }
    }
  }

  /** Such a state is reached from any entry in service: the tick drains it, then the administrator does. */
  lemma HoldOverAutoDrain(s: State, n: NodeId, recoverAfter: int, policy: Policy)
    requires TickCandidate(s, n) && !s.nodes[n].flags.draining && n in s.metas
    ensures var s1 := Next(s, EntryTick(n, true, true, recoverAfter, 0));
            var s2 := Next(s1, AdminDrain(n));
            && HeldByAdmin(s2, n) && AutoDrainedEntry(s2, n)
            && !HeldByAdmin(Run(s2, Escape(n, policy, recoverAfter)), n)
  {
    hide PoolsOf, ToldFor;
    var s1 := Next(s, EntryTick(n, true, true, recoverAfter, 0));
    var s2 := Next(s1, AdminDrain(n));
    assert s1.nodes == s.nodes[n := s.nodes[n].(flags := s.nodes[n].flags.(draining := true))];
    EscapeEndsHold(s2, n, policy, recoverAfter);
  }
}
