/** The calls that change nodes and assignments, each ending with the snapshots it owes. */
module FleetService {
  import opened Common
  import opened Heartbeat
  import opened Fleet

  const RELAY_POOL_TTL_SEC := 300

  /** The pool as sent: the list ordered by rank, then by identifier. */
  datatype RelayPool = RelayPool(entry: NodeId, generation: int, ttlSeconds: int, backends: seq<RelayBackend>)

  datatype EntryError = EntryNotFound | EntryRole | BackendNotFound | BackendRole | ZoneMismatch | NodeNotFound | SnapshotFailed

  predicate Before(x: RelayBackend, y: RelayBackend) {
    x.rank < y.rank || (x.rank == y.rank && x.id < y.id)
  }

  predicate Ordered(s: seq<RelayBackend>) {
    forall i, j :: 0 <= i < j < |s| ==> Before(s[i], s[j])
  }

  /** One set of backends has one ordered list, so an unchanged pool is sent unchanged. */
  lemma {:induction false} OrderedIsCanonical(s: seq<RelayBackend>, t: seq<RelayBackend>)
    requires Ordered(s) && Ordered(t) && Elements(s) == Elements(t)
    ensures s == t
    decreases |s|
  {
    DistinctSize(s);
    DistinctSize(t);
    if s != [] {
      assert s[0] in Elements(t) && t[0] in Elements(s);
      assert s == [s[0]] + s[1..] && t == [t[0]] + t[1..];
      forall x ensures x in Elements(s[1..]) <==> x in Elements(t[1..]) {
        assert x in Elements(s) <==> x in Elements(t);
        assert x in Elements(s) <==> x == s[0] || x in Elements(s[1..]);
        assert x in Elements(t) <==> x == t[0] || x in Elements(t[1..]);
        assert s[0] !in s[1..] && t[0] !in t[1..];
      }
      OrderedIsCanonical(s[1..], t[1..]);
    }
  }

  lemma InsertedIsOrdered(s: seq<RelayBackend>, x: RelayBackend, k: nat)
    requires Ordered(s) && k <= |s|
    requires k > 0 ==> Before(s[k - 1], x)
    requires k < |s| ==> Before(x, s[k])
    ensures Ordered(s[..k] + [x] + s[k..])
  {
    var r := s[..k] + [x] + s[k..];
    assert forall i :: 0 <= i < |r| ==> r[i] == if i < k then s[i] else if i == k then x else s[i - 1];
    assert forall i :: 0 <= i < k ==> i < k - 1 ==> Before(s[i], s[k - 1]);
    assert forall j :: k <= j < |s| ==> k < j ==> Before(s[k], s[j]);
    forall i, j | 0 <= i < j < |r| ensures Before(r[i], r[j]) {
    }
  }

  lemma InsertedIsAdded(s: seq<RelayBackend>, x: RelayBackend, k: nat)
    requires k <= |s|
    ensures Elements(s[..k] + [x] + s[k..]) == Elements(s) + {x}
  {
    assert s == s[..k] + s[k..];
  }

  /** `items.sort(key=(rank, id))`: insertion into an ordered prefix. */
  method InsertOrdered(s: seq<RelayBackend>, x: RelayBackend) returns (r: seq<RelayBackend>)
    requires Ordered(s) && forall y :: y in s ==> y.id != x.id
    ensures Ordered(r) && Elements(r) == Elements(s) + {x}
  {
    var k := |s|;
    while k > 0 && Before(x, s[k - 1])
      invariant 0 <= k <= |s|
      invariant forall j :: k <= j < |s| ==> Before(x, s[j])
    {
      k := k - 1;
    }
    assert k > 0 ==> s[k - 1] in s && Before(s[k - 1], x);
    r := s[..k] + [x] + s[k..];
    InsertedIsOrdered(s, x, k);
    InsertedIsAdded(s, x, k);
  }

  function ViewOf(p: RelayPool): Pool {
    Pool(p.generation, Elements(p.backends))
  }

  /** The latest snapshot of each entry in an outbox. */
  function LastOf(outbox: seq<RelayPool>): map<NodeId, Pool> {
    if outbox == [] then map[]
    else
      var p := outbox[|outbox| - 1];
      LastOf(outbox[..|outbox| - 1])[p.entry := ViewOf(p)]
  }

  lemma LastOfAppend(outbox: seq<RelayPool>, p: RelayPool)
    ensures LastOf(outbox + [p]) == LastOf(outbox)[p.entry := ViewOf(p)]
  {
    assert (outbox + [p])[..|outbox|] == outbox;
  }

  class EntryService {
    var nodes: Nodes
    var links: Assignments
    var metas: map<NodeId, Meta>
    var outbox: seq<RelayPool>

    ghost function View(): State
      reads this
    {
      State(nodes, links, metas, LastOf(outbox))
    }

    method Generation(pairs: seq<(NodeId, NodeId)>) returns (g: int)
      requires forall k :: 0 <= k < |pairs| ==> pairs[k] in links
      ensures pairs == [] ==> g == 0
      ensures pairs != [] ==> exists k :: 0 <= k < |pairs| && links[pairs[k]].updatedAt == g
      ensures forall k :: 0 <= k < |pairs| ==> links[pairs[k]].updatedAt <= g
    {
      if pairs == [] {
        return 0;
      }
      g := links[pairs[0]].updatedAt;
      for n := 1 to |pairs|
        invariant exists k :: 0 <= k < n && links[pairs[k]].updatedAt == g
        invariant forall k :: 0 <= k < n ==> links[pairs[k]].updatedAt <= g
      {
        if links[pairs[n]].updatedAt > g {
          g := links[pairs[n]].updatedAt;
        }
      }
    }

    /** The entry's live backends in order; skipped are missing, inactive and address-less nodes. */
    method CollectBackends(e: NodeId, pairs: seq<(NodeId, NodeId)>) returns (items: seq<RelayBackend>)
      requires Distinct(pairs) && forall k :: 0 <= k < |pairs| ==> pairs[k] in links && links[pairs[k]].active && pairs[k].0 == e
      ensures Ordered(items)
      ensures forall x :: x in Elements(items) <==>
                exists k :: 0 <= k < |pairs| && Relayed(nodes, links, e, pairs[k].1) && x == RelayOf(nodes, links, e, pairs[k].1)
      ensures forall x :: x in items ==> Truthful(nodes, links, e, x)
    {
      items := [];
      for n := 0 to |pairs|
        invariant Ordered(items)
        invariant forall x :: x in Elements(items) <==>
                    exists k :: 0 <= k < n && Relayed(nodes, links, e, pairs[k].1) && x == RelayOf(nodes, links, e, pairs[k].1)
      {
        var b := pairs[n].1;
        assert pairs[n] == (e, b);
        if b in nodes && nodes[b].flags.active {
          var address := Address(nodes[b]);
          if address.Some? {
            forall y | y in items ensures y.id != b {
              assert y in Elements(items);
              var k :| 0 <= k < n && Relayed(nodes, links, e, pairs[k].1) && y == RelayOf(nodes, links, e, pairs[k].1);
              assert pairs[k] == (e, pairs[k].1);
            }
            items := InsertOrdered(items, RelayOf(nodes, links, e, b));
          }
        }
      }
      forall x | x in items ensures Truthful(nodes, links, e, x) {
        assert x in Elements(items);
        var k :| 0 <= k < |pairs| && Relayed(nodes, links, e, pairs[k].1) && x == RelayOf(nodes, links, e, pairs[k].1);
        RelayIsTruthful(nodes, links, e, pairs[k].1);
      }
    }

    method GetRelayPool(e: NodeId) returns (r: Result<RelayPool, EntryError>)
      ensures r.Ok? <==> ValidEntry(nodes, e)
      ensures r.Ok? ==> r.value.entry == e && Ordered(r.value.backends) && ViewOf(r.value) == PoolOf(nodes, links, e)
      ensures r.Ok? ==> forall x :: x in r.value.backends ==> Truthful(nodes, links, e, x)
      ensures r.Ok? ==> forall b :: Reachable(nodes, links, e, b) ==> exists x :: x in r.value.backends && x.id == b
    {
      if e !in nodes || !nodes[e].flags.active { return Err(EntryNotFound); }
      if !IsEntryRole(nodes[e].role) { return Err(EntryRole); }
      var pairs := ListOf(ActivePairs(links, e));
      forall k | 0 <= k < |pairs| ensures pairs[k] in ActivePairs(links, e) {
        assert pairs[k] in Elements(pairs);
      }
      var items := CollectBackends(e, pairs);
      var g := Generation(pairs);
      var pool := RelayPool(e, g, RELAY_POOL_TTL_SEC, items);
      PoolComputed(nodes, links, e, pairs, pool);
      PoolIsTruthful(nodes, links, e, ViewOf(pool));
      ShownInOrder(nodes, links, e, pool);
      return Ok(pool);
    }

    method EnqueuePoolSnapshot(e: NodeId) returns (ok: bool)
      modifies this`outbox
      ensures ok == ValidEntry(nodes, e)
      ensures LastOf(outbox) == if ok then LastOf(old(outbox))[e := PoolOf(nodes, links, e)] else LastOf(old(outbox))
    {
      hide Truthful, Reachable, Ordered;
      var pool := GetRelayPool(e);
      ok := pool.Ok?;
      if ok {
        LastOfAppend(outbox, pool.value);
        outbox := outbox + [pool.value];
      }
    }

    /** One snapshot per listed entry, stopping at the first that fails. */
    method EnqueueAll(entries: seq<NodeId>) returns (ok: bool)
      modifies this`outbox
      ensures ok <==> forall e :: e in Elements(entries) ==> ValidEntry(nodes, e)
      ensures ok ==> LastOf(outbox) == LastOf(old(outbox)) + PoolsOf(nodes, links, Elements(entries))
    {
      ghost var before, told := LastOf(outbox), {};
      assert before + PoolsOf(nodes, links, told) == before;
      var n := 0;
      while n < |entries|
        invariant 0 <= n <= |entries| && told == Elements(entries[..n])
        invariant forall e :: e in told ==> ValidEntry(nodes, e)
        invariant LastOf(outbox) == before + PoolsOf(nodes, links, told)
      {
        assert entries[n] in Elements(entries);
        PrefixElements(entries, n);
        PoolsOfAdd(before, nodes, links, told, entries[n]);
        ok := EnqueuePoolSnapshot(entries[n]);
        if !ok { return; }
        told := told + {entries[n]};
        n := n + 1;
      }
      assert entries[..n] == entries;
      return true;
    }

    /** Snapshots for every entry in front of the backend; a failure undoes them all. */
    method NotifyBackendHealthChanged(b: NodeId) returns (ok: bool)
      modifies this`outbox
      ensures var r := Notify(old(View()), b);
              ok == r.Some? && View() == Commit(old(View()), r)
    {
      var saved := outbox;
      var entries := ListOf(EntriesOf(links, b));
      ok := EnqueueAll(entries);
      if !ok { outbox := saved; }
    }

    /** A flag change with the notification a backend's entries are owed. */
    method FlipFlags(n: NodeId, f: Flags) returns (ok: bool)
      requires n in nodes
      modifies this`nodes, this`outbox
      ensures var r := Flip(old(View()), n, f);
              ok == r.Some? && View() == Commit(old(View()), r)
    {
      var saved := nodes;
      nodes := nodes[n := nodes[n].(flags := f)];
      if nodes[n].role == Backend {
        ok := NotifyBackendHealthChanged(n);
        if !ok { nodes := saved; }
        return;
      }
      return true;
    }

    method AssignBackend(e: NodeId, b: NodeId, zonesMatch: bool, weight: int, enabled: bool, rank: int, now: Time)
      returns (r: Result<Assignment, EntryError>)
      modifies this`links, this`outbox
      ensures View() == Next(old(View()), Assign(e, b, zonesMatch, weight, enabled, rank, now))
      ensures r.Ok? <==> ValidEntry(nodes, e) && b in nodes && nodes[b].flags.active && nodes[b].role == Backend && zonesMatch
      ensures r.Ok? ==> links == old(links)[(e, b) := r.value] && r.value == Assignment(weight, enabled, rank, true, now)
      ensures r.Err? ==> links == old(links) && outbox == old(outbox)
    {
      if e !in nodes || !nodes[e].flags.active { return Err(EntryNotFound); }
      if !IsEntryRole(nodes[e].role) { return Err(EntryRole); }
      if b !in nodes || !nodes[b].flags.active { return Err(BackendNotFound); }
      if nodes[b].role != Backend { return Err(BackendRole); }
      if !zonesMatch { return Err(ZoneMismatch); }
      var row: Assignment;
      if (e, b) in links {
        row := links[(e, b)].(weight := weight, enabled := enabled, rank := rank, active := true, updatedAt := now);
      } else {
        row := Assignment(weight, enabled, rank, true, now);
      }
      links := links[(e, b) := row];
      var _ := EnqueuePoolSnapshot(e);
      SnapshotOfOne(State(nodes, links, metas, LastOf(old(outbox))), e);
      return Ok(row);
    }

    /** Rewrites one assignment and tells its entry, or leaves everything alone. */
    method Relink(e: NodeId, b: NodeId, a: Assignment) returns (ok: bool)
      modifies this`links, this`outbox
      ensures var r := Snapshot(old(View()).(links := old(links)[(e, b) := a]), {e});
              ok == r.Some? && View() == Commit(old(View()), r)
    {
      var saved := links;
      links := links[(e, b) := a];
      ok := EnqueuePoolSnapshot(e);
      SnapshotOfOne(State(nodes, links, metas, LastOf(old(outbox))), e);
      if !ok { links := saved; }
    }

    method UpdateExistingAssignment(e: NodeId, b: NodeId, w: Option<int>, en: Option<bool>, r: Option<int>, now: Time)
      returns (updated: bool)
      modifies this`links, this`outbox
      ensures View() == Next(old(View()), UpdateAssignment(e, b, w, en, r, now))
    {
      if (e, b) !in links || !links[(e, b)].active { return false; }
      if w.None? && en.None? && r.None? { return true; }
      updated := Relink(e, b, Patched(links[(e, b)], w, en, r, now));
    }

    method RemoveExistingAssignment(e: NodeId, b: NodeId, now: Time) returns (removed: bool)
      modifies this`links, this`outbox
      ensures View() == Next(old(View()), RemoveAssignment(e, b, now))
    {
      if (e, b) !in links || !links[(e, b)].active { return false; }
      removed := Relink(e, b, links[(e, b)].(active := false, updatedAt := now));
    }

    method DrainNode(n: NodeId) returns (ok: bool)
      modifies this`nodes, this`outbox
      ensures View() == Next(old(View()), AdminDrain(n))
    {
      if n !in nodes { return false; }
      ok := FlipFlags(n, nodes[n].flags.(draining := true, source := Some(Admin)));
    }

    method EnableNode(n: NodeId) returns (ok: bool)
      modifies this`nodes, this`outbox
      ensures View() == Next(old(View()), AdminEnable(n))
    {
      if n !in nodes { return false; }
      ok := FlipFlags(n, nodes[n].flags.(draining := false, enabled := true, source := None));
    }

    /** Drain and restore are checked one after the other, as the flags stand by then. */
    method HandleHeartbeat(n: NodeId, payload: Payload, policy: Policy, now: Time) returns (ok: bool)
      modifies this
      ensures View() == Next(old(View()), Heartbeat(n, payload, policy, now))
    {
      if n !in nodes { return false; }
      var healthy := EffectiveHealth(payload, policy);
      var meta := NextMeta(if n in metas then metas[n] else NO_META, healthy);
      if ShouldDrain(nodes[n].flags, meta, healthy, policy) {
        ok := FlipFlags(n, nodes[n].flags.(draining := true, source := Some(Auto)));
        if !ok { return; }
        meta := meta.(reason := Some(UnhealthyHeartbeat), drainedAt := Some(now));
      }
      if ShouldUndrain(nodes[n].flags, meta, healthy, policy) {
        ok := FlipFlags(n, nodes[n].flags.(draining := false, source := None));
        if !ok { return; }
        meta := meta.(reason := None, drainedAt := None);
      }
      metas := metas[n := meta];
      return true;
    }

    /** The administrator's PATCH writes the row and tells nobody. */
    method PatchNode(n: NodeId, patch: NodePatch) returns (ok: bool)
      modifies this`nodes
      ensures View() == Next(old(View()), AdminPatch(n, patch))
      ensures ok <==> n in old(nodes)
      ensures outbox == old(outbox)
    {
      if n !in nodes { return false; }
      var x := nodes[n];
      if patch.role.Some? { x := x.(role := patch.role.value); }
      if patch.realityIp.Some? { x := x.(realityIp := patch.realityIp.value); }
      if patch.enabled.Some? { x := x.(flags := x.flags.(enabled := patch.enabled.value)); }
      if patch.draining.Some? { x := x.(flags := x.flags.(draining := patch.draining.value)); }
      nodes := nodes[n := x];
      return true;
    }

    /** Snapshots for every entry that shares a backend with `n`, one backend after another. */
    method NotifyColleagues(n: NodeId)
      modifies this`outbox
      ensures View() == TellColleagues(old(View()), n)
    {
      hide PoolOf, Tellable, EntriesOf;
      var backends := ListOf(BackendsOf(links, n));
      ghost var s := View();
      ghost var done := {};
      assert PoolsOf(nodes, links, ToldFor(s, {})) == map[];
      for k := 0 to |backends|
        invariant done == Elements(backends[..k])
        invariant LastOf(outbox) == s.last + PoolsOf(nodes, links, ToldFor(s, done))
      {
        TellOneMore(s, LastOf(outbox), done, backends[k]);
        var _ := NotifyBackendHealthChanged(backends[k]);
        PrefixElements(backends, k);
        done := done + {backends[k]};
      }
      assert backends[..|backends|] == backends;
    }

    /** One entry of an auto-drain tick. */
    method AutoDrainEntry(n: NodeId, failing: bool, undrainAllowed: bool, recoverAfter: int, now: Time) returns (drained: bool, undrained: bool)
      modifies this
      ensures View() == Next(old(View()), EntryTick(n, failing, undrainAllowed, recoverAfter, now))
      ensures nodes.Keys == old(nodes).Keys
      ensures drained <==> n in nodes && nodes[n].flags.draining && !old(nodes)[n].flags.draining
      ensures undrained <==> n in nodes && !nodes[n].flags.draining && old(nodes)[n].flags.draining
    {
      hide TellColleagues;
      drained, undrained := false, false;
      if n !in nodes || !nodes[n].flags.active || !nodes[n].flags.enabled || !IsEntryRole(nodes[n].role) { return; }
      if !failing {
        if undrainAllowed && nodes[n].flags.draining {
          undrained := TryUndrainEntry(n, recoverAfter);
          if undrained { NotifyColleagues(n); }
        }
        ColleaguesFrame(View(), n);
        return;
      }
      if !nodes[n].flags.draining {
        nodes := nodes[n := nodes[n].(flags := nodes[n].flags.(draining := true))];
        RecordDrainReason(n, Some(EntryAutoDrain), Some(now));
        drained := true;
      }
      ColleaguesFrame(View(), n);
      NotifyColleagues(n);
    }

    method TryUndrainEntry(n: NodeId, recoverAfter: int) returns (undrained: bool)
      requires n in nodes && nodes[n].flags.draining
      modifies this`nodes, this`metas
      ensures undrained == Undrainable(old(View()), n, recoverAfter)
      ensures View() == if undrained
                        then Annotate(SetFlags(old(View()), n, old(nodes)[n].flags.(draining := false)), n, None, None)
                        else old(View())
    {
      if n !in metas { return false; }
      if metas[n].reason != Some(EntryAutoDrain) { return false; }
      if metas[n].healthy < Max(1, recoverAfter) { return false; }
      nodes := nodes[n := nodes[n].(flags := nodes[n].flags.(draining := false))];
      RecordDrainReason(n, None, None);
      return true;
    }

    /** Stores or clears reason and moment of a drain for a node that has reported before. */
    method RecordDrainReason(n: NodeId, reason: Option<DrainReason>, at: Option<Time>)
      modifies this`metas
      ensures View() == Annotate(old(View()), n, reason, at)
    {
      if n in metas {
        metas := metas[n := metas[n].(reason := reason, drainedAt := at)];
      }
    }

    /** The drain part of an auto-heal tick, for a node found unavailable. */
    method AutoHealDrainNode(n: NodeId, now: Time) returns (ok: bool)
      modifies this
      ensures View() == Next(old(View()), AutoHealDrain(n, now))
    {
      if n !in nodes || nodes[n].flags.draining { return false; }
      var saved := metas;
      RecordDrainReason(n, Some(UnhealthyHeartbeat), Some(now));
      ok := FlipFlags(n, nodes[n].flags.(draining := true, source := Some(Auto)));
      if !ok { metas := saved; }
    }

    /** The recovery part of an auto-heal tick, for one node. */
    method RecoverDrainingNode(n: NodeId, healthyAndFresh: bool, hasPlacements: bool, probeRecovered: bool) returns (undrained: bool)
      modifies this
      ensures View() == Next(old(View()), AutoHealRecover(n, healthyAndFresh, hasPlacements, probeRecovered))
    {
      if n !in nodes || n !in metas { return false; }
      if !Recoverable(nodes[n].flags, metas[n], healthyAndFresh, hasPlacements, probeRecovered) { return false; }
      var saved := metas;
      RecordDrainReason(n, None, None);
      undrained := FlipFlags(n, nodes[n].flags.(draining := false, source := None));
      if !undrained { metas := saved; }
    }

    /** Flags, reason and snapshots of one probe-driven change; false leaves a half-done change to the caller. */
    method ProbeFlip(n: NodeId, f: Flags, reason: Option<DrainReason>, at: Option<Time>) returns (ok: bool)
      requires n in nodes
      modifies this`nodes, this`metas, this`outbox
      ensures var r := Notify(Annotate(SetFlags(old(View()), n, f), n, reason, at), n);
              ok == r.Some? && (ok ==> View() == r.value)
    {
      nodes := nodes[n := nodes[n].(flags := f)];
      RecordDrainReason(n, reason, at);
      ok := NotifyBackendHealthChanged(n);
    }

    /** `migrated` is whether the placement migration went through; if not, the drain is compensated. */
    method DrainAndMigrateBackend(n: NodeId, reason: string, migrated: bool, now: Time) returns (drained: bool)
      modifies this
      ensures View() == Next(old(View()), ProbeDrain(n, reason, migrated, now))
    {
      if n !in nodes { return false; }
      var f := nodes[n].flags;
      if f.draining { return migrated; }
      var savedNodes, savedMetas, savedOutbox := nodes, metas, outbox;
      var ok := ProbeFlip(n, f.(draining := true, source := Some(Auto)), Some(ProbeFailure(reason)), Some(now));
      if ok && !migrated {
        ok := ProbeFlip(n, f.(draining := false, source := None), None, None);
      }
      if !ok {
        nodes, metas, outbox := savedNodes, savedMetas, savedOutbox;
      }
      return ok && migrated;
    }
  }

  lemma ShownInOrder(nodes: Nodes, links: Assignments, e: NodeId, pool: RelayPool)
    requires forall x :: x in ViewOf(pool).backends ==> Truthful(nodes, links, e, x)
    requires forall b :: Reachable(nodes, links, e, b) ==> exists x :: x in ViewOf(pool).backends && x.id == b
    ensures forall x :: x in pool.backends ==> Truthful(nodes, links, e, x)
    ensures forall b :: Reachable(nodes, links, e, b) ==> exists x :: x in pool.backends && x.id == b
  {
    assert forall x :: x in pool.backends <==> x in ViewOf(pool).backends;
  }

  lemma ColleaguesFrame(s: State, n: NodeId)
    ensures TellColleagues(s, n) == s.(last := TellColleagues(s, n).last)
  {
  }

  /** One backend more, told after the others have been. */
  lemma TellOneMore(s: State, last: map<NodeId, Pool>, done: set<NodeId>, b: NodeId)
    requires last == s.last + PoolsOf(s.nodes, s.links, ToldFor(s, done))
    ensures Commit(s.(last := last), Notify(s.(last := last), b)).last == s.last + PoolsOf(s.nodes, s.links, ToldFor(s, done + {b}))
    ensures Commit(s.(last := last), Notify(s.(last := last), b)).nodes == s.nodes
  {
    ToldForAdd(s, done, b);
    NotifyTells(s.(last := last), b);
    PoolsOfUnion(s.nodes, s.links, ToldFor(s, done), EntriesOf(s.links, b));
    hide PoolsOf, ToldFor, EntriesOf, Notify;
    assert Tellable(s.(last := last), b) <==> Tellable(s, b);
    var told, more := PoolsOf(s.nodes, s.links, ToldFor(s, done)), PoolsOf(s.nodes, s.links, EntriesOf(s.links, b));
    assert (s.last + told) + more == s.last + (told + more);
  }

  lemma NotifyTells(s: State, b: NodeId)
    ensures Commit(s, Notify(s, b))
         == if Tellable(s, b) then s.(last := s.last + PoolsOf(s.nodes, s.links, EntriesOf(s.links, b))) else s
  {
  }

  lemma PoolsOfUnion(nodes: Nodes, links: Assignments, a: set<NodeId>, b: set<NodeId>)
    ensures PoolsOf(nodes, links, a) + PoolsOf(nodes, links, b) == PoolsOf(nodes, links, a + b)
  {
  }

  lemma ToldForAdd(s: State, done: set<NodeId>, b: NodeId)
    ensures ToldFor(s, done + {b}) == if Tellable(s, b) then ToldFor(s, done) + EntriesOf(s.links, b) else ToldFor(s, done)
  {
    hide EntriesOf, Tellable;
    var more := if Tellable(s, b) then EntriesOf(s.links, b) else {};
    forall e ensures e in ToldFor(s, done + {b}) <==> e in ToldFor(s, done) + more {
      if e in more {
        assert b in done + {b} && Tellable(s, b) && e in EntriesOf(s.links, b);
      }
      if d :| d in done && Tellable(s, d) && e in EntriesOf(s.links, d) {
        assert d in done + {b};
      }
    }
  }

  lemma PrefixElements(s: seq<NodeId>, n: nat)
    requires n < |s|
    ensures Elements(s[..n + 1]) == Elements(s[..n]) + {s[n]}
  {
    assert s[..n + 1] == s[..n] + [s[n]];
  }

  lemma PoolsOfAdd(before: map<NodeId, Pool>, nodes: Nodes, links: Assignments, told: set<NodeId>, e: NodeId)
    ensures (before + PoolsOf(nodes, links, told))[e := PoolOf(nodes, links, e)] == before + PoolsOf(nodes, links, told + {e})
  {
  }

  lemma SnapshotOfOne(s: State, e: NodeId)
    ensures Snapshot(s, {e}) == if ValidEntry(s.nodes, e) then Some(s.(last := s.last[e := PoolOf(s.nodes, s.links, e)])) else None
  {
    assert s.last + PoolsOf(s.nodes, s.links, {e}) == s.last[e := PoolOf(s.nodes, s.links, e)];
  }

  lemma PoolComputed(nodes: Nodes, links: Assignments, e: NodeId, pairs: seq<(NodeId, NodeId)>, pool: RelayPool)
    requires Elements(pairs) == ActivePairs(links, e)
    requires forall k :: 0 <= k < |pairs| ==> pairs[k] in links && pairs[k].0 == e
    requires pairs == [] ==> pool.generation == 0
    requires pairs != [] ==> exists k :: 0 <= k < |pairs| && links[pairs[k]].updatedAt == pool.generation
    requires forall k :: 0 <= k < |pairs| ==> links[pairs[k]].updatedAt <= pool.generation
    requires forall x :: x in Elements(pool.backends) <==>
               exists k :: 0 <= k < |pairs| && Relayed(nodes, links, e, pairs[k].1) && x == RelayOf(nodes, links, e, pairs[k].1)
    ensures ViewOf(pool) == PoolOf(nodes, links, e)
  {
    var relays := set b | b in nodes && Relayed(nodes, links, e, b) :: RelayOf(nodes, links, e, b);
    forall x ensures x in Elements(pool.backends) <==> x in relays {
      if b :| b in nodes && Relayed(nodes, links, e, b) && x == RelayOf(nodes, links, e, b) {
        assert (e, b) in Elements(pairs);
        var k :| 0 <= k < |pairs| && pairs[k] == (e, b);
        assert pairs[k].1 == b;
      }
    }
    forall p | p in ActivePairs(links, e) ensures links[p].updatedAt <= pool.generation {
      assert p in Elements(pairs);
    }
    if pairs != [] {
      var k :| 0 <= k < |pairs| && links[pairs[k]].updatedAt == pool.generation;
      assert pairs[k] in Elements(pairs);
    } else {
      assert Elements(pairs) == {};
    }
    assert IsPool(nodes, links, e, ViewOf(pool));
    PoolUnique(nodes, links, e, ViewOf(pool), PoolOf(nodes, links, e));
  }
}
