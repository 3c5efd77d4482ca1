/** The service layer above the repository: migrations between nodes, node reports, outgoing commands. */
module PlacementService {
  import opened Common
  import opened PlacementTable
  import opened PlacementRepository
  import opened PlacementProtocol

  datatype MigrateError = SameNode | SourceNotFound | TargetNotFound | NoEligibleTarget | TargetNotEligible

  datatype ApplyStatus = StatusApplied | StatusPending | StatusError | SkippedStale

  datatype NodeFlags = NodeFlags(active: bool, enabled: bool, draining: bool) {
    predicate Eligible() {
      active && enabled && !draining
    }
  }

  /** (backend, entry) pairs with an enabled assignment, as the fan-out dictionary lists them. */
  function EntryPairs(entriesByBackend: map<NodeId, seq<NodeId>>): set<(NodeId, NodeId)> {
    set b, e | b in entriesByBackend && e in entriesByBackend[b] :: (b, e)
  }

  function EntryCopies(i: PlacementId, p: Placement, about: KeyColumns, entries: seq<NodeId>): set<Command> {
    set e | e in entries :: BuildCommand(i, p, about, Some(e))
  }

  lemma EntryCopiesAppend(i: PlacementId, p: Placement, about: KeyColumns, entries: seq<NodeId>, e: NodeId)
    ensures EntryCopies(i, p, about, entries + [e]) == EntryCopies(i, p, about, entries) + {BuildCommand(i, p, about, Some(e))}
  {
    assert e in entries + [e];
    assert forall x :: x in entries + [e] <==> x in entries || x == e;
  }

  /** Rows on one node belong to different keys. */
  lemma NodeRowsHaveDistinctKeys(t: Table, node: NodeId)
    requires UniqueRows(t)
    ensures OneRowPerKey(t, ServingOnNode(t, node))
  {
  }

  /** The key has an active row on the node, wanted active and not acknowledged yet. */
  predicate HasWaitingRow(t: Table, key: KeyId, node: NodeId) {
    exists c :: c in t && t[c].key == key && t[c].backend == node && t[c].active && t[c].desired == Active && t[c].applied == Pending
  }

  /** Migrating what a node serves leaves nothing served there, and a waiting row on the target for each key. */
  lemma SourceIsEmptied(t: Table, source: NodeId, target: NodeId)
    requires UniqueRows(t) && source != target
    ensures var t' := Migrate(t, ServingOnNode(t, source), target);
            && (forall i :: i in t' ==> !(t'[i].active && t'[i].desired == Active && t'[i].backend == source))
            && (forall i :: i in t && t[i].active && t[i].desired == Active && t[i].backend == source ==>
                  HasWaitingRow(t', t[i].key, target))
  {
    NodeRowsHaveDistinctKeys(t, source);
    var ids := ServingOnNode(t, source);
    var t' := Migrate(t, ids, target);
    forall i | i in t && t[i].active && t[i].desired == Active && t[i].backend == source
      ensures HasWaitingRow(t', t[i].key, target)
    {
      MigrateCarries(t, ids, target, i);
      var c :| Carries(t, ids, target, i, c);
      assert c in t' && t'[c].key == t[i].key;
    }
    forall i | i in t' ensures !(t'[i].active && t'[i].desired == Active && t'[i].backend == source) {
      if i in ids {
        MigrateCarries(t, ids, target, i);
      } else if t[i].backend != target {
        MigrateFrame(t, ids, target, i);
      } else {
        OneMigration(t, ids, target, t');
        MigrationRow(t, ids, target, i, t'[i]);
      }
    }
  }

  lemma ServedAreColumns(t: Table, source: NodeId)
    ensures ServingOnNode(t, source) == set i | i in t && t[i].active && t[i].desired == Active && t[i].backend == source
  {
    var columns := set i | i in t && t[i].active && t[i].desired == Active && t[i].backend == source;
    forall i ensures i in ServingOnNode(t, source) <==> i in columns {
    }
  }

  lemma WhatIsEnqueued(outbox: set<Command>, t: Table, keys: Keys, ids: seq<PlacementId>, entries: set<(NodeId, NodeId)>)
    ensures var outbox' := EnqueueMany(outbox, Commands(t, keys, Elements(ids), entries));
            && outbox <= outbox'
            && (forall c :: c in outbox' && c !in outbox ==>
                  && c.placement in ids && c.placement in t
                  && var p := t[c.placement];
                     p.active && c.key == p.key && c.backend == p.backend && c.version == p.opVersion && c.desired == p.desired)
            && (forall i :: i in ids && i in t && t[i].active && LiveKey(keys, t[i].key) ==>
                  exists c :: c in outbox' && c.placement == i && c.version == t[i].opVersion && c.entry == None)
  {
    var items := Commands(t, keys, Elements(ids), entries);
    var outbox' := EnqueueMany(outbox, items);
    forall c | c in outbox' && c !in outbox
      ensures && c.placement in ids && c.placement in t
              && var p := t[c.placement];
                 p.active && c.key == p.key && c.backend == p.backend && c.version == p.opVersion && c.desired == p.desired
    {
      CommandsExactly(t, keys, Elements(ids), entries, c);
    }
    forall i | i in ids && i in t && t[i].active && LiveKey(keys, t[i].key)
      ensures exists c :: c in outbox' && c.placement == i && c.version == t[i].opVersion && c.entry == None
    {
      var m := CommandFor(t, keys, i, None);
      CommandsExactly(t, keys, Elements(ids), entries, m);
      if o :| o in outbox && o.MessageId() == m.MessageId() {
        assert o in outbox' && o.placement == i && o.version == t[i].opVersion && o.entry == None;
      } else {
        assert m in outbox' && m.placement == i && m.version == t[i].opVersion && m.entry == None;
      }
    }
  }

  class UserPlacementService {
    const repo: UserPlacementRepository
    var outbox: set<Command>

    constructor (repo: UserPlacementRepository)
      ensures this.repo == repo && outbox == {}
    {
      this.repo, outbox := repo, {};
    }

    /** The backend's own command, then one copy for each of its entries. */
    method CommandsForRow(i: PlacementId, keys: Keys, entriesByBackend: map<NodeId, seq<NodeId>>) returns (items: set<Command>)
      requires Sendable(repo.rows, keys, i)
      ensures items == Commands(repo.rows, keys, {i}, EntryPairs(entriesByBackend))
      ensures forall c :: c in items <==>
                && c.placement == i && c.key == repo.rows[i].key && c.backend == repo.rows[i].backend
                && c.version == repo.rows[i].opVersion && c.desired == repo.rows[i].desired
                && c.about == keys[repo.rows[i].key].columns
                && (c.entry == None || (c.backend in entriesByBackend && c.entry.value in entriesByBackend[c.backend]))
    {
      RowCommandsExactly(repo.rows, keys, i, entriesByBackend);
      CommandsOfOneRow(repo.rows, keys, i, entriesByBackend);
      var p := repo.rows[i];
      var about := keys[p.key].columns;
      items := {BuildCommand(i, p, about, None)};
      if p.backend in entriesByBackend {
        var entries := entriesByBackend[p.backend];
        for k := 0 to |entries|
          invariant items == {BuildCommand(i, p, about, None)} + EntryCopies(i, p, about, entries[..k])
        {
          assert entries[..k + 1] == entries[..k] + [entries[k]];
          EntryCopiesAppend(i, p, about, entries[..k], entries[k]);
          items := items + {BuildCommand(i, p, about, Some(entries[k]))};
        }
        assert entries[..|entries|] == entries;
      }
    }

    method CommandsForRows(rows: seq<PlacementId>, keys: Keys, entriesByBackend: map<NodeId, seq<NodeId>>) returns (items: set<Command>)
      requires forall k :: 0 <= k < |rows| ==> Sendable(repo.rows, keys, rows[k])
      ensures items == Commands(repo.rows, keys, Elements(rows), EntryPairs(entriesByBackend))
    {
      items := {};
      for n := 0 to |rows|
        invariant items == Commands(repo.rows, keys, Elements(rows[..n]), EntryPairs(entriesByBackend))
      {
        var copies := CommandsForRow(rows[n], keys, entriesByBackend);
        CommandsUnion(repo.rows, keys, Elements(rows[..n]), {rows[n]}, EntryPairs(entriesByBackend));
        assert rows[..n + 1] == rows[..n] + [rows[n]];
        assert Elements(rows[..n + 1]) == Elements(rows[..n]) + {rows[n]};
        items := items + copies;
      }
      assert rows[..|rows|] == rows;
    }

    /** Commands for the listed active rows with an active key; a message id seen before is dropped. */
    method EnqueueForPlacementIds(ids: seq<PlacementId>, keys: Keys, entriesByBackend: map<NodeId, seq<NodeId>>)
      modifies this
      ensures outbox == EnqueueMany(old(outbox), Commands(repo.rows, keys, Elements(ids), EntryPairs(entriesByBackend)))
      ensures old(outbox) <= outbox
      ensures forall c :: c in outbox && c !in old(outbox) ==>
                && c.placement in ids && c.placement in repo.rows
                && var p := repo.rows[c.placement];
                   p.active && c.key == p.key && c.backend == p.backend && c.version == p.opVersion && c.desired == p.desired
      ensures forall i :: i in ids && i in repo.rows && repo.rows[i].active && LiveKey(keys, repo.rows[i].key) ==>
                exists c :: c in outbox && c.placement == i && c.version == repo.rows[i].opVersion && c.entry == None
    {
      WhatIsEnqueued(outbox, repo.rows, keys, ids, EntryPairs(entriesByBackend));
      var rows := ListOf(set i | i in Elements(ids) && Sendable(repo.rows, keys, i));
      forall k | 0 <= k < |rows| ensures Sendable(repo.rows, keys, rows[k]) {
        assert rows[k] in Elements(rows);
      }
      var items := CommandsForRows(rows, keys, entriesByBackend);
      OnlySendable(repo.rows, keys, Elements(ids), EntryPairs(entriesByBackend));
      outbox := EnqueueMany(outbox, items);
    }

    /**
      Moves everything served on `source` to `target`, or to the best candidate when no target is
      named. `nodes` are the node rows, `candidates` the routing service's selection.
     */
    method MigrateBackend(source: NodeId, target: Option<NodeId>, nodes: map<NodeId, NodeFlags>, candidates: seq<NodeId>,
                          keys: Keys, entriesByBackend: map<NodeId, seq<NodeId>>)
      returns (r: Result<(NodeId, nat), MigrateError>)
      requires UniqueRows(repo.rows)
      requires forall c :: c in candidates ==> c != source && c in nodes
      modifies this, repo
      ensures UniqueRows(repo.rows)
      ensures r.Ok? <==>
                && source in nodes && target != Some(source)
                && (target.None? ==> candidates != [])
                && var to := if target.Some? then target.value else candidates[0];
                   to in nodes && nodes[to].active && nodes[to].enabled && !nodes[to].draining
      ensures r.Err? ==> repo.rows == old(repo.rows) && outbox == old(outbox)
      ensures r.Err? ==>
                r.error == if target == Some(source) then SameNode
                           else if source !in nodes then SourceNotFound
                           else if target.Some? && target.value !in nodes then TargetNotFound
                           else if target.None? && candidates == [] then NoEligibleTarget
                           else TargetNotEligible
      ensures r.Ok? ==>
                var to := r.value.0;
                var chosen := ServingOnNode(old(repo.rows), source);
                && to == (if target.Some? then target.value else candidates[0]) && to != source
                && repo.rows == Migrate(old(repo.rows), chosen, to)
                && r.value.1 == |chosen| == |Rerouted(old(repo.rows), chosen, to)|
                && outbox == EnqueueMany(old(outbox),
                               Commands(repo.rows, keys, Carriers(old(repo.rows), chosen, to), EntryPairs(entriesByBackend)))
      ensures r.Ok? ==>
                && r.value.1 == |set i | i in old(repo.rows) && old(repo.rows)[i].active && old(repo.rows)[i].desired == Active
                                       && old(repo.rows)[i].backend == source|
                && (forall i :: i in repo.rows ==>
                      !(repo.rows[i].active && repo.rows[i].desired == Active && repo.rows[i].backend == source))
                && (forall i :: i in old(repo.rows) && old(repo.rows)[i].active && old(repo.rows)[i].desired == Active
                                && old(repo.rows)[i].backend == source ==>
                      HasWaitingRow(repo.rows, old(repo.rows)[i].key, r.value.0))
    {
      hide Migrate, Carriers, EnqueueMany, Commands, HasWaitingRow, UniqueRows, OneRowPerKey, LiveKey;
      ghost var t := repo.rows;
      if target.Some? && source == target.value { return Err(SameNode); }
      if source !in nodes { return Err(SourceNotFound); }
      var to: NodeId;
      if target.Some? {
        if target.value !in nodes { return Err(TargetNotFound); }
        to := target.value;
      } else {
        if candidates == [] { return Err(NoEligibleTarget); }
        to := candidates[0];
      }
      if !nodes[to].Eligible() { return Err(TargetNotEligible); }

      var chosen := ListOf(ServingOnNode(repo.rows, source));
      NodeRowsHaveDistinctKeys(repo.rows, source);
      NothingToMigrate(t, outbox, keys, to, EntryPairs(entriesByBackend));
      assert Rerouted(repo.rows, Elements(chosen), to) == Elements(chosen);
      if chosen != [] {
        var moved := repo.BulkMigrateBackend(chosen, to);
        EnqueueNothing(outbox, repo.rows, keys, EntryPairs(entriesByBackend));
        if moved.value.1 != [] {
          EnqueueForPlacementIds(moved.value.1, keys, entriesByBackend);
        }
      }
      SourceIsEmptied(t, source, to);
      ServedAreColumns(t, source);
      return Ok((to, |chosen|));
    }

    /** A node's report about one placement, over HTTP. */
    method ApplyResult(node: NodeId, placement: PlacementId, version: nat, state: AppliedState) returns (status: ApplyStatus)
      modifies repo
      ensures repo.rows == Land(old(repo.rows), Report(node, placement, version, state))
      ensures status == SkippedStale <==> !Lands(old(repo.rows), Report(node, placement, version, state))
      ensures status == SkippedStale ==> repo.rows == old(repo.rows)
      ensures status != SkippedStale ==>
                status == match state case Applied => StatusApplied case Error => StatusError case Pending => StatusPending
      ensures status != SkippedStale <==>
                && placement in old(repo.rows)
                && old(repo.rows)[placement].opVersion == version && old(repo.rows)[placement].backend == node
      ensures status != SkippedStale ==>
                repo.rows == old(repo.rows)[placement := old(repo.rows)[placement].(applied := state, appliedVersion := version)]
    {
      var updated := repo.ApplyBackendReport(Report(node, placement, version, state));
      if updated == 0 { return SkippedStale; }
      status := match state case Applied => StatusApplied case Error => StatusError case Pending => StatusPending;
    }
  }

  lemma MigrateNothing(t: Table, target: NodeId)
    ensures Migrate(t, {}, target) == t
  {
  }

  lemma NothingToMigrate(t: Table, outbox: set<Command>, keys: Keys, target: NodeId, entries: set<(NodeId, NodeId)>)
    ensures Migrate(t, {}, target) == t && Carriers(t, {}, target) == {}
    ensures EnqueueMany(outbox, Commands(t, keys, {}, entries)) == outbox
  {
    MigrateNothing(t, target);
  }

  lemma EnqueueNothing(outbox: set<Command>, t: Table, keys: Keys, entries: set<(NodeId, NodeId)>)
    ensures EnqueueMany(outbox, Commands(t, keys, {}, entries)) == outbox
  {
  }

  lemma CommandsUnion(t: Table, keys: Keys, a: set<PlacementId>, b: set<PlacementId>, entries: set<(NodeId, NodeId)>)
    ensures Commands(t, keys, a + b, entries) == Commands(t, keys, a, entries) + Commands(t, keys, b, entries)
  {
  }

  lemma OnlySendable(t: Table, keys: Keys, ids: set<PlacementId>, entries: set<(NodeId, NodeId)>)
    ensures Commands(t, keys, (set i | i in ids && Sendable(t, keys, i)), entries) == Commands(t, keys, ids, entries)
  {
  }

  lemma EntryPairsExactly(entriesByBackend: map<NodeId, seq<NodeId>>, b: NodeId, e: NodeId)
    ensures (b, e) in EntryPairs(entriesByBackend) <==> b in entriesByBackend && e in entriesByBackend[b]
  {
    if b in entriesByBackend && e in entriesByBackend[b] {
      var entries := entriesByBackend[b];
      assert e in entries && (b, e) in EntryPairs(entriesByBackend);
    }
  }

  lemma RowCommandsExactly(t: Table, keys: Keys, i: PlacementId, entriesByBackend: map<NodeId, seq<NodeId>>)
    requires Sendable(t, keys, i)
    ensures forall c :: c in Commands(t, keys, {i}, EntryPairs(entriesByBackend)) <==>
              && c.placement == i && c.key == t[i].key && c.backend == t[i].backend
              && c.version == t[i].opVersion && c.desired == t[i].desired && c.about == keys[t[i].key].columns
              && (c.entry == None || (c.backend in entriesByBackend && c.entry.value in entriesByBackend[c.backend]))
  {
    forall c
      ensures c in Commands(t, keys, {i}, EntryPairs(entriesByBackend)) <==>
              && c.placement == i && c.key == t[i].key && c.backend == t[i].backend
              && c.version == t[i].opVersion && c.desired == t[i].desired && c.about == keys[t[i].key].columns
              && (c.entry == None || (c.backend in entriesByBackend && c.entry.value in entriesByBackend[c.backend]))
    {
      CommandsExactly(t, keys, {i}, EntryPairs(entriesByBackend), c);
      if c.entry.Some? {
        EntryPairsExactly(entriesByBackend, t[i].backend, c.entry.value);
      }
    }
  }

  lemma CommandsOfOneRow(t: Table, keys: Keys, i: PlacementId, entriesByBackend: map<NodeId, seq<NodeId>>)
    requires Sendable(t, keys, i)
    ensures var p := t[i]; var about := keys[p.key].columns;
            Commands(t, keys, {i}, EntryPairs(entriesByBackend))
            == {BuildCommand(i, p, about, None)}
             + if p.backend in entriesByBackend
               then EntryCopies(i, p, about, entriesByBackend[p.backend]) else {}
  {
    var p := t[i];
    if p.backend in entriesByBackend {
      forall e | e in entriesByBackend[p.backend]
        ensures CommandFor(t, keys, i, Some(e)) in Commands(t, keys, {i}, EntryPairs(entriesByBackend))
      {
        assert (p.backend, e) in EntryPairs(entriesByBackend);
      }
    }
  }

  // ---- A renewed key that is not sent again ------------------------------------------

  /**
    The failing case of deduplication, for any two states of a key: its placement is sent and not yet
    acknowledged when the key changes. The request that follows raises no version, since the row is
    still pending, and the command with the new columns is dropped as a repetition.
   */
  lemma RenewedKeyIsNotResent(key: KeyId, node: NodeId, before: KeyColumns, after: KeyColumns)
    requires before != after
    ensures var sent := Run(INITIAL, [PutKey(key, VpnKey(before, true)), DoUpsert(1, key, node, Active, None), Enqueue({1}, {})]);
            var renewed := Next(sent, PutKey(key, VpnKey(after, true)));
            var requested := Next(renewed, DoSetDesired(OutOfStep(renewed.table, {key}, Active), Active));
            var enqueued := Next(requested, Enqueue({1}, {}));
            && requested.table == sent.table && 1 in sent.table && Serving(sent.table[1])
            && Sendable(requested.table, requested.keys, 1)
            && CommandFor(requested.table, requested.keys, 1, None).about == after
            && enqueued.outbox == sent.outbox
            && forall c :: c in Sent(enqueued) ==> c.about == before
  {
    var s1 := Next(INITIAL, PutKey(key, VpnKey(before, true)));
    var s2 := Next(s1, DoUpsert(1, key, node, Active, None));
    var s3 := Next(s2, Enqueue({1}, {}));
    RunThree(PutKey(key, VpnKey(before, true)), DoUpsert(1, key, node, Active, None), Enqueue({1}, {}));
    assert s2.table == map[1 := Placement(key, node, Active, Pending, 1, 0, None, true)];
    var c := CommandFor(s2.table, s2.keys, 1, None);
    OneCommand(s2.table, s2.keys, 1);
    assert s3.outbox == {c};
    var renewed := Next(s3, PutKey(key, VpnKey(after, true)));
    assert OutOfStep(renewed.table, {key}, Active) == {};
    var requested := Next(renewed, DoSetDesired({}, Active));
    assert requested.table == s3.table;
    OneCommand(requested.table, requested.keys, 1);
    var d := CommandFor(requested.table, requested.keys, 1, None);
    assert d.MessageId() == c.MessageId();
  }

  lemma RunThree(a: Step, b: Step, c: Step)
    ensures Run(INITIAL, [a, b, c]) == Next(Next(Next(INITIAL, a), b), c)
  {
    assert [a, b, c][1..] == [b, c] && [b, c][1..] == [c] && [c][1..] == [];
    assert Run(Next(Next(INITIAL, a), b), [c]) == Next(Next(Next(INITIAL, a), b), c);
    assert Run(Next(INITIAL, a), [b, c]) == Run(Next(Next(INITIAL, a), b), [c]);
  }

  lemma OneCommand(t: Table, keys: Keys, i: PlacementId)
    requires Sendable(t, keys, i)
    ensures Commands(t, keys, {i}, {}) == {CommandFor(t, keys, i, None)}
  {
  }
}
